/**
 One call of a hooked I/O function: it tries, waits for the event with a condition timer beside it, and tries again.
 The timers' callbacks run on any thread, so the call is a machine of its own steps and theirs; a callback tests the
 shared flag, sets it and cancels the event in three steps.
 */
module DoIo {

  const EINTR := 4
  const EAGAIN := 11
  const ETIMEDOUT := 110

  /** Where the call stands. `Arming` is before addEvent, `Woken` before the timer's cancel, `Checking` behind it. */
  datatype Phase = Trying | Arming | Waiting | Woken | Checking | Returned(n: int, err: int)

  /**
   In the set; the callback taken from the set; past its test of the flag; past setting it; done; or cancelled in time.
   */
  datatype Timer = InSet | Taken | Tested | Flagged | Done | Removed

  /**
   `cancelled` is the flag that the call and its callbacks share, `acted` the timers whose callbacks set it, `last`
   what the function returned last, and `refused` that addEvent failed.
   */
  datatype Call = Call(phase: Phase, hasTimeout: bool, cancelled: bool, armed: bool, timers: seq<Timer>,
                       acted: set<nat>, last: (int, int), refused: bool)

  datatype Action =
    | Try(n: int, err: int)
    | Arm(ok: bool, err: int)
    | Deliver
    | Resume
    | CancelTimer
    | Check
    | Expire(k: nat)
    | FireTest(k: nat)
    | FireSet(k: nat)
    | FireEnd(k: nat)

  function Begin(hasTimeout: bool): Call {
    Call(Trying, hasTimeout, false, false, [], {}, (0, 0), false)
  }

  predicate Possible(s: Call, a: Action) {
    match a
    case Try(_, _) => s.phase.Trying?
    case Arm(_, _) => s.phase.Arming?
    case Deliver => s.armed
    case Resume => s.phase.Waiting? && !s.armed
    case CancelTimer => s.phase.Woken?
    case Check => s.phase.Checking?
    case Expire(k) => k < |s.timers| && s.timers[k].InSet?
    case FireTest(k) => k < |s.timers| && s.timers[k].Taken?
    case FireSet(k) => k < |s.timers| && s.timers[k].Tested?
    case FireEnd(k) => k < |s.timers| && s.timers[k].Flagged?
  }

  predicate Again(n: int, err: int) {
    n == -1 && (err == EINTR || err == EAGAIN)
  }

  /** Timer::cancel of the newest timer: it does nothing once the callback is taken. */
  function Dropped(s: Call): seq<Timer> {
    if s.timers != [] && s.timers[|s.timers| - 1].InSet? then s.timers[|s.timers| - 1 := Removed] else s.timers
  }

  function Step(s: Call, a: Action): Call
    requires Possible(s, a)
  {
    match a
    case Try(n, err) =>
      var t := s.(last := (n, err));
      if n == -1 && err == EINTR then t
      else if n == -1 && err == EAGAIN then
        t.(phase := Arming, timers := if s.hasTimeout then s.timers + [InSet] else s.timers)
      else t.(phase := Returned(n, err))
    case Arm(ok, err) =>
      if ok then s.(phase := Waiting, armed := true)
      else s.(phase := Returned(-1, err), timers := Dropped(s), refused := true)
    case Deliver => s.(armed := false)
    case Resume => s.(phase := Woken)
    case CancelTimer => s.(phase := Checking, timers := Dropped(s))
    case Check => s.(phase := if s.cancelled then Returned(-1, ETIMEDOUT) else Trying)
    case Expire(k) => s.(timers := s.timers[k := Taken])
    case FireTest(k) => s.(timers := s.timers[k := if s.phase.Returned? || s.cancelled then Done else Tested])
    case FireSet(k) => s.(timers := s.timers[k := Flagged], cancelled := true, acted := s.acted + {k})
    case FireEnd(k) => s.(timers := s.timers[k := Done], armed := false)
  }

  ghost predicate IsRun(s: Call, steps: seq<Action>)
    decreases |steps|
  {
    steps == [] || (Possible(s, steps[0]) && IsRun(Step(s, steps[0]), steps[1..]))
  }

  ghost function After(s: Call, steps: seq<Action>): Call
    requires IsRun(s, steps)
    decreases |steps|
  {
    if steps == [] then s else After(Step(s, steps[0]), steps[1..])
  }

  // ---- what every step keeps ----

  /** Only the timer of the round under way can be in the set, and none when the call is trying or has returned. */
  predicate OnlyNewestInSet(s: Call) {
    forall k :: 0 <= k < |s.timers| && s.timers[k].InSet? ==>
      k == |s.timers| - 1 && (s.phase.Arming? || s.phase.Waiting? || s.phase.Woken?)
  }

  /** The flag is set exactly when a callback acted, and only callbacks act whose time had come. */
  predicate FlagSet(s: Call) {
    && (s.cancelled <==> s.acted != {})
    && (forall k :: k in s.acted ==> k < |s.timers| && (s.timers[k].Flagged? || s.timers[k].Done?))
    && (forall k :: 0 <= k < |s.timers| && s.timers[k].Flagged? ==> k in s.acted)
    && (!s.hasTimeout ==> s.timers == [])
  }

  /** The event is armed only while the call waits for it, and a call that came back says why. */
  predicate Accounted(s: Call) {
    && (s.armed ==> s.phase.Waiting?)
    && (s.phase.Returned? && !s.refused ==>
        ((s.phase.n, s.phase.err) == s.last && !Again(s.phase.n, s.phase.err))
        || (s.phase == Returned(-1, ETIMEDOUT) && s.cancelled))
  }

  predicate Inv(s: Call) {
    OnlyNewestInSet(s) && FlagSet(s) && Accounted(s)
  }

  lemma TimersKept(s: Call, a: Action)
    requires Inv(s) && Possible(s, a)
    ensures OnlyNewestInSet(Step(s, a))
  {
  }

  lemma FlagKept(s: Call, a: Action)
    requires FlagSet(s) && Possible(s, a)
    ensures FlagSet(Step(s, a))
  {
    if a.FireSet? {
      assert a.k in Step(s, a).acted;
    } else {
      FlagUntouched(s, a);
    }
  }

  /** Any step but the setting itself leaves the flag, and a callback that acted is never taken back. */
  lemma FlagUntouched(s: Call, a: Action)
    requires FlagSet(s) && Possible(s, a) && !a.FireSet?
    ensures FlagSet(Step(s, a))
  {
    var t := Step(s, a);
    assert t.acted == s.acted && t.cancelled == s.cancelled && t.hasTimeout == s.hasTimeout;
    forall k | 0 <= k < |t.timers| ensures t.timers[k].Flagged? ==> k in t.acted {
      assert t.timers[k].Flagged? ==> k < |s.timers| && s.timers[k].Flagged?;
    }
    forall k | k in t.acted ensures k < |t.timers| && (t.timers[k].Flagged? || t.timers[k].Done?) {
      assert k < |s.timers| && (s.timers[k].Flagged? || s.timers[k].Done?);
    }
  }

  lemma AccountKept(s: Call, a: Action)
    requires Inv(s) && Possible(s, a)
    ensures Accounted(Step(s, a))
  {
    hide OnlyNewestInSet, FlagSet;
  }

  lemma StepKeeps(s: Call, a: Action)
    requires Inv(s) && Possible(s, a)
    ensures Inv(Step(s, a))
  {
    hide OnlyNewestInSet, FlagSet, Accounted, Step, Possible;
    TimersKept(s, a);
    FlagKept(s, a);
    AccountKept(s, a);
  }

  lemma {:induction false} RunKeeps(s: Call, steps: seq<Action>)
    requires Inv(s) && IsRun(s, steps)
    ensures Inv(After(s, steps))
    decreases |steps|
  {
    hide Inv, Step, Possible;
    if steps != [] {
      StepKeeps(s, steps[0]);
      RunKeeps(Step(s, steps[0]), steps[1..]);
    }
  }

  /**
   Whatever the interleaving: a call that came back leaves no timer in the set and no armed event behind; unless
   addEvent was refused it gives the function's last answer, which is final, or a timeout, and a timeout only if the
   callback of a timer of this call acted; without a timeout option it never times out.
   */
  lemma CallEnds(hasTimeout: bool, steps: seq<Action>)
    requires IsRun(Begin(hasTimeout), steps)
    ensures var s := After(Begin(hasTimeout), steps);
      && (s.phase.Returned? ==> !s.armed && forall k :: 0 <= k < |s.timers| ==> !s.timers[k].InSet?)
      && (s.phase.Returned? && !s.refused ==>
          ((s.phase.n, s.phase.err) == s.last && !Again(s.phase.n, s.phase.err))
          || (hasTimeout && s.phase == Returned(-1, ETIMEDOUT)
              && exists k :: k in s.acted && k < |s.timers| && (s.timers[k].Flagged? || s.timers[k].Done?)))
  {
    RunKeeps(Begin(hasTimeout), steps);
    OptionKept(Begin(hasTimeout), steps);
    var s := After(Begin(hasTimeout), steps);
    if s.cancelled {
      var k :| k in s.acted;
    }
  }

  lemma {:induction false} OptionKept(s: Call, steps: seq<Action>)
    requires IsRun(s, steps)
    ensures After(s, steps).hasTimeout == s.hasTimeout
    decreases |steps|
  {
    if steps != [] { OptionKept(Step(s, steps[0]), steps[1..]); }
  }

  /** How often the run has a callback of timer `k` take this step. */
  function Times(steps: seq<Action>, a: Action): nat {
    if steps == [] then 0 else (if steps[0] == a then 1 else 0) + Times(steps[1..], a)
  }

  /** How far a timer is; no step takes it back. */
  function Stage(t: Timer): nat {
    match t case InSet => 0 case Taken => 1 case Tested => 2 case Flagged => 3 case Done => 4 case Removed => 4
  }

  /** The timer that a callback's step is about, and the stage from which it takes it on. */
  predicate TakesOn(a: Action, k: nat, stage: nat) {
    (a == Expire(k) && stage == 0) || (a == FireTest(k) && stage == 1) || (a == FireSet(k) && stage == 2)
    || (a == FireEnd(k) && stage == 3)
  }

  lemma StageKept(s: Call, a: Action, k: nat)
    requires Possible(s, a)
    ensures var t := Step(s, a); |s.timers| <= |t.timers| && (k < |s.timers| ==> Stage(s.timers[k]) <= Stage(t.timers[k]))
  {
  }

  lemma StageStep(s: Call, k: nat, own: Action, stage: nat)
    requires Possible(s, own) && TakesOn(own, k, stage)
    ensures var t := Step(s, own);
      k < |s.timers| == |t.timers| && Stage(s.timers[k]) == stage < Stage(t.timers[k])
  {
  }

  lemma {:induction false} StagesPass(s: Call, steps: seq<Action>, k: nat, own: Action, stage: nat)
    requires IsRun(s, steps) && TakesOn(own, k, stage)
    ensures Times(steps, own) <= 1
    ensures k < |s.timers| && Stage(s.timers[k]) > stage ==> Times(steps, own) == 0
    decreases |steps|
  {
    hide Step, Possible, Stage, TakesOn;
    if steps != [] {
      StageKept(s, steps[0], k);
      if steps[0] == own { StageStep(s, k, own, stage); }
      StagesPass(Step(s, steps[0]), steps[1..], k, own, stage);
    }
  }

  /** The callback of a timer is taken, tests, sets the flag and cancels the event at most once each. */
  lemma CallbacksRunOnce(hasTimeout: bool, steps: seq<Action>, k: nat)
    requires IsRun(Begin(hasTimeout), steps)
    ensures Times(steps, Expire(k)) <= 1 && Times(steps, FireTest(k)) <= 1
    ensures Times(steps, FireSet(k)) <= 1 && Times(steps, FireEnd(k)) <= 1
  {
    StagesPass(Begin(hasTimeout), steps, k, Expire(k), 0);
    StagesPass(Begin(hasTimeout), steps, k, FireTest(k), 1);
    StagesPass(Begin(hasTimeout), steps, k, FireSet(k), 2);
    StagesPass(Begin(hasTimeout), steps, k, FireEnd(k), 3);
  }

  /** A callback passes its test exactly if the call is still there and its flag is not set; else it is done. */
  lemma TestExactly(s: Call, k: nat)
    requires Possible(s, FireTest(k))
    ensures var t := Step(s, FireTest(k)).timers[k];
      (t.Tested? <==> !s.phase.Returned? && !s.cancelled) && (t.Done? <==> s.phase.Returned? || s.cancelled)
  {
  }

  /** By the end of the run, the callback of timer `k` has acted. */
  ghost predicate ActsIn(s: Call, steps: seq<Action>, k: nat) {
    IsRun(s, steps) && k in After(s, steps).acted
  }

  /** When the call has returned its answer stays, and only callbacks that acted or passed their test before ever act. */
  lemma {:induction false} AfterReturn(s: Call, steps: seq<Action>, k: nat)
    requires s.phase.Returned? && IsRun(s, steps)
    ensures After(s, steps).phase == s.phase
    ensures k in After(s, steps).acted ==> k in s.acted || (k < |s.timers| && s.timers[k].Tested?)
    decreases |steps|
  {
    if steps != [] { AfterReturn(Step(s, steps[0]), steps[1..], k); }
  }

  /** A callback can still act after the return exactly if it was past its test by then. */
  lemma LateCallback(s: Call, k: nat)
    requires s.phase.Returned?
    ensures (exists steps :: ActsIn(s, steps, k)) <==> k in s.acted || (k < |s.timers| && s.timers[k].Tested?)
  {
    if steps :| ActsIn(s, steps, k) {
      AfterReturn(s, steps, k);
    }
    if k in s.acted {
      assert ActsIn(s, [], k);
    } else if k < |s.timers| && s.timers[k].Tested? {
      var one := [FireSet(k)];
      assert one[1..] == [] && IsRun(Step(s, FireSet(k)), one[1..]);
      assert ActsIn(s, one, k);
    }
  }

  // ---- the function's answers ----

  /** The answers of the function in a run, in order. */
  function Answers(steps: seq<Action>): seq<(int, int)> {
    if steps == [] then [] else (if steps[0].Try? then [(steps[0].n, steps[0].err)] else []) + Answers(steps[1..])
  }

  /** Neither interrupted nor out of data. */
  predicate Final(a: (int, int)) {
    a.0 != -1 || (a.1 != EINTR && a.1 != EAGAIN)
  }

  predicate NoData(a: (int, int)) {
    a == (-1, EAGAIN)
  }

  function TimersMade(hasTimeout: bool, answers: seq<(int, int)>): nat {
    if answers == [] then 0 else
    (if hasTimeout && NoData(answers[0]) then 1 else 0) + TimersMade(hasTimeout, answers[1..])
  }

  /** What the answers so far mean for the call: only the last can be final, and then it is what the call returned. */
  ghost predicate Told(s: Call, answers: seq<(int, int)>) {
    && (forall k :: 0 <= k < |answers| - 1 ==> !Final(answers[k]))
    && (answers != [] ==> s.last == answers[|answers| - 1])
    && (answers != [] && Final(answers[|answers| - 1]) ==> s.phase == Returned(s.last.0, s.last.1))
    && (s.phase.Returned? && !(answers != [] && Final(answers[|answers| - 1])) ==>
        s.phase.n == -1 && (s.refused || (s.cancelled && s.phase.err == ETIMEDOUT)))
    && (s.phase.Arming? || s.phase.Waiting? || s.phase.Woken? || s.phase.Checking? ==>
        answers != [] && NoData(answers[|answers| - 1]))
    && (answers == [] ==> s.phase.Trying?)
    && |s.timers| == TimersMade(s.hasTimeout, answers)
  }

  lemma {:induction false} TimersAppend(hasTimeout: bool, answers: seq<(int, int)>, a: (int, int))
    ensures TimersMade(hasTimeout, answers + [a])
         == TimersMade(hasTimeout, answers) + if hasTimeout && NoData(a) then 1 else 0
    decreases |answers|
  {
    if answers == [] {
      assert [a][1..] == [];
      assert answers + [a] == [a];
    } else {
      assert (answers + [a])[1..] == answers[1..] + [a] && (answers + [a])[0] == answers[0];
      TimersAppend(hasTimeout, answers[1..], a);
    }
  }

  lemma StepTells(s: Call, a: Action, answers: seq<(int, int)>)
    requires Told(s, answers) && Possible(s, a)
    ensures Told(Step(s, a), answers + if a.Try? then [(a.n, a.err)] else [])
  {
    hide Told, Step, Possible;
    if a.Try? {
      TryTells(s, a.n, a.err, answers);
    } else {
      OtherTells(s, a, answers);
      assert answers + [] == answers;
    }
  }

  lemma TryTells(s: Call, n: int, err: int, answers: seq<(int, int)>)
    requires Told(s, answers) && Possible(s, Try(n, err))
    ensures Told(Step(s, Try(n, err)), answers + [(n, err)])
  {
    hide TimersMade;
    TimersAppend(s.hasTimeout, answers, (n, err));
    var all := answers + [(n, err)];
    assert all[|all| - 1] == (n, err) && forall k :: 0 <= k < |answers| ==> all[k] == answers[k];
  }

  lemma OtherTells(s: Call, a: Action, answers: seq<(int, int)>)
    requires Told(s, answers) && Possible(s, a) && !a.Try?
    ensures Told(Step(s, a), answers)
  {
    hide TimersMade, Final, NoData;
  }

  lemma {:induction false} RunTells(s: Call, steps: seq<Action>, answers: seq<(int, int)>)
    requires Told(s, answers) && IsRun(s, steps)
    ensures Told(After(s, steps), answers + Answers(steps))
    decreases |steps|
  {
    hide Told, Step, Possible;
    if steps == [] {
      assert answers + Answers(steps) == answers;
    } else {
      var a := steps[0];
      var now := answers + if a.Try? then [(a.n, a.err)] else [];
      StepTells(s, a, answers);
      RunTells(Step(s, a), steps[1..], now);
      assert now + Answers(steps[1..]) == answers + Answers(steps);
    }
  }

  /**
   Over whole runs: the call returns the function's answer as soon as it is final and asks no more; it asks again after
   EINTR and EAGAIN only, and it makes one timer for each EAGAIN if it has a timeout. Else it returns -1, for addEvent's
   refusal or as a timeout.
   */
  lemma AnswersAreTold(hasTimeout: bool, steps: seq<Action>)
    requires IsRun(Begin(hasTimeout), steps)
    ensures Told(After(Begin(hasTimeout), steps), Answers(steps))
  {
    RunTells(Begin(hasTimeout), steps, []);
    assert [] + Answers(steps) == Answers(steps);
  }

  /** Trying, in any run: a final answer is returned, EINTR tries again, EAGAIN arms with a new timer if there is a timeout. */
  lemma TryExactly(hasTimeout: bool, steps: seq<Action>, n: int, err: int)
    requires IsRun(Begin(hasTimeout), steps + [Try(n, err)])
    ensures IsRun(Begin(hasTimeout), steps)
    ensures var s, t := After(Begin(hasTimeout), steps), After(Begin(hasTimeout), steps + [Try(n, err)]);
      && s.phase.Trying? && t.cancelled == s.cancelled && t.armed == s.armed
      && (t.phase == Returned(n, err) <==> n != -1 || (err != EINTR && err != EAGAIN))
      && (t.phase.Trying? <==> n == -1 && err == EINTR)
      && (t.phase.Arming? <==> n == -1 && err == EAGAIN)
      && t.timers == s.timers + if n == -1 && err == EAGAIN && hasTimeout then [InSet] else []
  {
    RunSplit(Begin(hasTimeout), steps, [Try(n, err)]);
    OptionKept(Begin(hasTimeout), steps);
    var s := After(Begin(hasTimeout), steps);
    var one := [Try(n, err)];
    assert one[1..] == [];
    assert After(s, one) == Step(s, Try(n, err));
  }

  /** Arming, in any run: a refusal is returned and leaves no timer in the set and nothing armed, else the call waits. */
  lemma ArmExactly(hasTimeout: bool, steps: seq<Action>, ok: bool, err: int)
    requires IsRun(Begin(hasTimeout), steps + [Arm(ok, err)])
    ensures IsRun(Begin(hasTimeout), steps)
    ensures var s, t := After(Begin(hasTimeout), steps), After(Begin(hasTimeout), steps + [Arm(ok, err)]);
      && s.phase.Arming? && |t.timers| == |s.timers| && t.cancelled == s.cancelled && t.armed == ok && t.refused == !ok
      && (ok ==> t.phase.Waiting? && t.timers == s.timers)
      && (!ok ==> t.phase == Returned(-1, err) && forall k :: 0 <= k < |t.timers| ==> !t.timers[k].InSet?)
  {
    RunSplit(Begin(hasTimeout), steps, [Arm(ok, err)]);
    BeginInv(hasTimeout);
    RunKeeps(Begin(hasTimeout), steps);
    var s := After(Begin(hasTimeout), steps);
    var one := [Arm(ok, err)];
    assert one[1..] == [];
    assert After(s, one) == Step(s, Arm(ok, err));
    StepKeeps(s, Arm(ok, err));
    RunTells(Begin(hasTimeout), steps, []);
    NeverRefused(hasTimeout, steps);
  }

  /** As long as the call has not returned, no refusal came. */
  lemma NeverRefused(hasTimeout: bool, steps: seq<Action>)
    requires IsRun(Begin(hasTimeout), steps) && !After(Begin(hasTimeout), steps).phase.Returned?
    ensures !After(Begin(hasTimeout), steps).refused
  {
    RefusedReturned(Begin(hasTimeout), steps);
  }

  lemma {:induction false} RefusedReturned(s: Call, steps: seq<Action>)
    requires IsRun(s, steps) && (s.refused ==> s.phase.Returned?)
    ensures After(s, steps).refused ==> After(s, steps).phase.Returned?
    decreases |steps|
  {
    if steps != [] { RefusedReturned(Step(s, steps[0]), steps[1..]); }
  }

  lemma {:induction false} RunSplit(s: Call, a: seq<Action>, b: seq<Action>)
    requires IsRun(s, a + b)
    ensures IsRun(s, a) && IsRun(After(s, a), b) && After(s, a + b) == After(After(s, a), b)
    decreases |a|
  {
    hide Step, Possible;
    if a == [] {
      assert a + b == b;
    } else {
      assert (a + b)[1..] == a[1..] + b && (a + b)[0] == a[0];
      RunSplit(Step(s, a[0]), a[1..], b);
    }
  }

  /** A call that waits for its data and gets it, whatever it is. */
  lemma WaitsAndSucceeds(hasTimeout: bool, n: int) returns (steps: seq<Action>)
    ensures IsRun(Begin(hasTimeout), steps) && After(Begin(hasTimeout), steps).phase == Returned(n, 0)
    ensures Answers(steps) == [(-1, EAGAIN), (n, 0)]
  {
    hide IsRun, After, Answers;
    var s1 := Step(Begin(hasTimeout), Try(-1, EAGAIN));
    var s2 := Step(s1, Arm(true, 0));
    var s3 := Step(s2, Deliver);
    var s4 := Step(s3, Resume);
    var s5 := Step(s4, CancelTimer);
    var s6 := Step(s5, Check);
    var s7 := Step(s6, Try(n, 0));
    RunFirst(s7, s7, []);
    var r6 := Before(s6, s7, Try(n, 0), []);
    var r5 := Before(s5, s7, Check, r6);
    var r4 := Before(s4, s7, CancelTimer, r5);
    var r3 := Before(s3, s7, Resume, r4);
    var r2 := Before(s2, s7, Deliver, r3);
    var r1 := Before(s1, s7, Arm(true, 0), r2);
    steps := Before(Begin(hasTimeout), s7, Try(-1, EAGAIN), r1);
    NoAnswers();
  }

  lemma NoAnswers()
    ensures Answers([]) == []
  {
  }

  /** A step put before a run. */
  lemma Before(s: Call, end: Call, a: Action, rest: seq<Action>) returns (steps: seq<Action>)
    requires Possible(s, a) && IsRun(Step(s, a), rest) && After(Step(s, a), rest) == end
    ensures steps == [a] + rest && IsRun(s, steps) && After(s, steps) == end
    ensures Answers(steps) == (if a.Try? then [(a.n, a.err)] else []) + Answers(rest)
  {
    hide Step, Possible;
    steps := [a] + rest;
    assert steps[1..] == rest;
  }

  // ---- callbacks of earlier rounds ----

  /** The callback has been taken from the set and can still set the flag. */
  predicate Pending(s: Call, k: int) {
    0 <= k < |s.timers| && (s.timers[k].Taken? || s.timers[k].Tested?)
  }

  /** Whenever the call goes back to trying, no callback of its timers is pending. */
  ghost predicate Prompt(s: Call, steps: seq<Action>)
    requires IsRun(s, steps)
    decreases |steps|
  {
    steps == [] ||
    ((steps[0].Check? && !s.cancelled ==> forall k :: !Pending(s, k)) && Prompt(Step(s, steps[0]), steps[1..]))
  }

  /** No callback of an earlier round is pending or acted. */
  ghost predicate RoundsApart(s: Call) {
    && (s.phase.Trying? ==> !s.cancelled && forall k :: !Pending(s, k))
    && (forall k :: Pending(s, k) ==> k == |s.timers| - 1)
    && (forall k :: k in s.acted ==> k == |s.timers| - 1)
  }

  lemma ApartKept(s: Call, a: Action)
    requires Inv(s) && RoundsApart(s) && Possible(s, a)
    requires a.Check? && !s.cancelled ==> forall k :: !Pending(s, k)
    ensures RoundsApart(Step(s, a))
  {
    var s' := Step(s, a);
    if a.FireSet? { assert Pending(s, a.k); }
    forall k | Pending(s', k) ensures k == |s'.timers| - 1 && !s'.phase.Trying? {
      assert Pending(s, k) || (k < |s.timers| && s.timers[k].InSet?);
    }
  }

  lemma {:induction false} ApartOverRuns(s: Call, steps: seq<Action>)
    requires Inv(s) && RoundsApart(s) && IsRun(s, steps) && Prompt(s, steps)
    ensures RoundsApart(After(s, steps))
    decreases |steps|
  {
    hide Inv, Step, Possible, RoundsApart, Pending;
    if steps != [] {
      StepKeeps(s, steps[0]);
      ApartKept(s, steps[0]);
      ApartOverRuns(Step(s, steps[0]), steps[1..]);
    }
  }

  /** If no callback is pending at any retry, at most one acts, and it is that of the round in which the call waits. */
  lemma PromptCallsActOnce(hasTimeout: bool, steps: seq<Action>)
    requires IsRun(Begin(hasTimeout), steps) && Prompt(Begin(hasTimeout), steps)
    ensures var s := After(Begin(hasTimeout), steps);
      |s.acted| <= 1 && forall k :: k in s.acted ==> k == |s.timers| - 1
  {
    ApartOverRuns(Begin(hasTimeout), steps);
    var s := After(Begin(hasTimeout), steps);
    if s.acted != {} {
      assert s.acted == {|s.timers| - 1};
    }
  }

  // ---- the exact condition at a retry ----

  /** A run of one round: the call does not go back to trying. */
  ghost predicate OneRound(s: Call, steps: seq<Action>)
    requires IsRun(s, steps)
    decreases |steps|
  {
    steps == [] || ((steps[0].Check? ==> s.cancelled) && OneRound(Step(s, steps[0]), steps[1..]))
  }

  lemma {:induction false} OneRoundIsPrompt(s: Call, steps: seq<Action>)
    requires IsRun(s, steps) && OneRound(s, steps)
    ensures Prompt(s, steps)
    decreases |steps|
  {
    if steps != [] { OneRoundIsPrompt(Step(s, steps[0]), steps[1..]); }
  }

  /** The call is about to try, and nothing but pending callbacks is left of its earlier rounds. */
  predicate AtRetry(s: Call) {
    Inv(s) && s.phase.Trying? && !s.cancelled && !s.refused
  }

  /** The round ends with a timeout although its own timer did not expire. */
  ghost predicate StaleTimeout(s: Call, t: Call) {
    && t.phase == Returned(-1, ETIMEDOUT) && Again(t.last.0, t.last.1) && |t.timers| == |s.timers| + 1
    && t.timers[|s.timers|].Removed? && exists k :: k in t.acted && k < |s.timers|
  }

  /** Two callbacks act in the round. */
  ghost predicate TwoAct(t: Call) {
    exists j, k :: j in t.acted && k in t.acted && j != k
  }

  /** The step that follows on another. */
  lemma StepFirst(s: Call, end: Call, steps: seq<Action>)
    requires if steps == [] then end == s else
             && Possible(s, steps[0]) && (steps[0].Check? ==> s.cancelled) && IsRun(Step(s, steps[0]), steps[1..])
             && OneRound(Step(s, steps[0]), steps[1..]) && After(Step(s, steps[0]), steps[1..]) == end
    ensures IsRun(s, steps) && OneRound(s, steps) && After(s, steps) == end
  {
  }

  /** The next wait begins. */
  function Waits(s: Call): Call {
    s.(phase := Waiting, armed := true, last := (-1, EAGAIN), timers := if s.hasTimeout then s.timers + [InSet] else s.timers)
  }

  lemma WaitsIs(s: Call, end: Call, steps: seq<Action>)
    requires s.phase.Trying? && IsRun(Waits(s), steps) && OneRound(Waits(s), steps) && After(Waits(s), steps) == end
    ensures var all := [Try(-1, EAGAIN), Arm(true, 0)] + steps; IsRun(s, all) && OneRound(s, all) && After(s, all) == end
  {
    var rest := [Arm(true, 0)] + steps;
    var armed := Step(s, Try(-1, EAGAIN));
    assert rest[1..] == steps;
    StepFirst(armed, end, rest);
    var all := [Try(-1, EAGAIN), Arm(true, 0)] + steps;
    assert all[1..] == rest;
    StepFirst(s, end, all);
  }

  /** A callback past its test sets the flag, wakes the call, and the call ends. */
  lemma TestedEnds(s: Call, k: nat) returns (end: Call, steps: seq<Action>)
    requires s.phase.Waiting? && k + 1 < |s.timers| && s.timers[k].Tested? && s.timers[|s.timers| - 1].InSet?
    ensures steps == [FireSet(k), FireEnd(k), Resume, CancelTimer, Check]
    ensures IsRun(s, steps) && OneRound(s, steps) && After(s, steps) == end
    ensures end.phase == Returned(-1, ETIMEDOUT) && end.last == s.last && k in end.acted && |end.timers| == |s.timers|
    ensures end.timers[|s.timers| - 1].Removed?
  {
    hide IsRun, OneRound, After;
    var s2 := Step(s, FireSet(k));
    var s3 := Step(s2, FireEnd(k));
    var s4 := Step(s3, Resume);
    var s5 := Step(s4, CancelTimer);
    end := Step(s5, Check);
    StepFirst(end, end, []);
    StepFirst(s5, end, [Check]);
    StepFirst(s4, end, [CancelTimer, Check]);
    StepFirst(s3, end, [Resume, CancelTimer, Check]);
    StepFirst(s2, end, [FireEnd(k), Resume, CancelTimer, Check]);
    steps := [FireSet(k), FireEnd(k), Resume, CancelTimer, Check];
    StepFirst(s, end, steps);
  }

  /** From the wait, the pending callback of timer `k` ends the call. */
  lemma StaleEnds(s: Call, k: nat) returns (steps: seq<Action>)
    requires AtRetry(s) && Pending(s, k)
    ensures IsRun(Waits(s), steps) && OneRound(Waits(s), steps) && StaleTimeout(s, After(Waits(s), steps))
  {
    hide IsRun, OneRound, After;
    var w := Waits(s);
    var s1 := if s.timers[k].Taken? then Step(w, FireTest(k)) else w;
    var end, rest := TestedEnds(s1, k);
    steps := rest;
    if s.timers[k].Taken? {
      steps := [FireTest(k)] + rest;
      assert steps[1..] == rest;
      StepFirst(w, end, steps);
    }
  }

  /** From the wait, the pending callback of timer `k` and that of the new timer both pass the test and act. */
  lemma BothAct(s: Call, k: nat) returns (steps: seq<Action>)
    requires AtRetry(s) && Pending(s, k)
    ensures IsRun(Waits(s), steps) && OneRound(Waits(s), steps) && TwoAct(After(Waits(s), steps))
  {
    hide IsRun, OneRound, After;
    var w, n := Waits(s), |s.timers|;
    var s1 := if s.timers[k].Taken? then Step(w, FireTest(k)) else w;
    var s2 := Step(s1, Expire(n));
    var s3 := Step(s2, FireTest(n));
    var s4 := Step(s3, FireSet(k));
    var s5 := Step(s4, FireSet(n));
    StepFirst(s5, s5, []);
    StepFirst(s4, s5, [FireSet(n)]);
    StepFirst(s3, s5, [FireSet(k), FireSet(n)]);
    StepFirst(s2, s5, [FireTest(n), FireSet(k), FireSet(n)]);
    steps := [Expire(n), FireTest(n), FireSet(k), FireSet(n)];
    StepFirst(s1, s5, steps);
    if s.timers[k].Taken? {
      steps := [FireTest(k), Expire(n), FireTest(n), FireSet(k), FireSet(n)];
      StepFirst(w, s5, steps);
    }
    assert k in s5.acted && n in s5.acted;
  }

  /** A run of the round that ends so. */
  ghost predicate EndsStale(s: Call, steps: seq<Action>) {
    IsRun(s, steps) && OneRound(s, steps) && StaleTimeout(s, After(s, steps))
  }

  ghost predicate EndsWithTwo(s: Call, steps: seq<Action>) {
    IsRun(s, steps) && OneRound(s, steps) && TwoAct(After(s, steps))
  }

  /**
   Where the call tries again, the coming wait can be ended by a timer that is not its own, and two callbacks can act
   in it, exactly when the callback of an earlier timer is still pending.
   */
  lemma StaleExactly(s: Call)
    requires AtRetry(s)
    ensures (exists steps :: EndsStale(s, steps)) <==> exists k: nat :: Pending(s, k)
    ensures (exists steps :: EndsWithTwo(s, steps)) <==> exists k: nat :: Pending(s, k)
  {
    if k: nat :| Pending(s, k) {
      var stale := StaleEnds(s, k);
      WaitsIs(s, After(Waits(s), stale), stale);
      assert EndsStale(s, [Try(-1, EAGAIN), Arm(true, 0)] + stale);
      var both := BothAct(s, k);
      WaitsIs(s, After(Waits(s), both), both);
      assert EndsWithTwo(s, [Try(-1, EAGAIN), Arm(true, 0)] + both);
    } else {
      assert RoundsApart(s) by { assert forall k :: Pending(s, k) ==> k >= 0; }
      forall steps | IsRun(s, steps) && OneRound(s, steps) ensures !EndsStale(s, steps) && !EndsWithTwo(s, steps) {
        OneRoundIsPrompt(s, steps);
        ApartOverRuns(s, steps);
      }
    }
  }

  /** A call with a pending callback at its retry: the event came first, and the expired timer's callback is late. */
  lemma RetryWithPending() returns (steps: seq<Action>)
    ensures IsRun(Begin(true), steps) && AtRetry(After(Begin(true), steps)) && Pending(After(Begin(true), steps), 0)
    ensures |After(Begin(true), steps).timers| == 1
  {
    hide IsRun, After, Inv;
    var s0 := Begin(true);
    var s1 := Step(s0, Try(-1, EAGAIN));
    var s2 := Step(s1, Arm(true, 0));
    var s3 := Step(s2, Expire(0));
    var s4 := Step(s3, Deliver);
    var s5 := Step(s4, Resume);
    var s6 := Step(s5, CancelTimer);
    var s7 := Step(s6, Check);
    RunFirst(s7, s7, []);
    RunFirst(s6, s7, [Check]);
    RunFirst(s5, s7, [CancelTimer, Check]);
    RunFirst(s4, s7, [Resume, CancelTimer, Check]);
    RunFirst(s3, s7, [Deliver, Resume, CancelTimer, Check]);
    RunFirst(s2, s7, [Expire(0), Deliver, Resume, CancelTimer, Check]);
    RunFirst(s1, s7, [Arm(true, 0), Expire(0), Deliver, Resume, CancelTimer, Check]);
    steps := [Try(-1, EAGAIN), Arm(true, 0), Expire(0), Deliver, Resume, CancelTimer, Check];
    RunFirst(s0, s7, steps);
    BeginInv(true);
    RunKeeps(s0, steps);
  }

  lemma {:induction false} RunAppend(s: Call, a: seq<Action>, b: seq<Action>)
    requires IsRun(s, a) && IsRun(After(s, a), b)
    ensures IsRun(s, a + b) && After(s, a + b) == After(After(s, a), b)
    decreases |a|
  {
    hide Step, Possible;
    if a == [] {
      assert a + b == b;
    } else {
      RunAppend(Step(s, a[0]), a[1..], b);
      assert (a + b)[1..] == a[1..] + b;
    }
  }

  /** From the first call on, two callbacks of one call can act, and a timer of an earlier round can end the wait. */
  lemma TwoCallbacksAct() returns (two: seq<Action>, stale: seq<Action>)
    ensures IsRun(Begin(true), two) && TwoAct(After(Begin(true), two))
    ensures IsRun(Begin(true), stale) && After(Begin(true), stale).phase == Returned(-1, ETIMEDOUT)
    ensures var s := After(Begin(true), stale); |s.timers| == 2 && s.timers[1].Removed? && 0 in s.acted
  {
    hide IsRun, After, Step, Possible, Inv;
    var first := RetryWithPending();
    var s := After(Begin(true), first);
    StaleExactly(s);
    var both :| EndsWithTwo(s, both);
    RunAppend(Begin(true), first, both);
    var late :| EndsStale(s, late);
    RunAppend(Begin(true), first, late);
    two, stale := first + both, first + late;
  }

  lemma BeginInv(hasTimeout: bool)
    ensures Inv(Begin(hasTimeout))
  {
  }

  lemma RunFirst(s: Call, end: Call, steps: seq<Action>)
    requires if steps == [] then end == s else
             && Possible(s, steps[0]) && IsRun(Step(s, steps[0]), steps[1..]) && After(Step(s, steps[0]), steps[1..]) == end
    ensures IsRun(s, steps) && After(s, steps) == end
  {
  }
}
