/** What TimerManager's critical sections do to the set of timers, and what holds over every run of them. */
module TimerModel {
  import opened Sums
  import opened Wrappers

  const U64: nat := 0x1_0000_0000_0000_0000
  const ONE_HOUR: nat := 60 * 60 * 1000
  const NEVER: nat := U64 - 1

  /** Unsigned 64-bit arithmetic wraps around. */
  function Add64(a: nat, b: nat): nat {
    (a + b) % U64
  }

  function Sub64(a: nat, b: nat): nat {
    (a - b) % U64
  }

  datatype Timer = Timer(recurring: bool, ms: nat, next: nat, cb: Option<nat>)

  /** `pending` are the timers in the manager's set; `notified` counts the calls of onTimerInsertedAtFront. */
  datatype Timers = Timers(
    recs: map<nat, Timer>, pending: set<nat>, tickled: bool, previous: nat, notified: nat)

  predicate WellFormed(s: Timers) {
    s.pending <= s.recs.Keys
  }

  /** The set's order: by deadline, then by address. */
  predicate Before(recs: map<nat, Timer>, a: nat, b: nat)
    requires a in recs && b in recs
  {
    recs[a].next < recs[b].next || (recs[a].next == recs[b].next && a < b)
  }

  predicate IsFront(s: Timers, id: nat)
    requires WellFormed(s) && id in s.recs
  {
    forall i :: i in s.pending && i != id ==> Before(s.recs, id, i)
  }

  /** TimerManager::addTimer on a timer that is not in the set. */
  function Insert(s: Timers, id: nat): Timers
    requires WellFormed(s) && id in s.recs
  {
    var s' := s.(pending := s.pending + {id});
    if IsFront(s', id) && !s.tickled then s'.(tickled := true, notified := s.notified + 1) else s'
  }

  /** `start` is the clock when the timer object was made. */
  function Add(s: Timers, id: nat, start: nat, ms: nat, cb: Option<nat>, recurring: bool): Timers
    requires WellFormed(s)
  {
    Insert(s.(recs := s.recs[id := Timer(recurring, ms, Add64(start, ms), cb)]), id)
  }

  predicate Live(s: Timers, id: nat) {
    id in s.recs && s.recs[id].cb.Some?
  }

  function Cancel(s: Timers, id: nat): Timers {
    if !Live(s, id) then s else
    s.(recs := s.recs[id := s.recs[id].(cb := None)], pending := s.pending - {id})
  }

  /** The callback is dropped and not restored; the set is not asked whether the timer is at its front. */
  function Refresh(s: Timers, id: nat, now: nat): Timers {
    if !Live(s, id) then s else
    var t := s.recs[id];
    s.(recs := s.recs[id := t.(cb := None, next := Add64(now, t.ms))])
  }

  function Reset(s: Timers, id: nat, now: nat, ms: nat, fromNow: bool): Timers
    requires WellFormed(s)
  {
    if !Live(s, id) then s else
    var t := s.recs[id];
    if ms == t.ms && !fromNow then s else
    var start := if fromNow then now else Sub64(t.next, t.ms);
    Insert(s.(recs := s.recs[id := t.(cb := None, ms := ms, next := Add64(start, ms))], pending := s.pending - {id}), id)
  }

  /** The clock jumped back by more than an hour; the subtraction wraps when the last reading was within the first. */
  predicate RolledOver(s: Timers, now: nat) {
    now < s.previous && now < Sub64(s.previous, ONE_HOUR)
  }

  /** For a last reading within the first hour of the clock's range, any step back counts as a rollover. */
  lemma RollsOverExactly(s: Timers, now: nat)
    requires s.previous < U64
    ensures RolledOver(s, now) <==> now < s.previous && (s.previous < ONE_HOUR || now + ONE_HOUR < s.previous)
  {
  }

  function Due(s: Timers, now: nat): set<nat>
    requires WellFormed(s)
  {
    if RolledOver(s, now) then s.pending else set i | i in s.pending && s.recs[i].next <= now
  }

  /** What becomes of an expired timer. */
  function Fired(t: Timer, now: nat): Timer {
    if t.recurring then t.(next := Add64(now, t.ms)) else t.(cb := None)
  }

  /** The second critical section of listExpiredCb, which takes for granted that there is a timer. */
  function Expire(s: Timers, now: nat): Timers
    requires WellFormed(s)
  {
    var due := Due(s, now);
    s.(recs := (map i | i in s.recs :: if i in due then Fired(s.recs[i], now) else s.recs[i]),
       pending := (set i | i in s.pending && (i in due ==> s.recs[i].recurring)),
       previous := now)
  }

  /** The timer is due at the reading: its time has come, or the reading looks like a rollover. */
  predicate IsDue(s: Timers, i: nat, now: nat)
    requires i in s.recs
  {
    s.recs[i].next <= now || (now < s.previous && now < Sub64(s.previous, ONE_HOUR))
  }

  /**
   Expiry timer by timer: a due one goes on at the reading plus its interval and stays if it recurs, and else leaves the
   set without its callback; every other stays as it is.
   */
  lemma ExpireExactly(s: Timers, now: nat, i: nat)
    requires WellFormed(s) && i in s.recs
    ensures var s', t := Expire(s, now), s.recs[i];
      && i in s'.recs && s'.recs.Keys == s.recs.Keys && s'.previous == now
      && s'.tickled == s.tickled && s'.notified == s.notified
      && (if i in s.pending && IsDue(s, i, now) then
            if t.recurring then s'.recs[i] == Timer(true, t.ms, (now + t.ms) % U64, t.cb) && i in s'.pending
            else s'.recs[i] == Timer(false, t.ms, t.next, None) && i !in s'.pending
          else s'.recs[i] == t && (i in s'.pending <==> i in s.pending))
  {
  }

  /** Cancelling takes an armed timer out of the set with its callback, and touches nothing else. */
  lemma CancelExactly(s: Timers, id: nat)
    ensures var s' := Cancel(s, id);
      if id in s.recs && s.recs[id].cb.Some? then
        && s' == s.(recs := s'.recs, pending := s.pending - {id}) && s'.recs.Keys == s.recs.Keys
        && s'.recs[id] == Timer(s.recs[id].recurring, s.recs[id].ms, s.recs[id].next, None)
        && forall i :: i in s.recs && i != id ==> s'.recs[i] == s.recs[i]
      else s' == s
  {
  }

  lemma NothingDue(s: Timers, now: nat)
    requires Findable(s) && Due(s, now) == {}
    ensures Expire(s, now) == s.(previous := now)
  {
    assert Expire(s, now).recs == s.recs;
    assert Expire(s, now).pending == s.pending;
  }

  /** The given timers, which were not in the set, fire; nothing else changes. */
  ghost predicate FiredIn(s: Timers, ids: set<nat>, now: nat, s': Timers) {
    && WellFormed(s') && s'.recs.Keys == s.recs.Keys
    && (forall i :: i in s.recs ==> s'.recs[i] == if i in ids then Fired(s.recs[i], now) else s.recs[i])
    && (forall i :: i in s.recs ==> (i in s'.pending <==> if i in ids then s.recs[i].recurring else i in s.pending))
    && s'.tickled == s.tickled && s'.previous == s.previous && s'.notified == s.notified
  }

  /** Taking out the timers that are due and firing them is expiry. */
  lemma ExpireIs(s: Timers, now: nat, s': Timers)
    requires Findable(s)
    requires var due := Due(s, now); FiredIn(s.(previous := now, pending := s.pending - due), due, now, s')
    ensures s' == Expire(s, now) && Findable(s')
  {
    assert s'.recs == Expire(s, now).recs;
    assert s'.pending == Expire(s, now).pending;
  }

  // ---- runs ----

  /**
   addTimer reads the clock before it locks. listExpiredCb also does, looks for a timer under one lock (CheckStep)
   and expires under another (ExpireStep).
   */
  datatype Step =
    | AddStep(id: nat, start: nat, ms: nat, cb: Option<nat>, recurring: bool)
    | CancelStep(id: nat)
    | RefreshStep(id: nat)
    | ResetStep(id: nat, ms: nat, fromNow: bool)
    | NextStep
    | CheckStep(at: nat)
    | ExpireStep(at: nat)

  /**
   The timers, the clock, the callbacks delivered and returned-true cancels so far, and the last report of
   getNextTimer: the front deadline then (None when there was no timer) and the notifications until then.
   `checked` are the clock readings of expiries between their two locks; `astray` says that an expiry looked at the
   front of an empty set.
   */
  datatype World = World(s: Timers, clock: nat, deadline: Option<nat>, reported: nat,
                         delivered: seq<nat>, cancelled: seq<nat>, checked: multiset<nat>, astray: bool)

  function Owed(s: Timers, now: nat, id: nat): nat
    requires WellFormed(s)
  {
    if id in Due(s, now) && s.recs[id].cb.Some? then 1 else 0
  }

  /** The expired timers that still own a callback, each once, in some order. */
  ghost predicate Delivers(s: Timers, now: nat, ids: seq<nat>)
    requires WellFormed(s)
  {
    forall i :: Count(ids, Same, i) == Owed(s, now, i)
  }

  function Same(a: nat, b: nat): nat {
    if a == b then 1 else 0
  }

  ghost predicate IsDeadline(s: Timers, d: Option<nat>)
    requires WellFormed(s)
  {
    match d
    case None => s.pending == {}
    case Some(n) => exists i :: i in s.pending && s.recs[i].next == n && forall j :: j in s.pending ==> n <= s.recs[j].next
  }

  /** One step at clock `now`; ids of new timers are new addresses. Nothing is said of a run that went astray. */
  ghost predicate Next(w: World, a: Step, now: nat, w': World) {
    && WellFormed(w.s) && w'.clock == now && !w.astray
    && (!a.ExpireStep? ==> !w'.astray && (!a.CheckStep? ==> w'.checked == w.checked))
    && (!a.NextStep? ==> w'.deadline == w.deadline && w'.reported == w.reported)
    && (!a.ExpireStep? ==> w'.delivered == w.delivered)
    && (!a.CancelStep? ==> w'.cancelled == w.cancelled)
    && match a
       case AddStep(id, start, ms, cb, recurring) =>
         id !in w.s.recs && w'.s == Add(w.s, id, start, ms, cb, recurring)
       case CancelStep(id) =>
         w'.s == Cancel(w.s, id) && w'.cancelled == if Live(w.s, id) then w.cancelled + [id] else w.cancelled
       case RefreshStep(id) => w'.s == Refresh(w.s, id, now)
       case ResetStep(id, ms, fromNow) => w'.s == Reset(w.s, id, now, ms, fromNow)
       case NextStep => w'.s == w.s.(tickled := false) && w'.reported == w.s.notified && IsDeadline(w.s, w'.deadline)
       case CheckStep(at) => w.s.pending != {} && w'.s == w.s && w'.checked == w.checked + multiset{at}
       case ExpireStep(at) =>
         && at in w.checked && w'.checked == w.checked - multiset{at}
         && w'.s == Expire(w.s, at) && w'.astray == (w.s.pending == {} && !RolledOver(w.s, at))
         && exists ids :: w'.delivered == w.delivered + ids && Delivers(w.s, at, ids)
  }

  /** Every armed timer is in the set, so that cancelling finds it. */
  predicate Findable(s: Timers) {
    WellFormed(s) && forall i :: i in s.recs && s.recs[i].cb.Some? ==> i in s.pending
  }

  /** No pending timer but possibly `id` itself orders before deadline `next` at address `id`. */
  predicate First(s: Timers, id: nat, next: nat)
    requires WellFormed(s)
  {
    forall i :: i in s.pending && i != id ==> next < s.recs[i].next || (next == s.recs[i].next && id < i)
  }

  /** The flag went up and one notification was made if it was down and `first` holds; else neither changed. */
  predicate NotifiedIf(s: Timers, s': Timers, first: bool) {
    && s'.notified == s.notified + (if first && !s.tickled then 1 else 0)
    && (s'.tickled <==> s.tickled || first)
  }

  lemma InsertNotifiesExactly(s: Timers, id: nat)
    requires WellFormed(s) && id in s.recs && id !in s.pending
    ensures NotifiedIf(s, Insert(s, id), First(s, id, s.recs[id].next))
  {
  }

  /** Adding a timer notifies exactly if it became the first and no notification is outstanding. */
  lemma AddNotifiesExactly(s: Timers, id: nat, start: nat, ms: nat, cb: Option<nat>, recurring: bool)
    requires WellFormed(s) && id !in s.recs
    ensures var s' := Add(s, id, start, ms, cb, recurring);
      && NotifiedIf(s, s', First(s, id, Add64(start, ms)))
      && s'.pending == s.pending + {id} && s'.previous == s.previous
      && s'.recs == s.recs[id := Timer(recurring, ms, Add64(start, ms), cb)]
  {
    hide Add64;
  }

  /** So does resetting it to something new; resetting it to what it is, or when it is disarmed, changes nothing. */
  lemma ResetNotifiesExactly(s: Timers, id: nat, now: nat, ms: nat, fromNow: bool)
    requires Findable(s)
    ensures var s' := Reset(s, id, now, ms, fromNow);
      if Live(s, id) && (ms != s.recs[id].ms || fromNow) then
        var next := Add64(if fromNow then now else Sub64(s.recs[id].next, s.recs[id].ms), ms);
        && NotifiedIf(s, s', First(s, id, next)) && s'.pending == s.pending && s'.previous == s.previous
        && s'.recs == s.recs[id := Timer(s.recs[id].recurring, ms, next, None)]
      else s' == s
  {
    hide Add64, Sub64;
    if Live(s, id) { assert s.pending - {id} + {id} == s.pending; }
  }

  /** Refreshing never notifies. */
  lemma RefreshIs(s: Timers, id: nat, now: nat)
    requires Findable(s)
    ensures var s' := Refresh(s, id, now);
      && s'.pending == s.pending && s'.tickled == s.tickled && s'.notified == s.notified && s'.previous == s.previous
      && s'.recs == if Live(s, id)
                    then s.recs[id := Timer(s.recs[id].recurring, s.recs[id].ms, Add64(now, s.recs[id].ms), None)] else s.recs
  {
    hide Add64;
  }

  lemma FindableFits(s: Timers)
    requires Findable(s)
    ensures WellFormed(s)
  {
  }

  /** Resetting a timer is cancelling it, changing its keys and inserting it again. */
  lemma ResetInSteps(s: Timers, id: nat, now: nat, ms: nat, fromNow: bool)
    requires Findable(s) && Live(s, id) && !(ms == s.recs[id].ms && !fromNow)
    ensures var c := Cancel(s, id);
      var start := if fromNow then now else Sub64(s.recs[id].next, s.recs[id].ms);
      var k := c.(recs := c.recs[id := c.recs[id].(ms := ms, next := Add64(start, ms))]);
      WellFormed(k) && Reset(s, id, now, ms, fromNow) == Insert(k, id)
  {
    var start := if fromNow then now else Sub64(s.recs[id].next, s.recs[id].ms);
    var t := s.recs[id].(cb := None, ms := ms, next := Add64(start, ms));
    assert s.recs[id := s.recs[id].(cb := None)][id := t] == s.recs[id := t];
  }

  /** Refreshing an armed timer is cancelling it, changing its deadline and putting it back; it stays findable. */
  lemma RefreshInSteps(s: Timers, id: nat, now: nat)
    requires Findable(s)
    ensures Findable(Refresh(s, id, now))
    ensures !Live(s, id) ==> Refresh(s, id, now) == s
    ensures Live(s, id) ==>
      (var c := Cancel(s, id);
       var next := Add64(now, s.recs[id].ms);
       Refresh(s, id, now) == c.(recs := c.recs[id := c.recs[id].(next := next)], pending := c.pending + {id}))
  {
    if Live(s, id) {
      var next := Add64(now, s.recs[id].ms);
      assert Cancel(s, id).recs[id := s.recs[id].(cb := None, next := next)]
          == s.recs[id := s.recs[id].(cb := None, next := next)];
      assert s.pending - {id} + {id} == s.pending;
    }
  }

  lemma ResetFindable(s: Timers, id: nat, now: nat, ms: nat, fromNow: bool)
    requires Findable(s)
    ensures Findable(Reset(s, id, now, ms, fromNow))
  {
  }

  lemma FindableKept(w: World, a: Step, now: nat, w': World)
    requires Findable(w.s) && Next(w, a, now, w')
    ensures Findable(w'.s)
  {
  }

  // ---- each callback is delivered as often as it should be, and never after a cancel ----

  /** Deliveries and successful cancels of one timer; an armed timer can still have one of them. */
  ghost predicate OnceOk(w: World, id: nat) {
    var delivered, cancelled := Count(w.delivered, Same, id), Count(w.cancelled, Same, id);
    if id !in w.s.recs then delivered == 0 && cancelled == 0 else
    var armed := if w.s.recs[id].cb.Some? then 1 else 0;
    cancelled + armed <= 1 && (!w.s.recs[id].recurring ==> delivered + cancelled + armed <= 1)
  }

  lemma OnceKept(w: World, a: Step, now: nat, w': World, id: nat)
    requires Findable(w.s) && Next(w, a, now, w') && OnceOk(w, id)
    ensures OnceOk(w', id)
  {
    match a {
      case CancelStep(other) => CountAppend(w.cancelled, other, Same, id);
      case ExpireStep(at) =>
        var ids :| w'.delivered == w.delivered + ids && Delivers(w.s, at, ids);
        CountConcat(w.delivered, ids, Same, id);
      case _ =>
    }
  }

  /** A timer that lost its callback delivers nothing more: not by expiring, and not by another cancel. */
  lemma DisarmedStays(w: World, a: Step, now: nat, w': World, id: nat)
    requires Findable(w.s) && Next(w, a, now, w') && id in w.s.recs && w.s.recs[id].cb.None?
    ensures id in w'.s.recs && w'.s.recs[id].cb.None?
    ensures Count(w'.delivered, Same, id) == Count(w.delivered, Same, id)
    ensures Count(w'.cancelled, Same, id) == Count(w.cancelled, Same, id)
  {
    match a {
      case CancelStep(other) => CountAppend(w.cancelled, other, Same, id);
      case ExpireStep(at) =>
        var ids :| w'.delivered == w.delivered + ids && Delivers(w.s, at, ids);
        CountConcat(w.delivered, ids, Same, id);
      case _ =>
    }
  }

  /** refresh, and reset with a new interval, leave a timer in the set without its callback. */
  lemma RefreshDisarms(s: Timers, id: nat, now: nat, ms: nat, fromNow: bool)
    requires Findable(s) && Live(s, id)
    ensures var r := Refresh(s, id, now);
      id in r.pending && !Live(r, id) && r.recs[id].next == Add64(now, s.recs[id].ms)
    ensures var r := Reset(s, id, now, ms, fromNow);
      id in r.pending && (Live(r, id) <==> ms == s.recs[id].ms && !fromNow)
  {
  }

  // ---- a front insertion is never missed ----

  /** The sums of 64-bit clock readings and intervals stay below the wrap-around. */
  predicate NoOverflow(s: Timers, a: Step, now: nat) {
    && (forall i :: i in s.recs ==> now + s.recs[i].ms < U64)
    && (a.AddStep? ==> now + a.ms < U64)
    && (a.ResetStep? ==> now + a.ms < U64)
  }

  /** Every timer was started at a time that has passed. */
  predicate Started(s: Timers, clock: nat) {
    forall i :: i in s.recs ==> s.recs[i].ms <= s.recs[i].next <= clock + s.recs[i].ms
  }

  predicate NoneEarlier(s: Timers, d: Option<nat>)
    requires WellFormed(s)
  {
    match d
    case None => s.pending == {}
    case Some(n) => forall i :: i in s.pending ==> n <= s.recs[i].next
  }

  /**
   Whoever sleeps until the reported deadline misses nothing: no timer is due earlier, or the tickled flag is set
   and the notification was made since the report.
   */
  predicate Watched(s: Timers, clock: nat, d: Option<nat>, reported: nat) {
    && WellFormed(s) && Started(s, clock) && s.notified >= reported
    && (s.tickled ==> s.notified > reported)
    && (s.tickled || NoneEarlier(s, d))
  }

  ghost predicate FrontOk(w: World) {
    && Findable(w.s) && Watched(w.s, w.clock, w.deadline, w.reported) && w.clock < U64
    && (forall at :: at in w.checked ==> at <= w.clock)
  }

  lemma InsertWatched(s: Timers, id: nat, clock: nat, d: Option<nat>, reported: nat)
    requires id in s.recs && id !in s.pending && Watched(s, clock, d, reported)
    ensures Watched(Insert(s, id), clock, d, reported)
  {
    var s' := s.(pending := s.pending + {id});
    if !s.tickled && !IsFront(s', id) {
      var i :| i in s'.pending && i != id && !Before(s'.recs, id, i);
      assert i in s.pending;
    }
  }

  lemma SubUndoesAdd(next: nat, ms: nat)
    requires ms <= next < U64
    ensures Sub64(next, ms) == next - ms
  {
  }

  lemma AddSmall(a: nat, b: nat)
    requires a + b < U64
    ensures Add64(a, b) == a + b
  {
  }

  /**
   The clock does not run backwards, readings taken before a lock are not in the future, and none is so old that it
   looks like a rollover.
   */
  predicate Forward(w: World, a: Step, now: nat) {
    && w.clock <= now < U64 && NoOverflow(w.s, a, now)
    && (a.AddStep? ==> a.start <= now)
    && (a.CheckStep? ==> a.at <= now)
    && (a.ExpireStep? ==> !RolledOver(w.s, a.at))
  }

  /** A reading within an hour of the last one is not taken for a rollover once the clock is past its first hour. */
  lemma RecentReading(s: Timers, at: nat)
    requires ONE_HOUR <= s.previous < U64 && s.previous <= at + ONE_HOUR
    ensures !RolledOver(s, at)
  {
    RollsOverExactly(s, at);
  }

  lemma AddWatched(s: Timers, a: Step, now: nat, d: Option<nat>, reported: nat)
    requires a.AddStep? && a.id !in s.recs && a.start <= now && NoOverflow(s, a, now) && Watched(s, now, d, reported)
    ensures Watched(Add(s, a.id, a.start, a.ms, a.cb, a.recurring), now, d, reported)
  {
    hide Insert, Add64;
    AddSmall(a.start, a.ms);
    InsertWatched(s.(recs := s.recs[a.id := Timer(a.recurring, a.ms, a.start + a.ms, a.cb)]), a.id, now, d, reported);
  }

  lemma CancelWatched(s: Timers, id: nat, now: nat, d: Option<nat>, reported: nat)
    requires Watched(s, now, d, reported)
    ensures Watched(Cancel(s, id), now, d, reported)
  {
  }

  lemma RefreshWatched(s: Timers, id: nat, now: nat, d: Option<nat>, reported: nat)
    requires Watched(s, now, d, reported) && NoOverflow(s, RefreshStep(id), now)
    ensures Watched(Refresh(s, id, now), now, d, reported)
  {
    hide Add64;
    if Live(s, id) { AddSmall(now, s.recs[id].ms); }
  }

  lemma ResetWatched(s: Timers, a: Step, now: nat, d: Option<nat>, reported: nat)
    requires a.ResetStep? && Watched(s, now, d, reported) && NoOverflow(s, a, now)
    ensures Watched(Reset(s, a.id, now, a.ms, a.fromNow), now, d, reported)
  {
    hide Insert, Add64, Sub64;
    if Live(s, a.id) {
      var t := s.recs[a.id];
      SubUndoesAdd(t.next, t.ms);
      var start := if a.fromNow then now else t.next - t.ms;
      AddSmall(start, a.ms);
      InsertWatched(s.(recs := s.recs[a.id := t.(cb := None, ms := a.ms, next := start + a.ms)],
                       pending := s.pending - {a.id}), a.id, now, d, reported);
    }
  }

  lemma ExpireWatched(s: Timers, at: nat, now: nat, d: Option<nat>, reported: nat)
    requires Watched(s, now, d, reported) && NoOverflow(s, ExpireStep(at), now) && at <= now && !RolledOver(s, at)
    ensures Watched(Expire(s, at), now, d, reported)
  {
    hide Add64;
    forall i | i in s.recs ensures Add64(at, s.recs[i].ms) == at + s.recs[i].ms {
      AddSmall(at, s.recs[i].ms);
    }
  }

  lemma ReportWatched(s: Timers, now: nat, d: Option<nat>, reported: nat, d': Option<nat>)
    requires Watched(s, now, d, reported) && IsDeadline(s, d')
    ensures Watched(s.(tickled := false), now, d', s.notified)
  {
  }

  lemma ClockWatched(s: Timers, clock: nat, now: nat, d: Option<nat>, reported: nat)
    requires Watched(s, clock, d, reported) && clock <= now
    ensures Watched(s, now, d, reported)
  {
  }

  /** Every step taken at a clock that does not run backwards keeps the watch. */
  lemma FrontKept(w: World, a: Step, now: nat, w': World)
    requires FrontOk(w) && Next(w, a, now, w') && Forward(w, a, now)
    ensures FrontOk(w')
  {
    hide Watched, Add, Cancel, Refresh, Reset, Expire, Delivers, RolledOver, NoOverflow, IsDeadline;
    FindableKept(w, a, now, w');
    ClockWatched(w.s, w.clock, now, w.deadline, w.reported);
    match a {
      case AddStep(_, _, _, _, _) =>
        AddWatched(w.s, a, now, w.deadline, w.reported);
      case CancelStep(id) => CancelWatched(w.s, id, now, w.deadline, w.reported);
      case RefreshStep(id) => RefreshWatched(w.s, id, now, w.deadline, w.reported);
      case ResetStep(_, _, _) => ResetWatched(w.s, a, now, w.deadline, w.reported);
      case NextStep => ReportWatched(w.s, now, w.deadline, w.reported, w'.deadline);
      case CheckStep(at) =>
      case ExpireStep(at) => ExpireWatched(w.s, at, now, w.deadline, w.reported);
    }
  }

  /** A new manager at clock `now`. */
  predicate NewWorld(w: World) {
    w == World(Timers(map[], {}, false, w.clock, 0), w.clock, None, 0, [], [], multiset{}, false) && w.clock < U64
  }

  /** A run with its clock readings. */
  ghost predicate IsRun(ws: seq<World>, steps: seq<Step>) {
    && |ws| == |steps| + 1 && NewWorld(ws[0])
    && forall k :: 0 <= k < |steps| ==> Next(ws[k], steps[k], ws[k + 1].clock, ws[k + 1])
  }

  /** Over any run, armed timers can be found, a timer is cancelled at most once, and a one-shot delivered at most once. */
  lemma {:induction false} TimersOverRuns(ws: seq<World>, steps: seq<Step>, id: nat)
    requires IsRun(ws, steps)
    ensures Findable(ws[|steps|].s) && OnceOk(ws[|steps|], id)
    decreases |steps|
  {
    if steps != [] {
      var n := |steps| - 1;
      assert IsRun(ws[..n + 1], steps[..n]);
      TimersOverRuns(ws[..n + 1], steps[..n], id);
      FindableKept(ws[n], steps[n], ws[n + 1].clock, ws[n + 1]);
      OnceKept(ws[n], steps[n], ws[n + 1].clock, ws[n + 1], id);
    }
  }

  lemma FindableOverRuns(ws: seq<World>, steps: seq<Step>, k: nat)
    requires IsRun(ws, steps) && k <= |steps|
    ensures Findable(ws[k].s) && (k < |steps| ==> Next(ws[k], steps[k], ws[k + 1].clock, ws[k + 1]))
  {
    hide Next;
    assert IsRun(ws[..k + 1], steps[..k]);
    TimersOverRuns(ws[..k + 1], steps[..k], 0);
  }

  /** A timer without a callback at step `k` delivers nothing and is not cancelled at any later step. */
  lemma {:induction false} SilentOverRuns(ws: seq<World>, steps: seq<Step>, k: nat, n: nat, id: nat)
    requires IsRun(ws, steps) && k <= n <= |steps| && id in ws[k].s.recs && ws[k].s.recs[id].cb.None?
    ensures id in ws[n].s.recs && ws[n].s.recs[id].cb.None?
    ensures Count(ws[n].delivered, Same, id) == Count(ws[k].delivered, Same, id)
    ensures Count(ws[n].cancelled, Same, id) == Count(ws[k].cancelled, Same, id)
    decreases n
  {
    hide Next;
    if n > k {
      SilentOverRuns(ws, steps, k, n - 1, id);
      FindableOverRuns(ws, steps, n - 1);
      DisarmedStays(ws[n - 1], steps[n - 1], ws[n].clock, ws[n], id);
    }
  }

  /** So an armed timer that is refreshed, or reset to something new, never delivers again. */
  lemma RefreshSilences(ws: seq<World>, steps: seq<Step>, k: nat, n: nat, id: nat)
    requires IsRun(ws, steps) && k < n <= |steps| && Live(ws[k].s, id)
    requires || steps[k] == RefreshStep(id)
             || (steps[k].ResetStep? && steps[k].id == id && !(steps[k].ms == ws[k].s.recs[id].ms && !steps[k].fromNow))
    ensures id in ws[n].s.recs && ws[n].s.recs[id].cb.None?
    ensures Count(ws[n].delivered, Same, id) == Count(ws[k].delivered, Same, id)
    ensures Count(ws[n].cancelled, Same, id) == Count(ws[k].cancelled, Same, id)
  {
    FindableOverRuns(ws, steps, k);
    var a := steps[k];
    if a.ResetStep? {
      RefreshDisarms(ws[k].s, id, ws[k + 1].clock, a.ms, a.fromNow);
    } else {
      RefreshDisarms(ws[k].s, id, ws[k + 1].clock, 0, true);
    }
    SilentOverRuns(ws, steps, k + 1, n, id);
  }

  /** Once a cancel succeeded at step `k`, nothing of that timer is delivered or cancelled at any later step. */
  lemma NothingAfterCancel(ws: seq<World>, steps: seq<Step>, k: nat, id: nat, n: nat)
    requires IsRun(ws, steps) && k < n <= |steps| && steps[k] == CancelStep(id) && Live(ws[k].s, id)
    ensures id in ws[n].s.recs && ws[n].s.recs[id].cb.None?
    ensures Count(ws[n].delivered, Same, id) == Count(ws[k].delivered, Same, id)
    ensures Count(ws[n].cancelled, Same, id) == Count(ws[k].cancelled, Same, id) + 1
  {
    FindableOverRuns(ws, steps, k);
    CountAppend(ws[k].cancelled, id, Same, id);
    SilentOverRuns(ws, steps, k + 1, n, id);
  }

  /** Over any run whose clock never runs backwards and whose sums do not overflow, no front insertion is missed. */
  lemma {:induction false} FrontInsertionNeverMissed(ws: seq<World>, steps: seq<Step>)
    requires IsRun(ws, steps)
    requires forall k :: 0 <= k < |steps| ==> Forward(ws[k], steps[k], ws[k + 1].clock)
    ensures var w := ws[|steps|];
      FrontOk(w) && (NoneEarlier(w.s, w.deadline) || (w.s.tickled && w.s.notified > w.reported))
    decreases |steps|
  {
    if steps != [] {
      var n := |steps| - 1;
      assert IsRun(ws[..n + 1], steps[..n]);
      FrontInsertionNeverMissed(ws[..n + 1], steps[..n]);
      FrontKept(ws[n], steps[n], ws[n + 1].clock, ws[n + 1]);
    }
  }

  /**
   An expiry whose clock reading looks like a rollover fires every timer: the watch holds after it exactly when no
   recurring timer is set again before the reported deadline.
   */
  lemma StaleExpiryExactly(w: World, at: nat, now: nat, w': World)
    requires FrontOk(w) && Next(w, ExpireStep(at), now, w') && RolledOver(w.s, at) && at <= w.clock <= now
    requires NoOverflow(w.s, ExpireStep(at), now) && w.deadline.Some? && !w.s.tickled
    ensures NoneEarlier(w'.s, w.deadline) <==>
            forall i :: i in w.s.pending && w.s.recs[i].recurring ==> w.deadline.value <= at + w.s.recs[i].ms
  {
    forall i | i in w.s.pending ensures Fired(w.s.recs[i], at).next
        == if w.s.recs[i].recurring then at + w.s.recs[i].ms else w.s.recs[i].next {
      AddSmall(at, w.s.recs[i].ms);
    }
    assert forall i :: i in w.s.pending && w.s.recs[i].recurring ==> i in w'.s.pending;
  }

  /** A world whose only timer is recurring. */
  function Lone(s: Timers, clock: nat, d: Option<nat>, reported: nat, delivered: seq<nat>, checked: multiset<nat>): World {
    World(s, clock, d, reported, delivered, [], checked, false)
  }

  function OneTimer(ms: nat, cb: nat, next: nat, tickled: bool, previous: nat): Timers {
    Timers(map[0 := Timer(true, ms, next, Some(cb))], {0}, tickled, previous, 1)
  }

  lemma LoneBegins(clock: nat, ms: nat, cb: nat)
    requires clock + ms < U64
    ensures Next(Lone(Timers(map[], {}, false, clock, 0), clock, None, 0, [], multiset{}), AddStep(0, clock, ms, Some(cb), true),
                 clock, Lone(OneTimer(ms, cb, clock + ms, true, clock), clock, None, 0, [], multiset{}))
  {
    AddSmall(clock, ms);
    var s := Timers(map[], {}, false, clock, 0);
    assert Add(s, 0, clock, ms, Some(cb), true).recs == map[0 := Timer(true, ms, clock + ms, Some(cb))];
  }

  /** The timer expires, because it is due or because the reading looks like a rollover. */
  lemma LoneExpires(ms: nat, cb: nat, next: nat, tickled: bool, previous: nat, w: World, at: nat, now: nat)
    requires w == Lone(OneTimer(ms, cb, next, tickled, previous), w.clock, w.deadline, w.reported, w.delivered, w.checked)
    requires at in w.checked && at + ms < U64 && (RolledOver(w.s, at) || next <= at)
    ensures Next(w, ExpireStep(at), now, Lone(OneTimer(ms, cb, at + ms, tickled, at), now, w.deadline, w.reported,
                                              w.delivered + [0], w.checked - multiset{at}))
  {
    AddSmall(at, ms);
    assert Due(w.s, at) == {0};
    var ids: seq<nat> := [0];
    assert forall i: nat :: Count(ids, Same, i) == Owed(w.s, at, i);
    assert Delivers(w.s, at, ids);
    assert Expire(w.s, at).recs == OneTimer(ms, cb, at + ms, tickled, at).recs && Expire(w.s, at).pending == {0};
  }

  lemma LoneChecks(s: Timers, clock: nat, checked: multiset<nat>, at: nat, now: nat)
    requires WellFormed(s) && s.pending != {}
    ensures Next(Lone(s, clock, None, 0, [], checked), CheckStep(at), now, Lone(s, now, None, 0, [], checked + multiset{at}))
  {
  }

  lemma LoneReports(ms: nat, cb: nat, next: nat, previous: nat, clock: nat, delivered: seq<nat>, checked: multiset<nat>)
    ensures Next(Lone(OneTimer(ms, cb, next, true, previous), clock, None, 0, delivered, checked), NextStep, clock,
                 Lone(OneTimer(ms, cb, next, false, previous), clock, Some(next), 1, delivered, checked))
  {
    assert 0 in OneTimer(ms, cb, next, true, previous).pending;
  }

  /** A timer is due before the reported deadline, and no notification was made since. */
  predicate Oversleeps(w: World) {
    WellFormed(w.s) && !w.s.tickled && !NoneEarlier(w.s, w.deadline)
  }

  /** The reading may be old, but it is not in the future. */
  predicate Past(w: World, a: Step, now: nat) {
    && w.clock <= now < U64 && NoOverflow(w.s, a, now)
    && (a.AddStep? ==> a.start <= now)
    && (a.CheckStep? ==> a.at <= now)
    && (a.ExpireStep? ==> a.at <= now)
  }

  /** The worlds of the run below. */
  function LateWorld(clock: nat, later: nat, ms: nat, cb: nat, k: nat): World {
    var due, again := OneTimer(ms, cb, clock + ms, true, clock), OneTimer(ms, cb, later + ms, true, later);
    if k == 0 then Lone(Timers(map[], {}, false, clock, 0), clock, None, 0, [], multiset{})
    else if k == 1 then Lone(due, clock, None, 0, [], multiset{})
    else if k == 2 then Lone(due, clock, None, 0, [], multiset{clock})
    else if k == 3 then Lone(due, later, None, 0, [], multiset{clock, later})
    else if k == 4 then Lone(again, later, None, 0, [0], multiset{clock})
    else if k == 5 then Lone(again.(tickled := false), later, Some(later + ms), 1, [0], multiset{clock})
    else Lone(OneTimer(ms, cb, clock + ms, false, clock), later, Some(later + ms), 1, [0, 0], multiset{})
  }

  function LateSteps(clock: nat, later: nat, ms: nat, cb: nat): (steps: seq<Step>)
    ensures |steps| == 6
  {
    [AddStep(0, clock, ms, Some(cb), true), CheckStep(clock), CheckStep(later), ExpireStep(later), NextStep,
     ExpireStep(clock)]
  }

  lemma LateBegins(clock: nat, later: nat, ms: nat, cb: nat, k: nat)
    requires clock + ONE_HOUR < later && clock + ms <= later && later + ms < U64 && k < 3
    ensures var w, a, w' := LateWorld(clock, later, ms, cb, k), LateSteps(clock, later, ms, cb)[k],
                            LateWorld(clock, later, ms, cb, k + 1);
      Next(w, a, w'.clock, w') && Past(w, a, w'.clock)
  {
    hide Next, OneTimer;
    if k == 0 { LoneBegins(clock, ms, cb); }
    LonePast(clock, ms, cb);
    LoneChecks(OneTimer(ms, cb, clock + ms, true, clock), clock, multiset{}, clock, clock);
    LoneChecks(OneTimer(ms, cb, clock + ms, true, clock), clock, multiset{clock}, later, later);
    assert multiset{} + multiset{clock} == multiset{clock} && multiset{clock} + multiset{later} == multiset{clock, later};
  }

  lemma LonePast(previous: nat, ms: nat, cb: nat)
    ensures forall next, tickled :: var s := OneTimer(ms, cb, next, tickled, previous);
              s.pending == {0} && s.recs.Keys == {0} && s.recs[0].ms == ms && WellFormed(s)
  {
  }

  lemma LateEnds(clock: nat, later: nat, ms: nat, cb: nat, k: nat)
    requires clock + ONE_HOUR < later && clock + ms <= later && later + ms < U64 && 3 <= k < 6
    ensures var w, a, w' := LateWorld(clock, later, ms, cb, k), LateSteps(clock, later, ms, cb)[k],
                            LateWorld(clock, later, ms, cb, k + 1);
      Next(w, a, w'.clock, w') && Past(w, a, w'.clock)
  {
    hide Next, RolledOver;
    var w := LateWorld(clock, later, ms, cb, k);
    if k == 3 {
      LoneExpires(ms, cb, clock + ms, true, clock, w, later, later);
      assert [] + [0] == [0] && multiset{clock, later} - multiset{later} == multiset{clock};
    } else if k == 4 {
      LoneReports(ms, cb, later + ms, later, later, [0], multiset{clock});
    } else {
      RollsOverLater(w.s, clock, later);
      LoneExpires(ms, cb, later + ms, false, later, w, clock, later);
      assert [0] + [0] == [0, 0] && multiset{clock} - multiset{clock} == multiset{};
    }
  }

  /**
   It does break: one thread reads the clock and sees the timer; more than an hour later another expires it, and a third
   is told to sleep until it is due again. Then the first thread goes on, takes its reading for a rollover and sets the
   timer to a time that has passed, and nobody is notified.
   */
  lemma StaleExpiryMissed(clock: nat, later: nat, ms: nat, cb: nat) returns (ws: seq<World>)
    requires clock + ONE_HOUR < later && clock + ms <= later && later + ms < U64
    ensures |ws| == 7 && FrontOk(ws[5]) && Oversleeps(ws[6])
    ensures var steps := LateSteps(clock, later, ms, cb);
      IsRun(ws, steps) && forall k :: 0 <= k < 6 ==> Past(ws[k], steps[k], ws[k + 1].clock)
  {
    hide Next, Past, LateWorld, LateSteps, FrontOk, Oversleeps;
    ws := seq(7, k requires 0 <= k < 7 => LateWorld(clock, later, ms, cb, k));
    forall k | 0 <= k < 6
      ensures Next(ws[k], LateSteps(clock, later, ms, cb)[k], ws[k + 1].clock, ws[k + 1])
              && Past(ws[k], LateSteps(clock, later, ms, cb)[k], ws[k + 1].clock)
    {
      if k < 3 { LateBegins(clock, later, ms, cb, k); } else { LateEnds(clock, later, ms, cb, k); }
    }
    LateOutcome(clock, later, ms, cb);
  }

  lemma LateOutcome(clock: nat, later: nat, ms: nat, cb: nat)
    requires clock < later && later + ms < U64
    ensures NewWorld(LateWorld(clock, later, ms, cb, 0))
    ensures FrontOk(LateWorld(clock, later, ms, cb, 5)) && Oversleeps(LateWorld(clock, later, ms, cb, 6))
  {
    assert 0 in LateWorld(clock, later, ms, cb, 6).s.pending;
  }

  lemma RollsOverLater(s: Timers, at: nat, later: nat)
    requires s.previous == later < U64 && at + ONE_HOUR < later
    ensures RolledOver(s, at)
  {
    RollsOverExactly(s, at);
  }

  // ---- between the two locks of listExpiredCb ----

  /** The step takes the last timer out of the set: a cancel of the only one, or an expiry of due one-shots only. */
  predicate Empties(w: World, a: Step)
    requires WellFormed(w.s)
  {
    && w.s.pending != {}
    && ((a.CancelStep? && Live(w.s, a.id) && w.s.pending == {a.id})
        || (a.ExpireStep? && forall i :: i in w.s.pending ==> i in Due(w.s, a.at) && !w.s.recs[i].recurring))
  }

  lemma EmptiedExactly(w: World, a: Step, now: nat, w': World)
    requires Next(w, a, now, w') && w.s.pending != {}
    ensures w'.s.pending == {} <==> Empties(w, a)
  {
    var i :| i in w.s.pending;
    match a {
      case CancelStep(id) =>
        if w'.s.pending == {} && Live(w.s, id) { assert w.s.pending == {id}; }
      case ExpireStep(at) =>
        assert forall i :: i in w.s.pending ==> (i in w'.s.pending <==> (i in Due(w.s, at) ==> w.s.recs[i].recurring));
      case ResetStep(id, ms, fromNow) =>
        assert w'.s == w.s || id in w'.s.pending;
      case _ => assert i in w'.s.pending;
    }
  }

  /** An empty set stays empty until a timer is added. */
  lemma StaysEmptyExactly(w: World, a: Step, now: nat, w': World)
    requires Findable(w.s) && Next(w, a, now, w') && w.s.pending == {}
    ensures w'.s.pending == {} <==> !a.AddStep?
  {
    match a {
      case AddStep(id, _, _, _, _) => assert id in w'.s.pending;
      case ExpireStep(at) => assert Due(w.s, at) == {};
      case _ =>
    }
  }

  /** After step `j` and before step `k` some step took the last timer out, and none was added behind it. */
  ghost predicate EmptiedBetween(ws: seq<World>, steps: seq<Step>, j: nat, k: nat)
    requires |ws| == |steps| + 1 && k <= |steps|
  {
    exists m :: j < m < k && WellFormed(ws[m].s) && Empties(ws[m], steps[m]) && forall n :: m < n < k ==> !steps[n].AddStep?
  }

  /** What an expiry finds at its second lock: the set is empty exactly if it was emptied since the first and not filled. */
  lemma {:induction false} EmptyExactly(ws: seq<World>, steps: seq<Step>, j: nat, k: nat)
    requires IsRun(ws, steps) && j < k <= |steps| && steps[j].CheckStep?
    ensures ws[k].s.pending == {} <==> EmptiedBetween(ws, steps, j, k)
    decreases k
  {
    hide Next, Empties;
    if k == j + 1 {
      CheckSees(ws[j], steps[j], ws[k].clock, ws[k]);
    } else {
      var w, a, w' := ws[k - 1], steps[k - 1], ws[k];
      EmptyExactly(ws, steps, j, k - 1);
      FindableOverRuns(ws, steps, k - 1);
      if w.s.pending == {} {
        StaysEmptyExactly(w, a, w'.clock, w');
        NothingToEmpty(w, a);
      } else {
        EmptiedExactly(w, a, w'.clock, w');
      }
      EmptiedOneMore(ws, steps, j, k);
    }
  }

  lemma NothingToEmpty(w: World, a: Step)
    requires WellFormed(w.s) && w.s.pending == {}
    ensures !Empties(w, a)
  {
  }

  lemma EmptiedOneMore(ws: seq<World>, steps: seq<Step>, j: nat, k: nat)
    requires |ws| == |steps| + 1 && j + 1 < k <= |steps| && WellFormed(ws[k - 1].s)
    ensures EmptiedBetween(ws, steps, j, k) <==>
      Empties(ws[k - 1], steps[k - 1]) || (EmptiedBetween(ws, steps, j, k - 1) && !steps[k - 1].AddStep?)
  {
    hide Empties;
    if EmptiedBetween(ws, steps, j, k - 1) && !steps[k - 1].AddStep? {
      var m :| j < m < k - 1 && WellFormed(ws[m].s) && Empties(ws[m], steps[m])
               && forall n :: m < n < k - 1 ==> !steps[n].AddStep?;
      assert forall n :: m < n < k ==> !steps[n].AddStep?;
    }
  }

  lemma CheckSees(w: World, a: Step, now: nat, w': World)
    requires Next(w, a, now, w') && a.CheckStep?
    ensures w'.s.pending != {}
  {
  }

  /** Whoever is at its second lock with a reading was at its first with it. */
  lemma {:induction false} CheckedBefore(ws: seq<World>, steps: seq<Step>, k: nat, at: nat)
    requires IsRun(ws, steps) && k <= |steps| && at in ws[k].checked
    ensures exists j :: 0 <= j < k && steps[j] == CheckStep(at)
    decreases k
  {
    if k > 0 {
      assert Next(ws[k - 1], steps[k - 1], ws[k].clock, ws[k]);
      if steps[k - 1] != CheckStep(at) { CheckedBefore(ws, steps, k - 1, at); }
    }
  }

  /** The last step is an expiry for which the set was emptied between its locks and not filled, and no rollover. */
  ghost predicate EndsAstray(ws: seq<World>, steps: seq<Step>)
    requires |ws| == |steps| + 1
  {
    && steps != [] && steps[|steps| - 1].ExpireStep?
    && !RolledOver(ws[|steps| - 1].s, steps[|steps| - 1].at)
    && exists j :: 0 <= j < |steps| - 1 && steps[j] == CheckStep(steps[|steps| - 1].at)
                   && EmptiedBetween(ws, steps, j, |steps| - 1)
  }

  /** `begin()` is taken of an empty set exactly then. */
  lemma AstrayExactly(ws: seq<World>, steps: seq<Step>)
    requires IsRun(ws, steps)
    ensures ws[|steps|].astray <==> EndsAstray(ws, steps)
  {
    hide EmptiedBetween;
    if steps != [] {
      var k := |steps| - 1;
      assert Next(ws[k], steps[k], ws[k + 1].clock, ws[k + 1]);
      if steps[k].ExpireStep? {
        var at := steps[k].at;
        CheckedBefore(ws, steps, k, at);
        forall j | 0 <= j < k && steps[j] == CheckStep(at)
          ensures EmptiedBetween(ws, steps, j, k) <==> ws[k].s.pending == {}
        {
          EmptyExactly(ws, steps, j, k);
        }
      }
    }
  }

  /** From an expiry's first lock to step `k`, nobody cancels and no other expiry takes its second lock. */
  predicate Undisturbed(steps: seq<Step>, j: nat, k: nat) {
    j < k <= |steps| && steps[j].CheckStep? && forall m :: j < m < k ==> !steps[m].CancelStep? && !steps[m].ExpireStep?
  }

  lemma UndisturbedFinds(ws: seq<World>, steps: seq<Step>, j: nat, k: nat)
    requires IsRun(ws, steps) && Undisturbed(steps, j, k)
    ensures ws[k].s.pending != {}
  {
    EmptyExactly(ws, steps, j, k);
  }

  /** If that holds of every expiry, none looks at the front of an empty set. */
  lemma UndisturbedStaysOn(ws: seq<World>, steps: seq<Step>)
    requires IsRun(ws, steps)
    requires forall k :: 0 <= k < |steps| && steps[k].ExpireStep? ==> exists j :: 0 <= j < k && Undisturbed(steps, j, k)
    ensures !ws[|steps|].astray
  {
    if steps != [] {
      var k := |steps| - 1;
      assert Next(ws[k], steps[k], ws[k + 1].clock, ws[k + 1]);
      if steps[k].ExpireStep? {
        var j: nat :| j < k && Undisturbed(steps, j, k);
        UndisturbedFinds(ws, steps, j, k);
      }
    }
  }

  /** The worlds of the run below: a timer due at once has been added, `n` expiries checked, `m` expired. */
  function Racing(clock: nat, cb: nat, n: nat, m: nat): World {
    World(if m == 0 then Timers(map[0 := Timer(false, 0, clock, Some(cb))], {0}, true, clock, 1)
          else Timers(map[0 := Timer(false, 0, clock, None)], {}, true, clock, 1),
          clock, None, 0, if m == 0 then [] else [0], [], multiset{}[clock := n], m == 2)
  }

  lemma RaceBegins(w: World, clock: nat, cb: nat)
    requires NewWorld(w) && w.clock == clock
    ensures Next(w, AddStep(0, clock, 0, Some(cb), false), clock, Racing(clock, cb, 0, 0))
  {
    AddSmall(clock, 0);
    assert Add(w.s, 0, clock, 0, Some(cb), false).recs == map[0 := Timer(false, 0, clock, Some(cb))];
  }

  lemma RaceFires(clock: nat, cb: nat, n: nat, m: nat)
    requires clock < U64 && n > 0 && m < 2
    ensures Next(Racing(clock, cb, n, m), ExpireStep(clock), clock, Racing(clock, cb, n - 1, m + 1))
  {
    var w, w' := Racing(clock, cb, n, m), Racing(clock, cb, n - 1, m + 1);
    assert !RolledOver(w.s, clock) && Due(w.s, clock) == w.s.pending;
    var ids := if m == 0 then [0] else [];
    assert forall i :: Count(ids, Same, i) == Owed(w.s, clock, i);
    assert w'.delivered == w.delivered + ids;
    assert Expire(w.s, clock).recs == w'.s.recs && Expire(w.s, clock).pending == w'.s.pending;
  }

  /** Two threads see the only timer, a one-shot that is due; the one that locks second goes astray. */
  lemma ExpiryGoesAstray(clock: nat, cb: nat) returns (ws: seq<World>, steps: seq<Step>)
    requires clock < U64
    ensures IsRun(ws, steps) && ws[|steps|].astray
    ensures steps == [AddStep(0, clock, 0, Some(cb), false), CheckStep(clock), CheckStep(clock),
                      ExpireStep(clock), ExpireStep(clock)]
  {
    hide Next, Racing;
    var none := World(Timers(map[], {}, false, clock, 0), clock, None, 0, [], [], multiset{}, false);
    steps := [AddStep(0, clock, 0, Some(cb), false), CheckStep(clock), CheckStep(clock),
              ExpireStep(clock), ExpireStep(clock)];
    ws := [none, Racing(clock, cb, 0, 0), Racing(clock, cb, 1, 0), Racing(clock, cb, 2, 0), Racing(clock, cb, 1, 1),
           Racing(clock, cb, 0, 2)];
    RaceBegins(none, clock, cb);
    RaceChecks(clock, cb, 0);
    RaceChecks(clock, cb, 1);
    RaceFires(clock, cb, 2, 0);
    RaceFires(clock, cb, 1, 1);
  }

  lemma RaceChecks(clock: nat, cb: nat, n: nat)
    ensures Next(Racing(clock, cb, n, 0), CheckStep(clock), clock, Racing(clock, cb, n + 1, 0))
    ensures forall m: nat :: Racing(clock, cb, n, m).clock == clock && (m == 2 ==> Racing(clock, cb, n, m).astray)
  {
  }
}
