/**
 The table of file descriptors of IOManager: which events are armed, who waits for them and what the kernel
 was told. Every operation is one critical section under the descriptor's mutex.
 */
module EventRegistry {
  import opened Sums
  import opened Wrappers

  datatype Event = READ | WRITE

  /** A set of events; the source keeps it as the bits 0x1 and 0x4 of an integer. */
  datatype Mask = Mask(read: bool, write: bool) {
    predicate Has(ev: Event) { if ev.READ? then read else write }
    function With(ev: Event): Mask { if ev.READ? then Mask(true, write) else Mask(read, true) }
    function And(m: Mask): Mask { Mask(read && m.read, write && m.write) }
    function Or(m: Mask): Mask { Mask(read || m.read, write || m.write) }
    function Minus(m: Mask): Mask { Mask(read && !m.read, write && !m.write) }
    predicate Within(m: Mask) { (read ==> m.read) && (write ==> m.write) }
    function Bits(): nat { (if read then 1 else 0) + (if write then 1 else 0) }
  }

  const NONE := Mask(false, false)
  const ALL := Mask(true, true)

  function Only(ev: Event): Mask {
    NONE.With(ev)
  }

  /** The operations of the mask, event by event. */
  lemma MaskBits(a: Mask, b: Mask, ev: Event)
    ensures forall e :: a.With(ev).Has(e) <==> a.Has(e) || e == ev
    ensures forall e :: a.And(b).Has(e) <==> a.Has(e) && b.Has(e)
    ensures forall e :: a.Or(b).Has(e) <==> a.Has(e) || b.Has(e)
    ensures forall e :: a.Minus(b).Has(e) <==> a.Has(e) && !b.Has(e)
    ensures a.Within(b) <==> forall e :: a.Has(e) ==> b.Has(e)
    ensures a.Bits() == (if a.Has(READ) then 1 else 0) + (if a.Has(WRITE) then 1 else 0)
    ensures a == b <==> forall e :: a.Has(e) <==> b.Has(e)
    ensures a.read == a.Has(READ) && a.write == a.Has(WRITE)
  {
    assert forall m: Mask :: m.Has(READ) == m.read && m.Has(WRITE) == m.write;
  }

  /** What the scheduler can be asked to run: a fiber or a callback. */
  datatype Task = Fib(id: nat) | Call(cb: nat)

  datatype EventContext = EventContext(scheduler: bool, fiber: Option<nat>, cb: Option<nat>)

  /** One FdContext object, made for descriptor `fd`. */
  datatype FdContext = FdContext(fd: nat, events: Mask, read: EventContext, write: EventContext)

  /** What epoll holds for a descriptor: the object it points to and the interest mask. */
  datatype Registration = Registration(ctx: nat, mask: Mask)

  /**
   `objects` are all FdContext objects ever made, which are never deleted; `table` names the one that a descriptor is
   looked up as; `kernel` is epoll's own table.
   */
  datatype Registry = Registry(objects: seq<FdContext>, table: seq<nat>, kernel: map<nat, Registration>, pending: int)

  /** The assertions of the library that an operation on the table can reach. */
  datatype Site = TRIGGER_UNARMED | ARM_TWICE | CONTEXT_BUSY | EVENTS_LEFT

  /** `woken` are the tasks handed to the scheduler, in order; `ok` is what the caller is told. */
  datatype Reply = Reply(reg: Registry, woken: seq<Task>, ok: bool) | Broken(site: Site)

  const EMPTY := EventContext(false, None, None)
  const INITIAL_SIZE: nat := 32

  function Fresh(fd: nat): FdContext {
    FdContext(fd, NONE, EMPTY, EMPTY)
  }

  function GetContext(c: FdContext, ev: Event): EventContext {
    match ev case READ => c.read case WRITE => c.write
  }

  function SetContext(c: FdContext, ev: Event, e: EventContext): FdContext {
    match ev case READ => c.(read := e) case WRITE => c.(write := e)
  }

  /** The object a descriptor is looked up as. */
  function Find(r: Registry, fd: nat): Option<nat> {
    if fd < |r.table| then Some(r.table[fd]) else None
  }

  // ---- epoll_ctl ----

  datatype Op = ADD | MOD | DEL

  /** The kernel refuses ADD on a registered descriptor and MOD or DEL on an unregistered one. */
  predicate Legal(kernel: map<nat, Registration>, fd: nat, op: Op) {
    op.ADD? <==> fd !in kernel
  }

  function Apply(kernel: map<nat, Registration>, fd: nat, op: Op, to: Registration): map<nat, Registration> {
    if op.DEL? then kernel - {fd} else kernel[fd := to]
  }

  function OpFor(left: Mask): Op {
    if left == NONE then DEL else MOD
  }

  // ---- FdContext::triggerEvent ----

  datatype Triggered = Triggered(ctx: FdContext, woken: seq<Task>) | Unarmed

  /**
   The event must be armed. Its bit is cleared and the callback, or else the fiber, is swapped out of the context
   into `schedule`; an empty context schedules nothing.
   */
  function TriggerEvent(c: FdContext, ev: Event): Triggered {
    if !c.events.Has(ev) then Unarmed else
    var e := GetContext(c, ev);
    var rest := c.(events := c.events.Minus(Only(ev)));
    if e.cb.Some? then
      Triggered(SetContext(rest, ev, e.(scheduler := false, cb := None)), [Call(e.cb.value)])
    else
      Triggered(SetContext(rest, ev, e.(scheduler := false, fiber := None)),
                if e.fiber.Some? then [Fib(e.fiber.value)] else [])
  }

  /** Triggers the events of the mask, READ before WRITE. */
  function TriggerMask(c: FdContext, evs: Mask): Triggered {
    var t1 := if evs.read then TriggerEvent(c, READ) else Triggered(c, []);
    if t1.Unarmed? then Unarmed else
    var t2 := if evs.write then TriggerEvent(t1.ctx, WRITE) else Triggered(t1.ctx, []);
    if t2.Unarmed? then Unarmed else Triggered(t2.ctx, t1.woken + t2.woken)
  }

  /** The kernel mask of object `o` is reduced to `left` and the events of `evs` are triggered, each decrementing the counter. */
  function Fire(r: Registry, o: nat, left: Mask, evs: Mask): Reply
    requires o < |r.objects|
  {
    var t := TriggerMask(r.objects[o], evs);
    if t.Unarmed? then Broken(TRIGGER_UNARMED)
    else Reply(Registry(r.objects[o := t.ctx], r.table,
                        Apply(r.kernel, r.objects[o].fd, OpFor(left), Registration(o, left)), r.pending - evs.Bits()),
               t.woken, true)
  }

  // ---- contextResize ----

  function FreshObjects(from: nat, n: nat): (r: seq<FdContext>)
    ensures |r| == n && forall i :: 0 <= i < n ==> r[i] == Fresh(from + i)
  {
    seq(n, i requires 0 <= i < n => Fresh(from + i))
  }

  function Numbers(from: nat, n: nat): (r: seq<nat>)
    ensures |r| == n && forall i :: 0 <= i < n ==> r[i] == from + i
  {
    seq(n, i requires 0 <= i < n => from + i)
  }

  /** Cutting the table drops pointers, not objects, and the kernel is not told. */
  function Resize(r: Registry, size: nat): Registry {
    if size <= |r.table| then r.(table := r.table[..size]) else
    var n := size - |r.table|;
    r.(objects := r.objects + FreshObjects(|r.table|, n), table := r.table + Numbers(|r.objects|, n))
  }

  // ---- addEvent, delEvent, cancelEvent, cancelAll, the delivery loop of idle: on an object found before ----

  function Waiter(t: Task): EventContext {
    match t
    case Fib(f) => EventContext(true, Some(f), None)
    case Call(c) => EventContext(true, None, Some(c))
  }

  function Arm(c: FdContext, ev: Event, who: Task): FdContext {
    SetContext(c, ev, Waiter(who)).(events := c.events.With(ev))
  }

  /** `accept` is the kernel's answer to a legal epoll_ctl. */
  function AddEvent(r: Registry, o: nat, ev: Event, who: Task, accept: bool): Reply
    requires o < |r.objects|
  {
    var c := r.objects[o];
    var op := if c.events != NONE then MOD else ADD;
    if c.events.Has(ev) then Broken(ARM_TWICE) else
    if !(accept && Legal(r.kernel, c.fd, op)) then Reply(r, [], false) else
    if GetContext(c, ev) != EMPTY then Broken(CONTEXT_BUSY) else
    Reply(Registry(r.objects[o := Arm(c, ev, who)], r.table,
                   Apply(r.kernel, c.fd, op, Registration(o, c.events.With(ev))), r.pending + 1), [], true)
  }

  function Forget(c: FdContext, ev: Event): FdContext {
    SetContext(c, ev, EMPTY).(events := c.events.Minus(Only(ev)))
  }

  function DelEvent(r: Registry, o: nat, ev: Event, accept: bool): Reply
    requires o < |r.objects|
  {
    var c := r.objects[o];
    var left := c.events.Minus(Only(ev));
    if !c.events.Has(ev) || !(accept && Legal(r.kernel, c.fd, OpFor(left))) then Reply(r, [], false) else
    Reply(Registry(r.objects[o := Forget(c, ev)], r.table,
                   Apply(r.kernel, c.fd, OpFor(left), Registration(o, left)), r.pending - 1), [], true)
  }

  function CancelEvent(r: Registry, o: nat, ev: Event, accept: bool): Reply
    requires o < |r.objects|
  {
    var c := r.objects[o];
    var left := c.events.Minus(Only(ev));
    if !c.events.Has(ev) || !(accept && Legal(r.kernel, c.fd, OpFor(left))) then Reply(r, [], false) else
    Fire(r, o, left, Only(ev))
  }

  function CancelAll(r: Registry, o: nat, accept: bool): Reply
    requires o < |r.objects|
  {
    var c := r.objects[o];
    if c.events == NONE || !(accept && Legal(r.kernel, c.fd, DEL)) then Reply(r, [], false) else
    var reply := Fire(r, o, NONE, c.events);
    if reply.Reply? && reply.reg.objects[o].events != NONE then Broken(EVENTS_LEFT) else reply
  }

  /** An error or a hang-up stands for every armed event; nothing else is masked. */
  function RealEvents(c: FdContext, reported: Mask, error: bool): Mask {
    if error then reported.Or(c.events) else reported
  }

  /** A report names its object by the pointer that epoll holds. */
  function Deliver(r: Registry, o: nat, reported: Mask, error: bool, accept: bool): Reply
    requires o < |r.objects|
  {
    var c := r.objects[o];
    var fired := RealEvents(c, reported, error);
    if c.events.And(fired) == NONE then Reply(r, [], true) else
    var left := c.events.Minus(fired);
    if !(accept && Legal(r.kernel, c.fd, OpFor(left))) then Reply(r, [], true) else
    Fire(r, o, left, fired)
  }

  // ---- what every critical section keeps ----

  /** One waiter, fiber or callback but not both. */
  predicate Occupied(e: EventContext) {
    e.scheduler && (e.fiber.Some? <==> e.cb.None?)
  }

  predicate ContextMatches(c: FdContext, ev: Event) {
    if c.events.Has(ev) then Occupied(GetContext(c, ev)) else GetContext(c, ev) == EMPTY
  }

  predicate Agrees(c: FdContext) {
    ContextMatches(c, READ) && ContextMatches(c, WRITE)
  }

  /** How many of the given events are armed on one object. */
  function Armed(c: FdContext, among: Mask): nat {
    c.events.And(among).Bits()
  }

  /** The kernel's record of an object: its armed events, or none at all. */
  predicate Known(r: Registry, o: nat)
    requires o < |r.objects|
  {
    r.objects[o].events != NONE ==>
      r.objects[o].fd in r.kernel && r.kernel[r.objects[o].fd] == Registration(o, r.objects[o].events)
  }

  predicate Pointed(r: Registry, fd: nat)
    requires fd in r.kernel
  {
    var k := r.kernel[fd];
    k.ctx < |r.objects| && r.objects[k.ctx].fd == fd && r.objects[k.ctx].events == k.mask != NONE
  }

  /** The kernel holds exactly the armed objects, each with the mask of its armed events. */
  ghost predicate KernelAgrees(r: Registry) {
    && (forall o :: 0 <= o < |r.objects| ==> Known(r, o))
    && (forall fd :: fd in r.kernel ==> Pointed(r, fd))
  }

  /** The counter is the number of armed events; contexts and kernel agree with them; descriptors find their objects. */
  ghost predicate Consistent(r: Registry) {
    && INITIAL_SIZE <= |r.table|
    && (forall fd :: 0 <= fd < |r.table| ==> r.table[fd] < |r.objects| && r.objects[r.table[fd]].fd == fd)
    && (forall o :: 0 <= o < |r.objects| ==> Agrees(r.objects[o]))
    && KernelAgrees(r)
    && r.pending == Count(r.objects, Armed, ALL)
  }

  /** The task that waits in an occupied context. */
  function TheWaiter(e: EventContext): Task
    requires Occupied(e)
  {
    if e.fiber.Some? then Fib(e.fiber.value) else Call(e.cb.value)
  }

  /** The waiters of armed events, that of READ first. */
  function Waiters(c: FdContext, evs: Mask): seq<Task>
    requires Agrees(c) && evs.Within(c.events)
  {
    (if evs.read then [TheWaiter(c.read)] else []) + (if evs.write then [TheWaiter(c.write)] else [])
  }

  function Names(e: EventContext, t: Task): nat {
    match t
    case Fib(f) => if e.fiber == Some(f) then 1 else 0
    case Call(cb) => if e.cb == Some(cb) then 1 else 0
  }

  /** How often a task, fiber or callback, is parked in the contexts of one object. */
  function Parked(c: FdContext, t: Task): nat {
    Names(c.read, t) + Names(c.write, t)
  }

  function WaitsAt(c: FdContext, ev: Event, t: Task): nat {
    Names(GetContext(c, ev), t)
  }

  function SameTask(t: Task, u: Task): nat {
    if t == u then 1 else 0
  }

  function ParkedIn(r: Registry, t: Task): nat {
    Count(r.objects, Parked, t)
  }

  /** From object `c` to object `c'` only the contexts of the given events changed, and those are empty. */
  predicate Emptied(c: FdContext, c': FdContext, evs: Mask) {
    && c'.fd == c.fd && c'.events == c.events.Minus(evs)
    && c'.read == (if evs.read then EMPTY else c.read)
    && c'.write == (if evs.write then EMPTY else c.write)
  }

  /** Object `o` is replaced and the kernel told so: `KernelFor` is what it then holds. */
  function KernelFor(r: Registry, o: nat, events: Mask): map<nat, Registration>
    requires o < |r.objects|
  {
    if events == NONE then r.kernel - {r.objects[o].fd} else r.kernel[r.objects[o].fd := Registration(o, events)]
  }

  /** Nobody but `o` is registered for its descriptor. */
  predicate NoRival(r: Registry, o: nat)
    requires o < |r.objects|
  {
    r.objects[o].fd in r.kernel ==> r.kernel[r.objects[o].fd].ctx == o
  }

  lemma ArmedHasNoRival(r: Registry, o: nat)
    requires Consistent(r) && o < |r.objects| && r.objects[o].events != NONE
    ensures NoRival(r, o) && r.objects[o].fd in r.kernel
  {
    assert Known(r, o);
  }

  lemma ReplaceObject(r: Registry, o: nat, c: FdContext)
    requires Consistent(r) && o < |r.objects| && Agrees(c) && c.fd == r.objects[o].fd && NoRival(r, o)
    ensures Consistent(Registry(r.objects[o := c], r.table, KernelFor(r, o, c.events),
                                r.pending - Armed(r.objects[o], ALL) + Armed(c, ALL)))
  {
    hide Agrees;
    var r' := Registry(r.objects[o := c], r.table, KernelFor(r, o, c.events),
                       r.pending - Armed(r.objects[o], ALL) + Armed(c, ALL));
    CountUpdate(r.objects, o, c, Armed, ALL);
    forall k | 0 <= k < |r'.objects| ensures Known(r', k) {
      assert Known(r, k);
    }
    forall fd | fd in r'.kernel ensures Pointed(r', fd) {
      assert fd != c.fd ==> Pointed(r, fd);
    }
  }

  lemma CountFew(w: seq<Task>, t: Task)
    requires |w| <= 1
    ensures Count(w, SameTask, t) == if w == [] then 0 else SameTask(w[0], t)
  {
    if |w| == 1 {
      CountOne(w[0], SameTask, t);
      assert w == [w[0]];
    }
  }

  /** Each event of the mask hands over the waiter of its own context, READ first, and empties that context only. */
  lemma TriggerMaskKeeps(c: FdContext, evs: Mask)
    requires Agrees(c) && evs.Within(c.events)
    ensures var t := TriggerMask(c, evs);
      t.Triggered? && Agrees(t.ctx) && Emptied(c, t.ctx, evs) && t.woken == Waiters(c, evs)
  {
    assert evs.read ==> Occupied(c.read);
    assert evs.write ==> Occupied(c.write);
  }

  lemma TriggerMaskMoves(c: FdContext, evs: Mask, u: Task)
    requires Agrees(c) && evs.Within(c.events)
    ensures var t := TriggerMask(c, evs);
      t.Triggered? && Parked(t.ctx, u) + Count(t.woken, SameTask, u) == Parked(c, u)
  {
    TriggerMaskKeeps(c, evs);
    hide TriggerMask;
    var a, b := if evs.read then [TheWaiter(c.read)] else [], if evs.write then [TheWaiter(c.write)] else [];
    CountConcat(a, b, SameTask, u);
    CountFew(a, u);
    CountFew(b, u);
  }

  /** The task leaves the objects exactly as often as it is handed to the scheduler. */
  ghost predicate Moves(r: Registry, reply: Reply, t: Task) {
    reply.Reply? && ParkedIn(reply.reg, t) + Count(reply.woken, SameTask, t) == ParkedIn(r, t)
  }

  ghost predicate Sound(r: Registry, reply: Reply) {
    && reply.Reply? && Consistent(reply.reg) && reply.reg.table == r.table && |reply.reg.objects| == |r.objects|
    && forall t :: Moves(r, reply, t)
  }

  /** Object `o` gave up the waiters of the given events, in order, and nothing else of any object changed. */
  predicate HandsOver(r: Registry, reply: Reply, o: nat, evs: Mask)
    requires o < |r.objects|
  {
    && reply.Reply? && |reply.reg.objects| == |r.objects| && reply.reg.objects == r.objects[o := reply.reg.objects[o]]
    && Emptied(r.objects[o], reply.reg.objects[o], evs)
    && Agrees(r.objects[o]) && evs.Within(r.objects[o].events) && reply.woken == Waiters(r.objects[o], evs)
  }

  /** Firing armed events is sound when the kernel mask is reduced to exactly the events that stay armed. */
  lemma FireKeeps(r: Registry, o: nat, evs: Mask)
    requires Consistent(r) && o < |r.objects| && evs.Within(r.objects[o].events) && r.objects[o].events != NONE
    ensures var reply := Fire(r, o, r.objects[o].events.Minus(evs), evs);
      Sound(r, reply) && reply.ok && HandsOver(r, reply, o, evs)
  {
    hide TriggerMask, Agrees;
    var c := r.objects[o];
    var t := TriggerMask(c, evs);
    TriggerMaskKeeps(c, evs);
    ArmedHasNoRival(r, o);
    ReplaceObject(r, o, t.ctx);
    var reply := Fire(r, o, c.events.Minus(evs), evs);
    forall u ensures Moves(r, reply, u) {
      TriggerMaskMoves(c, evs, u);
      CountUpdate(r.objects, o, t.ctx, Parked, u);
    }
  }

  /**
   Arming a free event parks exactly the given waiter in that event's context when the kernel lets it, and touches no
   other context: an object that has armed events is always registered, and one that has none must not find its
   descriptor registered for another object.
   */
  lemma AddKeeps(r: Registry, o: nat, ev: Event, who: Task, accept: bool)
    requires Consistent(r) && o < |r.objects| && !r.objects[o].events.Has(ev)
    ensures var reply := AddEvent(r, o, ev, who, accept);
      && reply.Reply? && reply.woken == [] && Consistent(reply.reg)
      && (reply.ok <==> accept && NoRival(r, o))
      && reply.reg.table == r.table && |reply.reg.objects| == |r.objects|
      && (!reply.ok ==> reply.reg == r)
      && (reply.ok ==> reply.reg.objects == r.objects[o := reply.reg.objects[o]])
      && (reply.ok ==> Occupies(r.objects[o], reply.reg.objects[o], ev, who))
      && (reply.ok ==> forall t :: ParkedIn(reply.reg, t) == ParkedIn(r, t) + SameTask(who, t))
  {
    hide Agrees, Arm, KernelAgrees, Parked;
    var c := Arm(r.objects[o], ev, who);
    ArmAgrees(r.objects[o], ev, who);
    ArmIsLegal(r, o);
    if accept && NoRival(r, o) {
      ReplaceObject(r, o, c);
      forall t ensures Count(r.objects[o := c], Parked, t) == ParkedIn(r, t) + SameTask(who, t) {
        CountUpdate(r.objects, o, c, Parked, t);
        ArmParks(r.objects[o], ev, who, t);
      }
    }
  }

  /** From object `c` to object `c'` only that event's context changed, and there `who` waits. */
  predicate Occupies(c: FdContext, c': FdContext, ev: Event, who: Task) {
    && c'.fd == c.fd && c'.events == c.events.With(ev)
    && Occupied(GetContext(c', ev)) && TheWaiter(GetContext(c', ev)) == who
    && (if ev.READ? then c'.write == c.write else c'.read == c.read)
  }

  lemma ArmAgrees(c: FdContext, ev: Event, who: Task)
    requires Agrees(c) && !c.events.Has(ev)
    ensures var a := Arm(c, ev, who);
      Agrees(a) && Occupies(c, a, ev, who) && Armed(a, ALL) == Armed(c, ALL) + 1
    ensures GetContext(c, ev) == EMPTY
  {
  }

  lemma ArmParks(c: FdContext, ev: Event, who: Task, t: Task)
    requires GetContext(c, ev) == EMPTY
    ensures Parked(Arm(c, ev, who), t) == Parked(c, t) + SameTask(who, t)
  {
  }

  /** The choice between ADD and MOD is legal exactly when no other object is registered for the descriptor. */
  lemma ArmIsLegal(r: Registry, o: nat)
    requires Consistent(r) && o < |r.objects|
    ensures Legal(r.kernel, r.objects[o].fd, if r.objects[o].events != NONE then MOD else ADD) <==> NoRival(r, o)
  {
    if r.objects[o].events != NONE { ArmedHasNoRival(r, o); }
    if r.objects[o].fd in r.kernel { assert Pointed(r, r.objects[o].fd); }
  }

  /** Deleting forgets exactly the waiter of the event's context, who is handed to nobody. */
  lemma DelKeeps(r: Registry, o: nat, ev: Event, accept: bool)
    requires Consistent(r) && o < |r.objects|
    ensures var reply := DelEvent(r, o, ev, accept);
      && reply.Reply? && reply.woken == [] && Consistent(reply.reg)
      && reply.reg.table == r.table && |reply.reg.objects| == |r.objects|
      && (reply.ok <==> accept && r.objects[o].events.Has(ev))
      && (!reply.ok ==> reply.reg == r)
      && (reply.ok ==> reply.reg.objects == r.objects[o := reply.reg.objects[o]])
      && (reply.ok ==> Emptied(r.objects[o], reply.reg.objects[o], Only(ev)))
      && (reply.ok ==> forall t :: ParkedIn(reply.reg, t) + WaitsAt(r.objects[o], ev, t) == ParkedIn(r, t))
  {
    hide Agrees, Forget, KernelAgrees, Parked;
    if r.objects[o].events.Has(ev) {
      var c := Forget(r.objects[o], ev);
      ForgetAgrees(r.objects[o], ev);
      ArmedHasNoRival(r, o);
      ReplaceObject(r, o, c);
      forall t ensures Count(r.objects[o := c], Parked, t) + WaitsAt(r.objects[o], ev, t) == ParkedIn(r, t) {
        CountUpdate(r.objects, o, c, Parked, t);
        ForgetParks(r.objects[o], ev, t);
      }
    }
  }

  lemma ForgetAgrees(c: FdContext, ev: Event)
    requires Agrees(c) && c.events.Has(ev)
    ensures var a := Forget(c, ev);
      Agrees(a) && Emptied(c, a, Only(ev)) && Armed(a, ALL) == Armed(c, ALL) - 1
  {
  }

  lemma ForgetParks(c: FdContext, ev: Event, t: Task)
    ensures Parked(Forget(c, ev), t) + WaitsAt(c, ev, t) == Parked(c, t)
  {
  }

  lemma Untouched(r: Registry, ok: bool)
    requires Consistent(r)
    ensures Sound(r, Reply(r, [], ok))
  {
    forall t ensures Moves(r, Reply(r, [], ok), t) {
      assert Count([], SameTask, t) == 0;
    }
  }

  lemma CancelKeeps(r: Registry, o: nat, ev: Event, accept: bool)
    requires Consistent(r) && o < |r.objects|
    ensures var reply := CancelEvent(r, o, ev, accept);
      && Sound(r, reply)
      && (reply.ok <==> accept && r.objects[o].events.Has(ev))
      && (reply.ok ==> HandsOver(r, reply, o, Only(ev)))
      && (!reply.ok ==> reply.reg == r && reply.woken == [])
  {
    hide Fire, Consistent;
    Untouched(r, false);
    if r.objects[o].events.Has(ev) {
      ArmedHasNoRival(r, o);
      FireKeeps(r, o, Only(ev));
    }
  }

  lemma CancelAllKeeps(r: Registry, o: nat, accept: bool)
    requires Consistent(r) && o < |r.objects|
    ensures var reply := CancelAll(r, o, accept);
      && Sound(r, reply)
      && (reply.ok <==> accept && r.objects[o].events != NONE)
      && (reply.ok ==> HandsOver(r, reply, o, r.objects[o].events))
      && (!reply.ok ==> reply.reg == r && reply.woken == [])
  {
    hide Fire, Consistent;
    Untouched(r, false);
    if r.objects[o].events != NONE {
      ArmedHasNoRival(r, o);
      FireKeeps(r, o, r.objects[o].events);
    }
  }

  /** The report names an armed event and an event that is not armed. */
  predicate Overreports(armed: Mask, reported: Mask, error: bool) {
    !reported.Within(armed) && (armed.And(reported) != NONE || (error && armed != NONE))
  }

  /**
   A report breaks the assertion of triggerEvent exactly when it overreports and the kernel accepts the request. Every
   other accepted report hands over the waiters of the armed events it names, or of all armed events if it is an error;
   without such an event, or refused, it changes nothing.
   */
  lemma DeliverExactly(r: Registry, o: nat, reported: Mask, error: bool, accept: bool)
    requires Consistent(r) && o < |r.objects|
    ensures var reply := Deliver(r, o, reported, error, accept);
      && (reply.Broken? <==> accept && Overreports(r.objects[o].events, reported, error))
      && (reply.Broken? ==> reply.site == TRIGGER_UNARMED)
      && (!reply.Broken? ==> Sound(r, reply) && reply.ok)
      && var hit := if error then r.objects[o].events else r.objects[o].events.And(reported);
      && (!reply.Broken? && accept && hit != NONE ==> HandsOver(r, reply, o, hit))
      && (!reply.Broken? && !(accept && hit != NONE) ==> reply.reg == r && reply.woken == [])
  {
    hide Consistent, Sound;
    var c := r.objects[o];
    var fired := RealEvents(c, reported, error);
    Untouched(r, true);
    if c.events.And(fired) != NONE {
      ArmedHasNoRival(r, o);
      if fired.Within(c.events) { FireKeeps(r, o, fired); }
    }
  }

  // ---- the size of the table ----

  function GrownSize(fd: nat): nat {
    fd * 3 / 2
  }

  /** Whatever the new size: no waiter and no registration is lost, and the counter stays right. */
  lemma ResizeKeeps(r: Registry, size: nat)
    requires Consistent(r) && INITIAL_SIZE <= size
    ensures var r' := Resize(r, size);
      && Consistent(r') && |r'.table| == size && r'.kernel == r.kernel && r'.pending == r.pending
      && r.objects <= r'.objects && forall t :: ParkedIn(r', t) == ParkedIn(r, t)
  {
    var r' := Resize(r, size);
    if size > |r.table| {
      var extra := FreshObjects(|r.table|, size - |r.table|);
      CountConcat(r.objects, extra, Armed, ALL);
      CountNothing(extra, Armed, ALL);
      forall t ensures ParkedIn(r', t) == ParkedIn(r, t) {
        CountConcat(r.objects, extra, Parked, t);
        CountNothing(extra, Parked, t);
      }
      forall o | 0 <= o < |r'.objects| ensures Known(r', o) { assert o < |r.objects| ==> Known(r, o); }
      forall fd | fd in r'.kernel ensures Pointed(r', fd) { assert Pointed(r, fd); }
    } else {
      forall o | 0 <= o < |r'.objects| ensures Known(r', o) { assert Known(r, o); }
      forall fd | fd in r'.kernel ensures Pointed(r', fd) { assert Pointed(r, fd); }
    }
  }

  /** Growing for a descriptor beyond the table reaches it, with new objects for all the new descriptors. */
  lemma GrowReaches(r: Registry, fd: nat)
    requires Consistent(r) && |r.table| <= fd
    ensures var r' := Resize(r, GrownSize(fd));
      && fd < |r'.table| && 2 * |r'.table| <= 3 * fd < 2 * |r'.table| + 2 && r'.table[..|r.table|] == r.table
      && r'.objects[..|r.objects|] == r.objects && r'.kernel == r.kernel && r'.pending == r.pending
      && |r'.objects| - |r.objects| == |r'.table| - |r.table|
      && forall i :: |r.table| <= i < |r'.table| ==> r'.table[i] >= |r.objects| && r'.objects[r'.table[i]] == Fresh(i)
  {
  }

  /** Every armed object is the one its descriptor is looked up as. */
  ghost predicate Reachable(r: Registry) {
    forall o :: 0 <= o < |r.objects| && r.objects[o].events != NONE ==> Find(r, r.objects[o].fd) == Some(o)
  }

  /**
   Two threads can both find the table too small; the one that locks last then resizes for its own descriptor, to
   fewer entries. Look-ups still find every armed object exactly when no dropped descriptor has an armed event.
   */
  lemma ShrinkExactly(r: Registry, size: nat)
    requires Consistent(r) && Reachable(r) && size <= |r.table|
    ensures Reachable(Resize(r, size)) <==> forall fd :: size <= fd < |r.table| ==> r.objects[r.table[fd]].events == NONE
  {
    var r' := Resize(r, size);
    if Reachable(r') {
      forall fd | size <= fd < |r.table| ensures r.objects[r.table[fd]].events == NONE {
        var p := r.table[fd];
        assert Find(r', r.objects[p].fd) != Some(p);
      }
    } else {
      var o :| 0 <= o < |r.objects| && r.objects[o].events != NONE && Find(r', r.objects[o].fd) != Some(o);
      assert Find(r, r.objects[o].fd) == Some(o);
    }
  }

  /**
   An armed object that its descriptor no longer finds: whoever looks the descriptor up finds an object with nothing
   armed, cannot delete or cancel through it, and is refused when arming it.
   */
  lemma LookupsMiss(r: Registry, o: nat, p: nat, ev: Event, who: Task, accept: bool)
    requires Consistent(r) && o < |r.objects| && r.objects[o].events != NONE
    requires Find(r, r.objects[o].fd) == Some(p) && p != o
    ensures p < |r.objects| && r.objects[p].events == NONE
    ensures DelEvent(r, p, ev, accept) == CancelEvent(r, p, ev, accept) == CancelAll(r, p, accept) == Reply(r, [], false)
    ensures AddEvent(r, p, ev, who, accept) == Reply(r, [], false)
  {
    ArmedHasNoRival(r, o);
    assert Known(r, p);
    AddKeeps(r, p, ev, who, accept);
  }

  /** A report finds an armed object by the kernel's pointer, looked up or not, and wakes its waiter. */
  lemma ReportsFind(r: Registry, o: nat, ev: Event)
    requires Consistent(r) && o < |r.objects| && r.objects[o].events.Has(ev)
    ensures r.objects[o].fd in r.kernel && r.kernel[r.objects[o].fd].ctx == o
    ensures var reply := Deliver(r, o, Only(ev), false, true);
      && reply.Reply? && Sound(r, reply) && HandsOver(r, reply, o, Only(ev)) && reply.reg.pending == r.pending - 1
      && Occupied(GetContext(r.objects[o], ev)) && reply.woken == [TheWaiter(GetContext(r.objects[o], ev))]
  {
    hide KernelAgrees, Sound;
    ArmedHasNoRival(r, o);
    DeliverExactly(r, o, Only(ev), false, true);
    FireKeeps(r, o, Only(ev));
  }

  lemma KernelWithin(a: Registry, b: Registry)
    requires Consistent(a) && Consistent(b) && a.objects == b.objects
    ensures forall fd :: fd in a.kernel ==> fd in b.kernel && a.kernel[fd] == b.kernel[fd]
  {
    hide Agrees;
    forall fd | fd in a.kernel ensures fd in b.kernel && a.kernel[fd] == b.kernel[fd] {
      assert Pointed(a, fd);
      assert Known(b, a.kernel[fd].ctx);
    }
  }

  /** In a consistent registry the kernel's table and the counter follow from the objects. */
  lemma ObjectsDecide(a: Registry, b: Registry)
    requires Consistent(a) && Consistent(b) && a.objects == b.objects && a.table == b.table
    ensures a == b
  {
    KernelWithin(a, b);
    KernelWithin(b, a);
    hide KernelAgrees, Agrees;
    assert a.kernel == b.kernel;
  }

  lemma Refilled(c: FdContext, c': FdContext, c'': FdContext, ev: Event, who: Task)
    requires Agrees(c) && !c.events.Has(ev) && Occupies(c, c', ev, who) && Emptied(c', c'', Only(ev))
    ensures c'' == c
  {
  }

  /** In any state at all: which asserts the operations on one object meet. */
  lemma OperationsAssertExactly(r: Registry, o: nat, ev: Event, who: Task, accept: bool)
    requires o < |r.objects|
    ensures var c, reply := r.objects[o], AddEvent(r, o, ev, who, accept);
      && var busy := GetContext(c, ev) != EMPTY && accept && (c.events == NONE <==> c.fd !in r.kernel);
      && (reply.Broken? <==> c.events.Has(ev) || busy)
      && (reply.Broken? ==> reply.site == if c.events.Has(ev) then ARM_TWICE else CONTEXT_BUSY)
    ensures DelEvent(r, o, ev, accept).Reply? && CancelEvent(r, o, ev, accept).Reply? && CancelAll(r, o, accept).Reply?
    ensures forall evs: Mask :: TriggerMask(r.objects[o], evs).Unarmed? <==> !evs.Within(r.objects[o].events)
  {
  }

  /** Arming and then cancelling or deleting the event leaves everything as it was; only the cancel wakes the waiter. */
  lemma ArmedAndUndone(r: Registry, o: nat, ev: Event, who: Task)
    requires Consistent(r) && o < |r.objects| && !r.objects[o].events.Has(ev) && NoRival(r, o)
    ensures var a := AddEvent(r, o, ev, who, true);
      a.Reply? && a.ok && |a.reg.objects| == |r.objects| && CancelEvent(a.reg, o, ev, true) == Reply(r, [who], true)
      && DelEvent(a.reg, o, ev, true) == Reply(r, [], true)
  {
    assert Agrees(r.objects[o]);
    hide AddEvent, CancelEvent, DelEvent, Consistent, Agrees;
    AddKeeps(r, o, ev, who, true);
    var a := AddEvent(r, o, ev, who, true).reg;
    CancelKeeps(a, o, ev, true);
    DelKeeps(a, o, ev, true);
    var c, d := CancelEvent(a, o, ev, true).reg, DelEvent(a, o, ev, true).reg;
    Refilled(r.objects[o], a.objects[o], c.objects[o], ev, who);
    Refilled(r.objects[o], a.objects[o], d.objects[o], ev, who);
    assert c.objects == r.objects && d.objects == r.objects;
    ObjectsDecide(c, r);
    ObjectsDecide(d, r);
  }

  /** The descriptor table of a new IOManager. */
  function NewRegistry(): Registry {
    Registry(FreshObjects(0, INITIAL_SIZE), Numbers(0, INITIAL_SIZE), map[], 0)
  }

  lemma UnarmedIsConsistent(r: Registry)
    requires INITIAL_SIZE <= |r.table| == |r.objects| && r.kernel == map[] && r.pending == 0
    requires forall i :: 0 <= i < |r.table| ==> r.objects[i] == Fresh(i) && r.table[i] == i
    ensures Consistent(r) && Reachable(r) && forall t :: ParkedIn(r, t) == 0
  {
    CountNothing(r.objects, Armed, ALL);
    forall t ensures ParkedIn(r, t) == 0 { CountNothing(r.objects, Parked, t); }
  }

  lemma NewIsConsistent()
    ensures Consistent(NewRegistry()) && Reachable(NewRegistry()) && forall t :: ParkedIn(NewRegistry(), t) == 0
  {
    hide Consistent, Reachable, ParkedIn, FreshObjects, Numbers;
    UnarmedIsConsistent(NewRegistry());
  }

  /**
   The race happens: from a new table, one thread grows for descriptor `fd` and arms it for fiber `f`, and a second
   thread that had also seen 32 entries resizes for a smaller descriptor. The first one is not found any more; fiber
   `f` is still parked and counted, and a report wakes it all the same; grown again, the descriptor cannot be armed.
   For example with 1000 and 40.
   */
  lemma ShrinkRace(fd: nat, other: nat, f: nat, g: nat)
    returns (o: nat, armed: Registry, raced: Registry, regrown: Registry, p: nat)
    requires INITIAL_SIZE <= other && GrownSize(other) <= fd
    ensures var big := Resize(NewRegistry(), GrownSize(fd));
      Find(big, fd) == Some(o) && o < |big.objects| && AddEvent(big, o, READ, Fib(f), true) == Reply(armed, [], true)
    ensures raced == Resize(armed, GrownSize(other)) && Find(raced, fd) == None
    ensures ParkedIn(raced, Fib(f)) == 1 && raced.pending == 1 && o < |raced.objects|
    ensures var report := Deliver(raced, o, Only(READ), false, true);
      report.Reply? && report.woken == [Fib(f)] && report.reg.pending == 0
    ensures regrown == Resize(raced, GrownSize(fd)) && Find(regrown, fd) == Some(p) && p < |regrown.objects|
    ensures AddEvent(regrown, p, READ, Fib(g), true) == Reply(regrown, [], false)
  {
    hide Deliver, Sound, Consistent, ParkedIn, Resize, NewRegistry, AddEvent, WaitsAt, GrownSize;
    var big, size := Resize(NewRegistry(), GrownSize(fd)), GrownSize(other);
    GrownEnough(other);
    o := GrownFromNew(fd);
    armed, raced := ArmAndCut(big, o, fd, Fib(f), size);
    ReportsFind(raced, o, READ);
    regrown, p := Regrown(raced, fd, o);
    LookupsMiss(regrown, o, p, READ, Fib(g), true);
  }

  lemma GrownEnough(fd: nat)
    ensures GrownSize(fd) >= fd
  {
  }

  lemma GrownFromNew(fd: nat) returns (o: nat)
    requires INITIAL_SIZE <= fd
    ensures var big := Resize(NewRegistry(), GrownSize(fd));
      && Consistent(big) && fd < |big.table| && Find(big, fd) == Some(o) && o < |big.objects| && big.objects[o] == Fresh(fd)
      && big.kernel == map[] && big.pending == 0 && forall t :: ParkedIn(big, t) == 0
  {
    hide Consistent, ParkedIn, FreshObjects, Numbers;
    var first := NewRegistry();
    NewIsConsistent();
    GrownEnough(fd);
    ResizeKeeps(first, GrownSize(fd));
    GrowReaches(first, fd);
    o := Resize(first, GrownSize(fd)).table[fd];
    TableFits(Resize(first, GrownSize(fd)), fd);
  }

  lemma TableFits(r: Registry, fd: nat)
    requires Consistent(r) && fd < |r.table|
    ensures r.table[fd] < |r.objects|
  {
  }

  /** Growing again makes a new object for a descriptor that was cut off. */
  lemma Regrown(r: Registry, fd: nat, o: nat) returns (regrown: Registry, p: nat)
    requires Consistent(r) && |r.table| <= fd && o < |r.objects|
    ensures regrown == Resize(r, GrownSize(fd)) && Consistent(regrown) && |regrown.objects| >= |r.objects|
    ensures Find(regrown, fd) == Some(p) && p < |regrown.objects| && p != o && regrown.objects[o] == r.objects[o]
  {
    hide Consistent, ParkedIn, FreshObjects;
    GrownEnough(fd);
    TableLarge(r);
    ResizeKeeps(r, GrownSize(fd));
    GrowReaches(r, fd);
    regrown := Resize(r, GrownSize(fd));
    p := regrown.table[fd];
    TableFits(regrown, fd);
  }

  lemma TableLarge(r: Registry)
    requires Consistent(r)
    ensures INITIAL_SIZE <= |r.table|
  {
  }

  lemma ArmAndCut(big: Registry, o: nat, fd: nat, who: Task, size: nat) returns (armed: Registry, raced: Registry)
    requires Consistent(big) && o < |big.objects| && big.objects[o] == Fresh(fd) && fd !in big.kernel
    requires INITIAL_SIZE <= size <= fd < |big.table|
    ensures AddEvent(big, o, READ, who, true) == Reply(armed, [], true) && raced == Resize(armed, size)
    ensures Consistent(raced) && Find(raced, fd) == None && raced.pending == big.pending + 1
    ensures |raced.objects| == |big.objects| && |raced.table| == size
    ensures raced.objects[o].events.Has(READ) && raced.objects[o].fd == fd
    ensures Occupied(raced.objects[o].read) && TheWaiter(raced.objects[o].read) == who
    ensures ParkedIn(raced, who) == ParkedIn(big, who) + 1
  {
    hide KernelAgrees, Parked;
    AddKeeps(big, o, READ, who, true);
    armed := AddEvent(big, o, READ, who, true).reg;
    ResizeKeeps(armed, size);
    raced := Resize(armed, size);
  }
}
