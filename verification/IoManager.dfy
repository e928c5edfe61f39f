/**
 IOManager's event methods on descriptor objects updated in place. A look-up yields an object; the critical section on
 it is proved against the function of EventRegistry that describes it.
 */
module IoManager {
  import opened Sums
  import opened Wrappers
  import opened EventRegistry

  /** One FdContext object; `id` numbers the objects in the order they were made. */
  class Descriptor {
    const fd: nat
    ghost const id: nat
    var events: Mask
    var read: EventContext
    var write: EventContext

    constructor (fd: nat, ghost id: nat)
      ensures View() == Fresh(fd) && this.fd == fd && this.id == id
    {
      this.fd, this.id := fd, id;
      events, read, write := NONE, EMPTY, EMPTY;
    }

    ghost function View(): FdContext
      reads this
    {
      FdContext(fd, events, read, write)
    }

    /** False when the event is not armed, where the source asserts. */
    method Trigger(ev: Event) returns (armed: bool, woken: seq<Task>)
      modifies this
      ensures armed <==> TriggerEvent(old(View()), ev).Triggered?
      ensures armed ==> TriggerEvent(old(View()), ev) == Triggered(View(), woken)
      ensures !armed ==> View() == old(View())
      ensures armed && old(Agrees(View())) ==> Emptied(old(View()), View(), Only(ev)) && woken == Waiters(old(View()), Only(ev))
    {
      armed, woken := events.Has(ev), [];
      if !armed { return; }
      events := events.Minus(Only(ev));
      var ctx := if ev.READ? then read else write;
      if ctx.cb.Some? {
        woken := [Call(ctx.cb.value)];
        ctx := ctx.(cb := None);
      } else {
        if ctx.fiber.Some? { woken := [Fib(ctx.fiber.value)]; }
        ctx := ctx.(fiber := None);
      }
      ctx := ctx.(scheduler := false);
      if ev.READ? { read := ctx; } else { write := ctx; }
    }
  }

  /** What epoll holds for a descriptor: the pointer and the mask it was given. */
  datatype Interest = Interest(ctx: Descriptor, mask: Mask)

  datatype Outcome = Returned(ok: bool) | Aborted(site: Site)

  /** An event epoll_wait returned, with the pointer epoll holds, and the kernel's answer when it is re-armed. */
  datatype Report = Report(ctx: Descriptor, reported: Mask, error: bool, accept: bool)

  /** The same with the object's number. */
  datatype Notice = Notice(o: nat, reported: Mask, error: bool, accept: bool)

  ghost function Notices(reports: seq<Report>): (ns: seq<Notice>)
    ensures |ns| == |reports|
  {
    seq(|reports|, i requires 0 <= i < |reports| =>
      Notice(reports[i].ctx.id, reports[i].reported, reports[i].error, reports[i].accept))
  }

  /** The delivery loop as a fold: what is woken accumulates, and a failed assertion ends it. */
  function DeliverAll(r: Registry, reports: seq<Notice>): Reply
    decreases |reports|
  {
    if reports == [] then Reply(r, [], true) else
    var first := reports[0];
    if first.o >= |r.objects| then Reply(r, [], false) else
    var reply := Deliver(r, first.o, first.reported, first.error, first.accept);
    if reply.Broken? then reply else
    Prepend(reply.woken, DeliverAll(reply.reg, reports[1..]))
  }

  lemma NoNotices(r: Registry)
    ensures DeliverAll(r, []) == Reply(r, [], true)
  {
  }

  lemma NoticeAt(reports: seq<Report>, i: nat)
    requires i < |reports|
    ensures Notices(reports)[i] == Notice(reports[i].ctx.id, reports[i].reported, reports[i].error, reports[i].accept)
  {
  }

  /** One round of the fold. */
  lemma FirstNotice(r: Registry, ns: seq<Notice>, i: nat)
    requires i < |ns| && ns[i].o < |r.objects|
    ensures var reply := Deliver(r, ns[i].o, ns[i].reported, ns[i].error, ns[i].accept);
      DeliverAll(r, ns[i..]) == if reply.Broken? then reply else Prepend(reply.woken, DeliverAll(reply.reg, ns[i + 1..]))
  {
    assert ns[i..][0] == ns[i] && ns[i..][1..] == ns[i + 1..];
  }

  class IOManager {
    var contexts: seq<Descriptor>
    var pending: int
    /** The tasks handed to the scheduler so far. */
    var scheduled: seq<Task>
    /** epoll's own table. */
    var kernel: map<nat, Interest>
    /** Every descriptor object ever made. */
    ghost var objects: seq<Descriptor>

    ghost predicate Owns(d: Descriptor)
      reads this`objects
    {
      d.id < |objects| && objects[d.id] == d
    }

    ghost predicate Valid()
      reads this`contexts, this`objects, this`kernel
    {
      && INITIAL_SIZE <= |contexts| && Numbered()
    }

    ghost predicate Numbered()
      reads this`contexts, this`objects, this`kernel
    {
      && (forall i :: 0 <= i < |objects| ==> objects[i].id == i)
      && (forall i :: 0 <= i < |contexts| ==> Owns(contexts[i]) && contexts[i].fd == i)
      && (forall n :: n in kernel ==> Owns(kernel[n].ctx))
    }

    ghost function Objects(): (r: seq<FdContext>)
      reads this`objects, objects
      ensures |r| == |objects|
    {
      var os := objects;
      seq(|os|, i requires 0 <= i < |os| reads os => os[i].View())
    }

    ghost function Table(): (r: seq<nat>)
      reads this`contexts
      ensures |r| == |contexts|
    {
      var cs := contexts;
      seq(|cs|, i requires 0 <= i < |cs| => cs[i].id)
    }

    ghost function Kernel(): map<nat, Registration>
      reads this`kernel
    {
      map n | n in kernel :: Registration(kernel[n].ctx.id, kernel[n].mask)
    }

    ghost function View(): Registry
      reads this`objects, this`contexts, this`kernel, this`pending, objects
    {
      Registry(Objects(), Table(), Kernel(), pending)
    }

    constructor ()
      ensures Valid() && fresh(objects) && scheduled == [] && View() == NewRegistry()
    {
      contexts, pending, scheduled, kernel, objects := [], 0, [], map[], [];
      new;
      ContextResize(INITIAL_SIZE);
      assert objects[0..] == objects;
      assert View().objects == FreshObjects(0, INITIAL_SIZE) && View().table == Numbers(0, INITIAL_SIZE);
      assert View().kernel == map[];
    }

    /** One new object at the end of the table. */
    method AddContext()
      requires Numbered()
      modifies this`contexts, this`objects
      ensures Numbered() && |contexts| == |old(contexts)| + 1 && |objects| == |old(objects)| + 1
      ensures objects == old(objects) + [contexts[|old(contexts)|]] && fresh(objects[|old(objects)|])
      ensures Objects() == old(Objects()) + [Fresh(|old(contexts)|)] && Table() == old(Table()) + [|old(objects)|]
    {
      var d := new Descriptor(|contexts|, |objects|);
      contexts, objects := contexts + [d], objects + [d];
    }

    static lemma OneMore(n: nat, i: nat, m: nat, r: Registry)
      ensures r.objects + FreshObjects(n, i + 1) == r.objects + FreshObjects(n, i) + [Fresh(n + i)]
      ensures r.table + Numbers(m, i + 1) == r.table + Numbers(m, i) + [m + i]
    {
    }

    /** Grows or cuts the table; new entries are fresh objects, and objects that are cut off stay. */
    method ContextResize(size: nat)
      requires Numbered()
      modifies this`contexts, this`objects
      ensures Numbered() && |contexts| == size
      ensures old(objects) <= objects && fresh(objects[|old(objects)|..])
      ensures View() == Resize(old(View()), size)
    {
      if size <= |contexts| {
        contexts := contexts[..size];
        assert View().table == Resize(old(View()), size).table;
      } else {
        Extend(size);
      }
    }

    method Extend(size: nat)
      requires Numbered() && |contexts| < size
      modifies this`contexts, this`objects
      ensures Numbered() && |contexts| == size
      ensures old(objects) <= objects && fresh(objects[|old(objects)|..])
      ensures View() == Resize(old(View()), size)
    {
      hide Objects, Table, Kernel, FreshObjects, Numbers;
      ghost var n, m, r := |contexts|, |objects|, View();
      ghost var i := 0;
      while |contexts| < size
        invariant Numbered() && |contexts| == n + i <= size && |objects| == m + i && kernel == old(kernel)
        invariant old(objects) <= objects && fresh(objects[m..])
        invariant Objects() == r.objects + FreshObjects(n, i) && Table() == r.table + Numbers(m, i)
        decreases size - |contexts|
      {
        ghost var was := objects;
        AddContext();
        assert objects[m..] == was[m..] + [objects[m + i]];
        OneMore(n, i, m, r);
        i := i + 1;
      }
      assert Kernel() == r.kernel;
    }

    /** One object changed, and nothing of the tables but what the kernel was told. */
    twostate lemma OneChanged(d: Descriptor)
      requires old(Numbered()) && old(Owns(d)) && objects == old(objects) && contexts == old(contexts)
      requires forall x :: x in objects && x != d ==> x.View() == old(x.View())
      ensures View() == Registry(old(View().objects)[d.id := d.View()], old(View().table), Kernel(), pending)
    {
      assert Objects() == old(Objects())[d.id := d.View()];
    }

    /** epoll_ctl: refused when the kernel or its record of the descriptor says so. */
    method EpollCtl(op: Op, ctx: Descriptor, mask: Mask, accept: bool) returns (done: bool)
      requires Numbered() && Owns(ctx)
      modifies this`kernel
      ensures Numbered() && (done <==> accept && Legal(old(Kernel()), ctx.fd, op))
      ensures Kernel() == if done then Apply(old(Kernel()), ctx.fd, op, Registration(ctx.id, mask)) else old(Kernel())
    {
      done := accept && (op.ADD? <==> ctx.fd !in kernel);
      if done {
        kernel := if op.DEL? then kernel - {ctx.fd} else kernel[ctx.fd := Interest(ctx, mask)];
        assert Kernel() == Apply(old(Kernel()), ctx.fd, op, Registration(ctx.id, mask));
      }
    }

    /** Triggers READ and then WRITE as far as they are in `evs`. */
    method Fire(ctx: Descriptor, evs: Mask) returns (outcome: Outcome)
      modifies this`pending, this`scheduled, ctx
      ensures var t := TriggerMask(old(ctx.View()), evs);
        match outcome
        case Aborted(site) => t.Unarmed? && site == TRIGGER_UNARMED
        case Returned(ok) => ok && old(scheduled) <= scheduled && pending == old(pending) - evs.Bits()
                             && t == Triggered(ctx.View(), scheduled[|old(scheduled)|..])
    {
      if evs.read {
        var armed, woken := ctx.Trigger(READ);
        if !armed { return Aborted(TRIGGER_UNARMED); }
        scheduled, pending := scheduled + woken, pending - 1;
      }
      if evs.write {
        var armed, woken := ctx.Trigger(WRITE);
        if !armed { return Aborted(TRIGGER_UNARMED); }
        scheduled, pending := scheduled + woken, pending - 1;
      }
      return Returned(true);
    }

    /** The outcome of a method is the reply of the registry: new state, woken tasks and answer. */
    twostate predicate Answers(reply: Reply, outcome: Outcome)
      reads this, objects
    {
      match reply
      case Broken(site) => outcome == Aborted(site)
      case Reply(reg, woken, ok) =>
        outcome == Returned(ok) && View() == reg && scheduled == old(scheduled) + woken
    }

    /** The first critical section of addEvent: the object of a descriptor, after growing the table if need be. */
    method Lookup(fd: nat) returns (ctx: Descriptor)
      requires Valid()
      modifies this`contexts, this`objects
      ensures Valid() && Owns(ctx) && old(objects) <= objects && fresh(objects[|old(objects)|..])
      ensures View() == (if fd < |old(contexts)| then old(View()) else Resize(old(View()), GrownSize(fd)))
      ensures Find(View(), fd) == Some(ctx.id)
    {
      if fd >= |contexts| { ContextResize(GrownSize(fd)); }
      ctx := contexts[fd];
    }

    /** The second: the event is armed on an object found before. */
    method AddEvent(ctx: Descriptor, ev: Event, who: Task, accept: bool) returns (outcome: Outcome)
      requires Valid() && Owns(ctx)
      modifies this`kernel, this`pending, ctx
      ensures Valid() && Answers(EventRegistry.AddEvent(old(View()), ctx.id, ev, who, accept), outcome)
    {
      hide Table, Kernel, Apply;
      if ctx.events.Has(ev) { return Aborted(ARM_TWICE); }
      var done := EpollCtl(if ctx.events != NONE then MOD else ADD, ctx, ctx.events.With(ev), accept);
      if !done {
        OneChanged(ctx);
        return Returned(false);
      }
      if (if ev.READ? then ctx.read else ctx.write) != EMPTY { return Aborted(CONTEXT_BUSY); }
      pending := pending + 1;
      ctx.events := ctx.events.With(ev);
      var waiter := match who case Fib(f) => EventContext(true, Some(f), None)
                              case Call(c) => EventContext(true, None, Some(c));
      if ev.READ? { ctx.read := waiter; } else { ctx.write := waiter; }
      OneChanged(ctx);
      return Returned(true);
    }

    method DelEvent(ctx: Descriptor, ev: Event, accept: bool) returns (outcome: Outcome)
      requires Valid() && Owns(ctx)
      modifies this`kernel, this`pending, ctx
      ensures Valid() && Answers(EventRegistry.DelEvent(old(View()), ctx.id, ev, accept), outcome)
    {
      hide Table, Kernel, Apply;
      if !ctx.events.Has(ev) { return Returned(false); }
      var left := ctx.events.Minus(Only(ev));
      var done := EpollCtl(if left != NONE then MOD else DEL, ctx, left, accept);
      if !done {
        OneChanged(ctx);
        return Returned(false);
      }
      pending := pending - 1;
      ctx.events := left;
      if ev.READ? { ctx.read := EMPTY; } else { ctx.write := EMPTY; }
      OneChanged(ctx);
      return Returned(true);
    }

    method CancelEvent(ctx: Descriptor, ev: Event, accept: bool) returns (outcome: Outcome)
      requires Valid() && Owns(ctx)
      modifies this`kernel, this`pending, this`scheduled, ctx
      ensures Valid() && Answers(EventRegistry.CancelEvent(old(View()), ctx.id, ev, accept), outcome)
    {
      hide Table, Kernel, Apply, TriggerMask, TriggerEvent;
      if !ctx.events.Has(ev) { return Returned(false); }
      var left := ctx.events.Minus(Only(ev));
      var done := EpollCtl(if left != NONE then MOD else DEL, ctx, left, accept);
      if !done {
        OneChanged(ctx);
        return Returned(false);
      }
      outcome := Fire(ctx, Only(ev));
      OneChanged(ctx);
    }

    method CancelAll(ctx: Descriptor, accept: bool) returns (outcome: Outcome)
      requires Valid() && Owns(ctx)
      modifies this`kernel, this`pending, this`scheduled, ctx
      ensures Valid() && Answers(EventRegistry.CancelAll(old(View()), ctx.id, accept), outcome)
    {
      if ctx.events == NONE { return Returned(false); }
      var done := EpollCtl(DEL, ctx, NONE, accept);
      if !done {
        OneChanged(ctx);
        return Returned(false);
      }
      outcome := Fire(ctx, ctx.events);
      OneChanged(ctx);
      if outcome.Returned? && ctx.events != NONE { return Aborted(EVENTS_LEFT); }
    }

    /** One pass of the delivery loop, on the object epoll points to. */
    method DeliverEvent(rep: Report) returns (outcome: Outcome)
      requires Valid() && Owns(rep.ctx)
      modifies this`kernel, this`pending, this`scheduled, rep.ctx
      ensures Valid() && Answers(Deliver(old(View()), rep.ctx.id, rep.reported, rep.error, rep.accept), outcome)
    {
      var ctx := rep.ctx;
      var fired := rep.reported;
      if rep.error { fired := fired.Or(ctx.events); }
      if ctx.events.And(fired) == NONE { return Returned(true); }
      var left := ctx.events.Minus(fired);
      var done := EpollCtl(if left != NONE then MOD else DEL, ctx, left, rep.accept);
      if !done {
        OneChanged(ctx);
        return Returned(true);
      }
      outcome := Fire(ctx, fired);
      OneChanged(ctx);
    }

    /** The loop over everything epoll_wait returned. */
    method DeliverEvents(reports: seq<Report>) returns (outcome: Outcome)
      requires Valid() && forall k :: 0 <= k < |reports| ==> Owns(reports[k].ctx)
      modifies this, objects
      ensures Valid() && Answers(DeliverAll(old(View()), Notices(reports)), outcome)
    {
      hide Deliver, DeliverAll, Notices;
      ghost var ns := Notices(reports);
      NoNotices(View());
      ghost var r0, before := View(), scheduled;
      for i := 0 to |reports|
        invariant Valid() && objects == old(objects) && before <= scheduled
        invariant DeliverAll(r0, ns) == Prepend(scheduled[|before|..], DeliverAll(View(), ns[i..]))
      {
        ghost var r1, was := View(), scheduled;
        NoticeAt(reports, i);
        FirstNotice(r1, ns, i);
        outcome := DeliverEvent(reports[i]);
        if outcome.Aborted? { return; }
        assert was + Deliver(r1, ns[i].o, ns[i].reported, ns[i].error, ns[i].accept).woken == scheduled;
        PrependTwice(was[|before|..], scheduled[|was|..], DeliverAll(View(), ns[i + 1..]));
        assert was[|before|..] + scheduled[|was|..] == scheduled[|before|..];
      }
      assert ns[|reports|..] == [];
      NoNotices(View());
      assert before + scheduled[|before|..] == scheduled;
      return Returned(true);
    }
  }

  function Prepend(woken: seq<Task>, reply: Reply): Reply {
    if reply.Broken? then reply else reply.(woken := woken + reply.woken)
  }

  lemma PrependTwice(a: seq<Task>, b: seq<Task>, reply: Reply)
    ensures Prepend(a, Prepend(b, reply)) == Prepend(a + b, reply)
  {
    if reply.Reply? {
      assert a + (b + reply.woken) == a + b + reply.woken;
    }
  }

  /**
   The reports are handled one behind the other: the batch up to report `k` leaves the registry on which report `k` is
   handled, and what that wakes comes behind what the earlier ones woke; a failed assertion ends it.
   */
  lemma {:induction false} DeliverAllInOrder(r: Registry, reports: seq<Notice>, k: nat)
    requires k < |reports|
    ensures DeliverAll(r, []) == Reply(r, [], true)
    ensures var before, upTo := DeliverAll(r, reports[..k]), DeliverAll(r, reports[..k + 1]);
      && (before.Broken? ==> upTo == before)
      && (before.Reply? && before.ok && reports[k].o < |before.reg.objects| ==>
          (var reply := Deliver(before.reg, reports[k].o, reports[k].reported, reports[k].error, reports[k].accept);
           if reply.Broken? then upTo == reply
           else upTo == Reply(reply.reg, before.woken + reply.woken, true)))
    decreases k
  {
    hide Deliver;
    var first := reports[0];
    assert reports[..k + 1][0] == first && reports[..k + 1][1..] == reports[1..][..k];
    if k == 0 {
      assert reports[..0] == [] && reports[1..][..0] == [];
    } else {
      assert reports[..k][0] == first && reports[..k][1..] == reports[1..][..k - 1];
      if first.o < |r.objects| {
        var reply := Deliver(r, first.o, first.reported, first.error, first.accept);
        if reply.Reply? {
          DeliverAllInOrder(reply.reg, reports[1..], k - 1);
          assert reports[1..][k - 1] == reports[k];
        }
      }
    }
  }

  /** A whole delivery loop that breaks no assertion hands over each task it takes out of the objects, once. */
  lemma {:induction false} DeliverAllKeeps(r: Registry, reports: seq<Notice>)
    requires Consistent(r) && forall k :: 0 <= k < |reports| ==> reports[k].o < |r.objects|
    ensures DeliverAll(r, reports).Reply? ==> Sound(r, DeliverAll(r, reports))
    decreases |reports|
  {
    hide Consistent, Deliver;
    if reports == [] {
      Untouched(r, true);
    } else {
      var first := reports[0];
      DeliverExactly(r, first.o, first.reported, first.error, first.accept);
      var reply := Deliver(r, first.o, first.reported, first.error, first.accept);
      if reply.Reply? {
        DeliverAllKeeps(reply.reg, reports[1..]);
        var rest := DeliverAll(reply.reg, reports[1..]);
        if rest.Reply? {
          forall t ensures Moves(r, DeliverAll(r, reports), t) {
            assert Moves(r, reply, t) && Moves(reply.reg, rest, t);
            CountConcat(reply.woken, rest.woken, SameTask, t);
          }
        }
      }
    }
  }
}
