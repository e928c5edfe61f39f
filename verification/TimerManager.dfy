/**
 Timer and TimerManager as objects updated in place. The manager's ordered set is a sequence kept sorted; its
 lookups and insertions compare timers as the set's comparator does.
 */
module TimerManager {
  import opened Wrappers
  import TM = TimerModel

  /** `id` stands for the address of the object, the last resort of the comparator. */
  class TimerObject {
    const id: nat
    var recurring: bool
    var ms: nat
    var next: nat
    var cb: Option<nat>

    constructor (id: nat, start: nat, ms: nat, cb: Option<nat>, recurring: bool)
      ensures this.id == id && View() == TM.Timer(recurring, ms, TM.Add64(start, ms), cb)
    {
      this.id, this.recurring, this.ms, this.cb := id, recurring, ms, cb;
      next := TM.Add64(start, ms);
    }

    ghost function View(): TM.Timer
      reads this
    {
      TM.Timer(recurring, ms, next, cb)
    }
  }

  /** Timer::Comparator on a timer and a key. */
  predicate Less(t: TimerObject, next: nat, id: nat)
    reads t
  {
    t.next < next || (t.next == next && t.id < id)
  }

  ghost predicate Sorted(ts: seq<TimerObject>)
    reads ts
  {
    forall i, j :: 0 <= i < j < |ts| ==> Less(ts[i], ts[j].next, ts[j].id)
  }

  lemma SortedInsert(ts: seq<TimerObject>, p: nat, t: TimerObject)
    requires Sorted(ts) && p <= |ts|
    requires forall k :: 0 <= k < p ==> Less(ts[k], t.next, t.id)
    requires forall k :: p <= k < |ts| ==> !Less(ts[k], t.next, t.id) && ts[k].id != t.id
    ensures Sorted(ts[..p] + [t] + ts[p..])
  {
  }

  /** The addresses in a sequence of timers. */
  function Ids(ts: seq<TimerObject>): set<nat> {
    set k | 0 <= k < |ts| :: ts[k].id
  }

  lemma IdsInsert(ts: seq<TimerObject>, p: nat, t: TimerObject)
    requires p <= |ts|
    ensures Ids(ts[..p] + [t] + ts[p..]) == Ids(ts) + {t.id}
  {
    var ts' := ts[..p] + [t] + ts[p..];
    forall i | i in Ids(ts) ensures i in Ids(ts') {
      var k :| 0 <= k < |ts| && ts[k].id == i;
      assert (if k < p then ts'[k] else ts'[k + 1]).id == i;
    }
    assert ts'[p].id == t.id;
    forall i | i in Ids(ts') ensures i in Ids(ts) + {t.id} {
      var k :| 0 <= k < |ts'| && ts'[k].id == i;
      assert k < p ==> ts[k].id == i;
      assert k > p ==> ts[k - 1].id == i;
    }
  }

  lemma IdsConcat(a: seq<TimerObject>, b: seq<TimerObject>)
    ensures Ids(a + b) == Ids(a) + Ids(b)
  {
    forall i | i in Ids(a) + Ids(b) ensures i in Ids(a + b) {
      if i in Ids(a) {
        var k :| 0 <= k < |a| && a[k].id == i;
        assert (a + b)[k].id == i;
      } else {
        var k :| 0 <= k < |b| && b[k].id == i;
        assert (a + b)[|a| + k].id == i;
      }
    }
  }

  class Manager {
    var timers: seq<TimerObject>
    var tickled: bool
    var previous: nat
    var notified: nat
    /** Every timer object made so far, by address. */
    ghost var all: map<nat, TimerObject>

    ghost predicate Held(t: TimerObject)
      reads this
    {
      t.id in all && all[t.id] == t
    }

    /** The set is sorted and holds timers that were made by this manager. */
    ghost predicate Shape()
      reads this, all.Values, timers
    {
      && (forall i :: i in all ==> all[i].id == i)
      && (forall k :: 0 <= k < |timers| ==> Held(timers[k]))
      && Sorted(timers)
    }

    ghost function View(): TM.Timers
      reads this, all.Values
    {
      TM.Timers(map i | i in all :: all[i].View(), Ids(timers), tickled, previous, notified)
    }

    /** Moreover every timer that still has a callback is in the set. */
    ghost predicate Valid()
      reads this, all.Values, timers
    {
      Shape() && TM.Findable(View())
    }

    constructor (now: nat)
      ensures Valid() && View() == TM.Timers(map[], {}, false, now, 0) && all == map[]
    {
      timers, tickled, previous, notified := [], false, now, 0;
      all := map[];
    }

    /** std::set::lower_bound: the first timer that is not less than the key. */
    method LowerBound(next: nat, id: nat) returns (p: nat)
      requires Sorted(timers)
      ensures p <= |timers|
      ensures forall k :: 0 <= k < p ==> Less(timers[k], next, id)
      ensures forall k :: p <= k < |timers| ==> !Less(timers[k], next, id)
    {
      p := 0;
      while p < |timers| && Less(timers[p], next, id)
        invariant p <= |timers| && forall k :: 0 <= k < p ==> Less(timers[k], next, id)
      {
        p := p + 1;
      }
      if p < |timers| {
        forall k | p <= k < |timers| ensures !Less(timers[k], next, id) {
          assert k > p ==> Less(timers[p], timers[k].next, timers[k].id);
        }
      }
    }

    lemma InSet(t: TimerObject)
      requires Shape() && Held(t)
      ensures t in timers <==> t.id in Ids(timers)
    {
      if t.id in Ids(timers) {
        var k :| 0 <= k < |timers| && timers[k].id == t.id;
        assert Held(timers[k]);
      }
    }

    /** std::set::insert of a timer that is not in the set. */
    method InsertSorted(t: TimerObject) returns (p: nat)
      requires Shape() && Held(t) && t.id !in Ids(timers)
      modifies this`timers
      ensures p <= |old(timers)| && timers == old(timers)[..p] + [t] + old(timers)[p..]
      ensures Shape() && Ids(timers) == old(Ids(timers)) + {t.id}
    {
      p := LowerBound(t.next, t.id);
      ghost var ts := timers;
      assert forall k :: 0 <= k < |ts| ==> ts[k].id in Ids(ts);
      SortedInsert(ts, p, t);
      timers := timers[..p] + [t] + timers[p..];
      IdsInsert(ts, p, t);
    }

    /** std::set::find followed by erase: a timer that is in the set is found. */
    method Erase(t: TimerObject) returns (found: bool)
      requires Shape() && Held(t)
      modifies this`timers
      ensures found <==> t.id in old(Ids(timers))
      ensures Shape() && Ids(timers) == old(Ids(timers)) - {t.id}
    {
      InSet(t);
      var p := LowerBound(t.next, t.id);
      ghost var ts := timers;
      found := p < |timers| && !(t.next < timers[p].next || (t.next == timers[p].next && t.id < timers[p].id));
      if found {
        assert timers[p].id == t.id;
        timers := timers[..p] + timers[p + 1..];
        assert ts == ts[..p] + [ts[p]] + ts[p + 1..];
        IdsConcat(ts[..p], ts[p + 1..]);
        IdsInsert(ts[..p] + ts[p + 1..], p, t);
        assert (ts[..p] + ts[p + 1..])[..p] == ts[..p] && (ts[..p] + ts[p + 1..])[p..] == ts[p + 1..];
        forall k | 0 <= k < |timers| ensures timers[k].id != t.id {
          assert if k < p then Less(ts[k], ts[p].next, ts[p].id) else Less(ts[p], ts[k + 1].next, ts[k + 1].id);
          assert Held(timers[k]);
        }
      } else {
        assert forall k :: 0 <= k < |ts| ==> ts[k] != t;
      }
    }

    /** The front of the order is the first position of the sequence. */
    lemma FrontIs(p: nat)
      requires Shape() && p < |timers| && TM.WellFormed(View())
      ensures TM.IsFront(View(), timers[p].id) <==> p == 0
    {
      var v := View();
      if p == 0 {
        forall i | i in v.pending && i != timers[0].id ensures TM.Before(v.recs, timers[0].id, i) {
          var k :| 0 <= k < |timers| && timers[k].id == i;
          assert Held(timers[k]) && Held(timers[0]) && Less(timers[0], timers[k].next, timers[k].id);
        }
      } else {
        assert Held(timers[p]) && Held(timers[0]) && Less(timers[0], timers[p].next, timers[p].id);
        assert timers[0].id in v.pending && !TM.Before(v.recs, timers[p].id, timers[0].id);
      }
    }

    lemma ShapeIsWellFormed()
      requires Shape()
      ensures TM.WellFormed(View())
    {
      forall i | i in View().pending ensures i in View().recs {
        var k :| 0 <= k < |timers| && timers[k].id == i;
        assert Held(timers[k]);
      }
    }

    /** addTimer under the lock: notifies when the timer became the front and no notification is outstanding. */
    method Enter(t: TimerObject)
      requires Shape() && Held(t) && t.id !in Ids(timers) && TM.WellFormed(View())
      modifies this`timers, this`tickled, this`notified
      ensures Shape() && View() == TM.Insert(old(View()), t.id)
      ensures TM.NotifiedIf(old(View()), View(), TM.First(old(View()), t.id, t.next))
    {
      hide TM.First, TM.NotifiedIf;
      TM.InsertNotifiesExactly(View(), t.id);
      ghost var v := View();
      var p := InsertSorted(t);
      assert View() == v.(pending := v.pending + {t.id});
      ShapeIsWellFormed();
      FrontIs(p);
      if p == 0 && !tickled {
        tickled := true;
        notified := notified + 1;
      }
    }

    method AddTimer(id: nat, start: nat, ms: nat, cb: Option<nat>, recurring: bool) returns (t: TimerObject)
      requires Valid() && id !in all
      modifies this
      ensures Valid() && fresh(t) && t.id == id && all == old(all)[id := t]
      ensures View() == TM.Add(old(View()), id, start, ms, cb, recurring)
      ensures TM.NotifiedIf(old(View()), View(), TM.First(old(View()), id, TM.Add64(start, ms)))
    {
      hide TM.First, TM.NotifiedIf, TM.Insert;
      TM.AddNotifiesExactly(View(), id, start, ms, cb, recurring);
      t := new TimerObject(id, start, ms, cb, recurring);
      ghost var v := View();
      all := all[id := t];
      assert View().recs == v.recs[id := t.View()];
      assert forall k :: 0 <= k < |timers| ==> Held(timers[k]);
      assert id !in Ids(timers);
      Enter(t);
    }

    /** Takes a timer out of the set and drops its callback; an armed timer is always found. */
    method Detach(t: TimerObject) returns (found: bool)
      requires Valid() && Held(t) && t.cb.Some?
      modifies this`timers, t`cb
      ensures found && Shape() && t.id !in Ids(timers) && t.id in old(View()).recs
      ensures View() == TM.Cancel(old(View()), t.id)
    {
      ghost var v := View();
      t.cb := None;
      found := Erase(t);
      assert View().recs == v.recs[t.id := v.recs[t.id].(cb := None)];
    }

    method Cancel(t: TimerObject) returns (r: bool)
      requires Valid() && Held(t)
      modifies this, all.Values
      ensures Valid() && all == old(all) && View() == TM.Cancel(old(View()), t.id)
      ensures r <==> TM.Live(old(View()), t.id)
    {
      if t.cb.None? { return false; }
      r := Detach(t);
    }

    /** The look-up cannot fail: a timer with a callback is in the set. */
    method Refresh(t: TimerObject, now: nat) returns (r: bool)
      requires Valid() && Held(t)
      modifies this, all.Values
      ensures Valid() && all == old(all) && View() == TM.Refresh(old(View()), t.id, now)
      ensures r <==> TM.Live(old(View()), t.id)
    {
      hide TM.Findable, TM.Cancel, TM.Refresh;
      ghost var v := View();
      if t.cb.None? {
        TM.RefreshInSteps(v, t.id, now);
        return false;
      }
      var found := Detach(t);
      if !found { return false; }
      Rejoin(t, TM.Add64(now, t.ms));
      TM.RefreshInSteps(v, t.id, now);
      return true;
    }

    /** The deadline of a timer changes while it is out of the set. */
    method Rejoin(t: TimerObject, next: nat)
      requires Shape() && Held(t) && t.id !in Ids(timers)
      modifies this`timers, t`next
      ensures Shape() && t.id in old(View()).recs
      ensures var v := old(View());
        View() == v.(recs := v.recs[t.id := v.recs[t.id].(next := next)], pending := v.pending + {t.id})
    {
      ghost var v := View();
      t.next := next;
      assert View().recs == v.recs[t.id := v.recs[t.id].(next := next)];
      var _ := InsertSorted(t);
    }

    /** The keys of a timer change while it is out of the set. */
    method Reenter(t: TimerObject, ms: nat, next: nat)
      requires Shape() && Held(t) && t.id !in Ids(timers)
      modifies this`timers, this`tickled, this`notified, t
      ensures Shape() && t.id in old(View()).recs
      ensures var v := old(View());
        var s := v.(recs := v.recs[t.id := v.recs[t.id].(ms := ms, next := next)]);
        TM.WellFormed(s) && View() == TM.Insert(s, t.id)
    {
      ghost var v := View();
      t.ms := ms;
      t.next := next;
      assert View().recs == v.recs[t.id := v.recs[t.id].(ms := ms, next := next)];
      ShapeIsWellFormed();
      Enter(t);
    }

    method Reset(t: TimerObject, now: nat, ms: nat, fromNow: bool) returns (r: bool)
      requires Valid() && Held(t)
      modifies this, all.Values
      ensures Valid() && all == old(all) && View() == TM.Reset(old(View()), t.id, now, ms, fromNow)
      ensures r <==> TM.Live(old(View()), t.id)
      ensures View() == old(View()) || (r && TM.NotifiedIf(old(View()), View(), TM.First(old(View()), t.id, t.next)))
    {
      hide TM.First, TM.NotifiedIf, TM.Insert;
      ghost var v := View();
      TM.ResetNotifiesExactly(v, t.id, now, ms, fromNow);
      if t.cb.None? { return false; }
      if ms == t.ms && !fromNow { return true; }
      var found := Detach(t);
      if !found { return false; }
      var start := if fromNow then now else TM.Sub64(t.next, t.ms);
      Reenter(t, ms, TM.Add64(start, ms));
      TM.ResetInSteps(v, t.id, now, ms, fromNow);
      TM.ResetFindable(v, t.id, now, ms, fromNow);
      return true;
    }

    /** The time until the front deadline; the flag is lowered even when there is nothing to wait for. */
    method GetNextTimer(now: nat) returns (r: nat)
      requires Valid()
      modifies this`tickled
      ensures Valid() && View() == old(View()).(tickled := false)
      ensures if View().pending == {} then r == TM.NEVER else
        exists i :: i in View().pending && TM.IsFront(View(), i)
          && r == if now >= View().recs[i].next then 0 else View().recs[i].next - now
    {
      tickled := false;
      if timers == [] { return TM.NEVER; }
      FrontIs(0);
      assert timers[0].id in View().pending && Held(timers[0]);
      if now >= timers[0].next { return 0; }
      return timers[0].next - now;
    }

    /**
     detectClockRollover: the clock stepped back by more than an hour, or stepped back at all from a reading within its
     first hour. The new reading is remembered and no timer is touched.
     */
    method DetectRollover(now: nat) returns (rollover: bool)
      modifies this`previous
      ensures View() == old(View()).(previous := now)
      ensures rollover <==> TM.RolledOver(old(View()), now)
      ensures old(previous) < TM.U64 ==>
        (rollover <==> now < old(previous) && (old(previous) < TM.ONE_HOUR || now + TM.ONE_HOUR < old(previous)))
    {
      rollover := now < previous && now < TM.Sub64(previous, TM.ONE_HOUR);
      previous := now;
    }

    /** lower_bound of a timer made at `now` at any address `probe`, and the skip over timers due exactly now. */
    method PartitionPoint(rollover: bool, now: nat, probe: nat) returns (it: nat)
      requires Sorted(timers)
      ensures it <= |timers|
      ensures forall k :: 0 <= k < it ==> rollover || timers[k].next <= now
      ensures forall k :: it <= k < |timers| ==> !rollover && timers[k].next > now
    {
      if rollover {
        it := |timers|;
      } else {
        it := LowerBound(now, probe);
      }
      while it < |timers| && timers[it].next == now
        invariant it <= |timers| && (rollover ==> it == |timers|)
        invariant forall k :: 0 <= k < it ==> rollover || timers[k].next <= now
        invariant forall k :: it <= k < |timers| ==> timers[k].next >= now
      {
        it := it + 1;
      }
      forall k | it <= k < |timers| ensures timers[k].next > now {
        assert k > it ==> Less(timers[it], timers[k].next, timers[k].id);
      }
    }

    /** The listed timers are not in the set, and they are different timers. */
    ghost predicate Detached(ts: seq<TimerObject>)
      reads this
    {
      && (forall k :: 0 <= k < |ts| ==> Held(ts[k]) && ts[k].id !in Ids(timers))
      && (forall j, k :: 0 <= j < k < |ts| ==> ts[j].id != ts[k].id)
    }

    /** Collects the callbacks in order; a recurring timer is set again, any other loses its callback. */
    method FireAll(ts: seq<TimerObject>, now: nat) returns (cbs: seq<Option<nat>>)
      requires Shape() && Detached(ts)
      modifies this`timers, ts
      ensures Shape()
      ensures |cbs| == |ts| && forall k :: 0 <= k < |ts| ==> cbs[k] == old(ts[k].cb)
      ensures forall k :: 0 <= k < |ts| ==> ts[k].View() == TM.Fired(old(ts[k].View()), now)
      ensures forall i :: i in all && i !in Ids(ts) ==> all[i].View() == old(all[i].View())
      ensures forall k :: 0 <= k < |ts| ==> (ts[k].id in Ids(timers) <==> old(ts[k].recurring))
      ensures forall i :: i !in Ids(ts) ==> (i in Ids(timers) <==> i in old(Ids(timers)))
    {
      cbs := [];
      ghost var all0 := all;
      for n := 0 to |ts|
        invariant Shape() && all == all0
        invariant |cbs| == n && forall k :: 0 <= k < n ==> cbs[k] == old(ts[k].cb)
        invariant forall k :: 0 <= k < n ==> ts[k].View() == TM.Fired(old(ts[k].View()), now)
        invariant forall k :: n <= k < |ts| ==> ts[k].View() == old(ts[k].View()) && ts[k].id !in Ids(timers)
        invariant forall i :: i in all && i !in Ids(ts) ==> all[i].View() == old(all[i].View())
        invariant forall k :: 0 <= k < n ==> (ts[k].id in Ids(timers) <==> old(ts[k].recurring))
        invariant forall i :: i !in Ids(ts) ==> (i in Ids(timers) <==> i in old(Ids(timers)))
      {
        var t := ts[n];
        cbs := cbs + [t.cb];
        FireOne(t, now);
        assert t.id in Ids(ts);
        assert forall k :: 0 <= k < |ts| && k != n ==> ts[k].id != t.id;
      }
    }

    method FireOne(t: TimerObject, now: nat)
      requires Shape() && Held(t) && t.id !in Ids(timers)
      modifies this`timers, t
      ensures Shape() && t.View() == TM.Fired(old(t.View()), now)
      ensures Ids(timers) == if old(t.recurring) then old(Ids(timers)) + {t.id} else old(Ids(timers))
    {
      if t.recurring {
        t.next := TM.Add64(now, t.ms);
        var _ := InsertSorted(t);
      } else {
        t.cb := None;
      }
    }

    /** `ids` lists the timers that expire, in the order of the set. */
    static ghost predicate Lists(v: TM.Timers, now: nat, ids: seq<nat>)
      requires TM.WellFormed(v)
    {
      && (forall i :: i in ids <==> i in TM.Due(v, now))
      && (forall k :: 0 <= k < |ids| ==> ids[k] in v.recs)
      && (forall j, k :: 0 <= j < k < |ids| ==> TM.Before(v.recs, ids[j], ids[k]))
    }

    lemma SplitAt(it: nat)
      requires Shape() && it <= |timers|
      ensures Ids(timers) == Ids(timers[..it]) + Ids(timers[it..])
      ensures Ids(timers[..it]) !! Ids(timers[it..])
      ensures forall j, k :: 0 <= j < k < it ==> timers[j].id != timers[k].id
    {
      assert timers == timers[..it] + timers[it..];
      IdsConcat(timers[..it], timers[it..]);
      forall j, k | 0 <= j < k < |timers| ensures timers[j].id != timers[k].id {
        assert Held(timers[j]) && Held(timers[k]) && Less(timers[j], timers[k].next, timers[k].id);
      }
    }

    ghost function Addresses(ts: seq<TimerObject>): seq<nat> {
      seq(|ts|, k requires 0 <= k < |ts| => ts[k].id)
    }

    /** `it` parts the timers that expire at `now` from the others. */
    ghost predicate Parts(v: TM.Timers, now: nat, it: nat)
      reads this, all.Values, timers
    {
      && Shape() && TM.WellFormed(v) && v == View().(previous := v.previous) && it <= |timers|
      && (forall k :: 0 <= k < it ==> TM.RolledOver(v, now) || timers[k].next <= now)
      && (forall k :: it <= k < |timers| ==> !TM.RolledOver(v, now) && timers[k].next > now)
    }

    lemma PartsAt(v: TM.Timers, rollover: bool, now: nat, it: nat)
      requires Shape() && TM.WellFormed(v) && v == View().(previous := v.previous) && it <= |timers|
      requires rollover <==> TM.RolledOver(v, now)
      requires forall k :: 0 <= k < it ==> rollover || timers[k].next <= now
      requires forall k :: it <= k < |timers| ==> !rollover && timers[k].next > now
      ensures Parts(v, now, it)
    {
    }

    lemma DuePart(v: TM.Timers, now: nat, it: nat)
      requires Parts(v, now, it)
      ensures TM.Due(v, now) == Ids(timers[..it])
    {
      forall i | i in v.pending ensures i in TM.Due(v, now) <==> i in Ids(timers[..it]) {
        var k :| 0 <= k < |timers| && timers[k].id == i;
        assert Held(timers[k]);
        SplitAt(it);
        if k < it {
          assert timers[..it][k].id == i;
        } else {
          assert timers[it..][k - it].id == i;
        }
      }
      SplitAt(it);
    }

    lemma DueOrder(v: TM.Timers, now: nat, it: nat)
      requires Parts(v, now, it)
      ensures Lists(v, now, Addresses(timers[..it]))
    {
      DuePart(v, now, it);
      var ids := Addresses(timers[..it]);
      forall k | 0 <= k < |ids| ensures ids[k] in v.recs {
        assert Held(timers[k]);
      }
      forall j, k | 0 <= j < k < |ids| ensures TM.Before(v.recs, ids[j], ids[k]) {
        assert Held(timers[j]) && Held(timers[k]) && Less(timers[j], timers[k].next, timers[k].id);
      }
      forall i | i in TM.Due(v, now) ensures i in ids {
        var k :| 0 <= k < it && timers[..it][k].id == i;
        assert ids[k] == i;
      }
    }

    /** FireAll, told by address. */
    method FireDetached(ts: seq<TimerObject>, now: nat) returns (cbs: seq<Option<nat>>)
      requires Shape() && Detached(ts)
      modifies this`timers, ts
      ensures Shape() && TM.FiredIn(old(View()), Ids(ts), now, View())
      ensures |cbs| == |ts| && forall k :: 0 <= k < |ts| ==> cbs[k] == old(ts[k].cb)
    {
      cbs := FireAll(ts, now);
      forall i | i in Ids(ts)
        ensures i in all && all[i].View() == TM.Fired(old(all[i].View()), now)
        ensures i in Ids(timers) <==> old(all[i].recurring)
      {
        var k :| 0 <= k < |ts| && ts[k].id == i;
        assert Held(ts[k]);
      }
      ShapeIsWellFormed();
    }

    /** Takes the first `it` timers out of the set. */
    method CutFirst(ghost v: TM.Timers, it: nat, now: nat) returns (ts: seq<TimerObject>)
      requires Parts(v, now, it) && previous == now
      modifies this`timers
      ensures ts == old(timers)[..it] && Shape() && Detached(ts) && forall k :: 0 <= k < it ==> ts[k] in all.Values
      ensures Ids(ts) == TM.Due(v, now) && View() == v.(previous := now, pending := v.pending - Ids(ts))
    {
      SplitAt(it);
      DuePart(v, now, it);
      Prefix(it);
      ts := timers[..it];
      timers := timers[it..];
    }

    method ExpireFirst(ghost v: TM.Timers, it: nat, now: nat) returns (cbs: seq<Option<nat>>)
      requires Parts(v, now, it) && TM.Findable(v) && previous == now
      modifies this`timers, all.Values
      ensures Valid() && View() == TM.Expire(v, now)
      ensures |cbs| == it <= |old(timers)| && forall k :: 0 <= k < it ==> cbs[k] == old(timers[k].cb)
    {
      var ts := CutFirst(v, it, now);
      cbs := FireDetached(ts, now);
      TM.ExpireIs(v, now, View());
    }

    lemma Prefix(it: nat)
      requires Shape() && it <= |timers|
      ensures forall k :: 0 <= k < it ==> Held(timers[..it][k]) && timers[..it][k] in all.Values
                                          && timers[..it][k].id in Ids(timers[..it])
      ensures Sorted(timers[it..]) && forall k :: 0 <= k < |timers[it..]| ==> Held(timers[it..][k])
    {
    }

    lemma NothingYet(v: TM.Timers, now: nat)
      requires Shape() && TM.Findable(v) && v == View().(previous := v.previous) && !TM.RolledOver(v, now)
      requires timers != [] && timers[0].next > now
      ensures TM.Due(v, now) == {} && TM.Expire(v, now) == v.(previous := now)
    {
      assert timers[0].id in v.pending;
      forall k | 0 <= k < |timers| ensures timers[k].next > now {
        assert k > 0 ==> Less(timers[0], timers[k].next, timers[k].id);
      }
      DuePart(v, now, 0);
      TM.NothingDue(v, now);
    }

    lemma ListsNothing(v: TM.Timers, now: nat)
      requires TM.WellFormed(v) && TM.Due(v, now) == {}
      ensures Lists(v, now, [])
    {
    }

    /** The expiry itself, once the rollover is settled. */
    method ExpireDue(ghost v: TM.Timers, rollover: bool, now: nat, probe: nat)
      returns (cbs: seq<Option<nat>>, ghost expired: seq<nat>)
      requires Shape() && TM.Findable(v) && v == View().(previous := v.previous) && previous == now && timers != []
      requires rollover <==> TM.RolledOver(v, now)
      modifies this`timers, all.Values
      ensures Valid() && View() == TM.Expire(v, now) && Lists(v, now, expired)
      ensures |cbs| == |expired| && forall k :: 0 <= k < |cbs| ==> cbs[k] == v.recs[expired[k]].cb
    {
      hide Lists, Parts, TM.Expire, TM.Due, TM.Findable, TM.RolledOver;
      TM.FindableFits(v);
      assert timers[0].id in v.pending;
      var it := PartitionPoint(rollover, now, probe);
      PartsAt(v, rollover, now, it);
      DueOrder(v, now, it);
      expired := Addresses(timers[..it]);
      Prefix(it);
      cbs := ExpireFirst(v, it, now);
    }

    /** The second critical section of listExpiredCb, entered with a timer in the set. */
    method ExpireSection(now: nat, probe: nat) returns (cbs: seq<Option<nat>>, ghost expired: seq<nat>)
      requires Valid() && timers != []
      modifies this, all.Values
      ensures Valid() && all == old(all) && View() == TM.Expire(old(View()), now)
      ensures Lists(old(View()), now, expired)
      ensures |cbs| == |expired| && forall k :: 0 <= k < |cbs| ==> cbs[k] == old(View()).recs[expired[k]].cb
    {
      hide Lists;
      ghost var v := View();
      var rollover := DetectRollover(now);
      if !rollover && timers[0].next > now {
        NothingYet(v, now);
        ListsNothing(v, now);
        return [], [];
      }
      cbs, expired := ExpireDue(v, rollover, now, probe);
    }

    /**
     Expiry with nobody between its two locks: without a timer nothing happens. `expired` names the timers whose
     callbacks are returned, in order.
     */
    method ListExpiredCb(now: nat, probe: nat) returns (cbs: seq<Option<nat>>, ghost expired: seq<nat>)
      requires Valid()
      modifies this, all.Values
      ensures Valid() && all == old(all)
      ensures View() == if old(View()).pending == {} then old(View()) else TM.Expire(old(View()), now)
      ensures old(View()).pending == {} ==> expired == []
      ensures old(View()).pending != {} ==> Lists(old(View()), now, expired)
      ensures |cbs| == |expired| && forall k :: 0 <= k < |cbs| ==> cbs[k] == old(View()).recs[expired[k]].cb
    {
      hide Lists, TM.Expire;
      if timers == [] { return [], []; }
      assert timers[0].id in View().pending;
      cbs, expired := ExpireSection(now, probe);
    }
  }
}
