/** The timer queue as the kernel keeps it: 32-bit absolute times compared modulo 2^32. */
module TimerKernel {
  import opened TimerSpec

  const ABSTIM_DIFF_MIN := 0x7FFF_FFFF

  /** The low 32 bits of a time, and 32-bit subtraction. */
  function To32(t: nat): nat {
    t % WRAP
  }

  function Sub32(a: int, b: int): nat {
    (a - b) % WRAP
  }

  /** knl_abstim_reached */
  predicate Reached(cur: nat, time: nat) {
    Sub32(cur, time) <= ABSTIM_DIFF_MIN
  }

  /** The comparison of knl_enqueue_tmeb at clock time now. */
  predicate Before32(now: nat, a: nat, b: nat) {
    var ofs := Sub32(To32(now), ABSTIM_DIFF_MIN);
    Sub32(a, ofs) < Sub32(b, ofs)
  }

  lemma OffsetExact(now: nat, due: nat)
    requires now - ABSTIM_DIFF_MIN <= due <= now + HALF
    ensures Sub32(To32(due), Sub32(To32(now), ABSTIM_DIFF_MIN)) == due - now + ABSTIM_DIFF_MIN
  {
    var d, n := due / WRAP, now / WRAP;
    assert due == d * WRAP + To32(due) && now == n * WRAP + To32(now);
    var ofs := Sub32(To32(now), ABSTIM_DIFF_MIN);
    assert ofs == To32(now) - ABSTIM_DIFF_MIN || ofs == To32(now) - ABSTIM_DIFF_MIN + WRAP;
    assert d == n || d == n + 1 || d == n - 1;
  }

  /** Across any number of wraps the 32-bit comparison is the comparison of the true times. */
  lemma Before32Exact(now: nat, a: nat, b: nat)
    requires now - ABSTIM_DIFF_MIN <= a <= now + HALF && now - ABSTIM_DIFF_MIN <= b <= now + HALF
    ensures Before32(now, To32(a), To32(b)) <==> a < b
  {
    OffsetExact(now, a);
    OffsetExact(now, b);
  }

  lemma ReachedExact(now: nat, due: nat)
    requires now - ABSTIM_DIFF_MIN <= due <= now + HALF
    ensures Reached(To32(now), To32(due)) <==> due <= now
  {
    var d, n := due / WRAP, now / WRAP;
    assert due == d * WRAP + To32(due) && now == n * WRAP + To32(now);
    assert d == n || d == n + 1 || d == n - 1;
  }

  // ----- How far ahead a timeout may lie

  /** Every event lies within the comparable range, at most one period overdue. */
  predicate InRange(q: seq<Event>, now: nat) {
    forall i :: 0 <= i < |q| ==> now < q[i].due + TIMER_PERIOD && q[i].due <= now + HALF
  }

  /** knl_enqueue_tmeb on true times, compared as the kernel compares them. */
  function Enqueue32(now: nat, q: seq<Event>, e: Event): seq<Event> {
    if q == [] || Before32(now, To32(e.due), To32(q[0].due)) then [e] + q else [q[0]] + Enqueue32(now, q[1..], e)
  }

  lemma {:induction false} Enqueue32IsInsert(now: nat, q: seq<Event>, e: Event)
    requires InRange(q, now) && now < e.due <= now + HALF
    ensures Enqueue32(now, q, e) == Insert(q, e)
  {
    if q != [] {
      Before32Exact(now, e.due, q[0].due);
      Enqueue32IsInsert(now, q[1..], e);
    }
  }

  lemma OffsetWrapped(now: nat, due: nat)
    requires now + HALF < due <= now + HALF + TIMER_PERIOD
    ensures Sub32(To32(due), Sub32(To32(now), ABSTIM_DIFF_MIN)) == due - now - HALF - 1
  {
    var d, n := due / WRAP, now / WRAP;
    assert due == d * WRAP + To32(due) && now == n * WRAP + To32(now);
    var ofs := Sub32(To32(now), ABSTIM_DIFF_MIN);
    assert ofs == To32(now) - ABSTIM_DIFF_MIN || ofs == To32(now) - ABSTIM_DIFF_MIN + WRAP;
    assert d == n || d == n + 1;
  }

  /** For every timeout the parameter check lets through (0 .. 2^31 - 1): the queue is still in true
      order, and still within the comparable range, exactly if the due time is. */
  lemma TimeoutLimit(now: nat, q: seq<Event>, id: nat, tmout: nat)
    requires Sorted(q) && InRange(q, now) && tmout < HALF
    ensures var r := Enqueue32(now, q, Event(id, now + tmout + TIMER_PERIOD));
      && (Sorted(r) && InRange(r, now) <==> tmout + TIMER_PERIOD <= HALF)
      && (Sorted(r) <==> tmout + TIMER_PERIOD <= HALF || q == [])
  {
    var e := Event(id, now + tmout + TIMER_PERIOD);
    var r := Enqueue32(now, q, e);
    if tmout + TIMER_PERIOD <= HALF {
      Enqueue32IsInsert(now, q, e);
      InsertSorted(q, e);
      forall i | 0 <= i < |r| ensures now < r[i].due + TIMER_PERIOD && r[i].due <= now + HALF { assert r[i] in r; }
    } else {
      LongGoesFirst(now, q, e);
      assert r[0] == e;
      if q != [] { assert ([e] + q)[0].due > ([e] + q)[1].due; }
    }
  }

  lemma LongGoesFirst(now: nat, q: seq<Event>, e: Event)
    requires InRange(q, now) && now + HALF < e.due < now + HALF + TIMER_PERIOD
    ensures Enqueue32(now, q, e) == [e] + q
  {
    OffsetWrapped(now, e.due);
    if q != [] { OffsetExact(now, q[0].due); }
  }

  /** A longer timeout spoils whatever comes after it: into whatever queue it goes, the next timeout
      that is within the range is queued behind it, although it is due first. */
  lemma LongTimeoutSpoils(now: nat, q: seq<Event>, id: nat, tmout: nat, next: nat, soon: nat)
    requires InRange(q, now) && tmout < HALF < tmout + TIMER_PERIOD && soon + TIMER_PERIOD <= HALF
    ensures var late, e := Event(id, now + tmout + TIMER_PERIOD), Event(next, now + soon + TIMER_PERIOD);
      && e.due < late.due
      && Enqueue32(now, Enqueue32(now, q, late), e) == [late] + Enqueue32(now, q, e)
      && !Sorted(Enqueue32(now, Enqueue32(now, q, late), e))
  {
    var late, e := Event(id, now + tmout + TIMER_PERIOD), Event(next, now + soon + TIMER_PERIOD);
    LongGoesFirst(now, q, late);
    OffsetWrapped(now, late.due);
    OffsetExact(now, e.due);
    assert ([late] + q)[1..] == q;
    var r := Enqueue32(now, [late] + q, e);
    assert r == [late] + Enqueue32(now, q, e);
    Enqueue32IsInsert(now, q, e);
    assert e in Insert(q, e);
    var k :| 0 <= k < |Insert(q, e)| && Insert(q, e)[k] == e;
    assert r[0] == late && r[k + 1] == e;
  }

  /** What a longer timeout does: the event goes to the head of the queue, is not due for weeks, and
      the expiry loop stops at it, so an event due in 20 ms behind it does not fire. */
  lemma LongTimeoutBlocks(now: nat)
    ensures var soon, late := Event(0, now + 20), Event(1, now + 0x7FFF_FFFF + TIMER_PERIOD);
      && Enqueue32(now, [soon], late) == [late, soon]
      && Reached(To32(now + 20), To32(soon.due)) && !Reached(To32(now + 20), To32(late.due))
  {
    var soon, late := Event(0, now + 20), Event(1, now + 0x7FFF_FFFF + TIMER_PERIOD);
    OffsetWrapped(now, late.due);
    OffsetExact(now, soon.due);
    assert Enqueue32(now, [soon], late) == [late] + [soon];
    ReachedExact(now + 20, soon.due);
    ReachedExact(now + 20, late.due);
  }

  /** Everything asked for is due after now and within the comparable range. */
  predicate Reachable(now: nat, cs: seq<Cmd>) {
    forall i :: 0 <= i < |cs| && !cs[i].Cancel? ==> now < DueOf(now, cs[i]) <= now + HALF
  }

  ghost predicate Bounded(now: nat, script: nat -> seq<Cmd>)
    ensures Bounded(now, script) ==> ScriptTimely(now, script)
  {
    assert forall f: nat :: Reachable(now, script(f)) ==> Timely(now, script(f));
    forall f: nat :: Reachable(now, script(f))
  }

  // ----- The kernel's queue

  datatype Tmeb = Tmeb(id: nat, time: nat)

  lemma PlaceStep(now: nat, q: seq<Event>, e: Event, k: nat)
    requires k < |q| && !Before32(now, To32(e.due), To32(q[k].due)) && Enqueue32(now, q, e) == q[..k] + Enqueue32(now, q[k..], e)
    ensures Enqueue32(now, q, e) == q[..k + 1] + Enqueue32(now, q[k + 1..], e)
  {
    assert q[k..][1..] == q[k + 1..] && q[..k + 1] == q[..k] + [q[k]];
    assert q[..k] + ([q[k]] + Enqueue32(now, q[k + 1..], e)) == q[..k + 1] + Enqueue32(now, q[k + 1..], e);
  }

  lemma PlaceFound(now: nat, q: seq<Event>, e: Event, k: nat)
    requires k <= |q| && (k < |q| ==> Before32(now, To32(e.due), To32(q[k].due))) && Enqueue32(now, q, e) == q[..k] + Enqueue32(now, q[k..], e)
    ensures Enqueue32(now, q, e) == q[..k] + [e] + q[k..]
  {
    assert Enqueue32(now, q[k..], e) == [e] + q[k..];
  }

  lemma MatchesInsert(queue: seq<Tmeb>, events: seq<Event>, k: nat, e: Event)
    requires Matches(queue, events) && k <= |queue|
    ensures Matches(queue[..k] + [Tmeb(e.id, To32(e.due))] + queue[k..], events[..k] + [e] + events[k..])
  {
  }

  lemma {:induction false} RemoveAt(q: seq<Event>, k: nat)
    requires Distinct(q) && k < |q|
    ensures Remove(q, q[k].id) == q[..k] + q[k + 1..]
  {
    if k == 0 {
      RemoveAbsent(q[1..], q[0].id);
    } else {
      RemoveAt(q[1..], k - 1);
      assert q[0].id != q[k].id && Remove(q, q[k].id) == [q[0]] + Remove(q[1..], q[k].id);
      DropBehind(q, k);
    }
  }

  lemma DropBehind(q: seq<Event>, k: nat)
    requires 0 < k < |q|
    ensures q[..k] + q[k + 1..] == [q[0]] + (q[1..][..k - 1] + q[1..][k..])
  {
  }

  lemma {:induction false} RemoveAbsent(q: seq<Event>, id: nat)
    requires forall i :: 0 <= i < |q| ==> q[i].id != id
    ensures Remove(q, id) == q
  {
    if q != [] { RemoveAbsent(q[1..], id); }
  }

  /** The queue holds these events, in this order, their times truncated. */
  ghost predicate Matches(queue: seq<Tmeb>, events: seq<Event>) {
    |queue| == |events| && forall i :: 0 <= i < |queue| ==> queue[i] == Tmeb(events[i].id, To32(events[i].due))
  }

  ghost predicate Represents(queue: seq<Tmeb>, events: seq<Event>, now: nat) {
    && Matches(queue, events) && Sorted(events) && Distinct(events)
    && InRange(events, now)
  }

  lemma DropValid(queue: seq<Tmeb>, events: seq<Event>, k: nat, now: nat)
    requires Represents(queue, events, now) && k < |queue|
    ensures Represents(queue[..k] + queue[k + 1..], events[..k] + events[k + 1..], now)
  {
    var q, e := queue[..k] + queue[k + 1..], events[..k] + events[k + 1..];
    assert forall i :: 0 <= i < |q| ==> q[i] == queue[if i < k then i else i + 1] && e[i] == events[if i < k then i else i + 1];
  }

  lemma TickValid(queue: seq<Tmeb>, events: seq<Event>, now: nat)
    requires Represents(queue, events, now) && Ahead(events, now)
    ensures Represents(queue, events, now + TIMER_PERIOD)
  {
  }

  lemma DropHeadValid(queue: seq<Tmeb>, events: seq<Event>, now: nat)
    requires Represents(queue, events, now) && queue != []
    ensures Represents(queue[1..], events[1..], now)
  {
    DropValid(queue, events, 0, now);
    assert queue[..0] + queue[1..] == queue[1..] && events[..0] + events[1..] == events[1..];
  }

  /** What is left to fire completes what has been fired to the goal. */
  ghost predicate StillToFire(goal: (seq<Event>, seq<nat>), fired: seq<nat>, now: nat, q: seq<Event>, script: nat -> seq<Cmd>)
    requires ScriptTimely(now, script)
  {
    goal.0 == Expire(now, q, script).0 && goal.1 == fired + Expire(now, q, script).1
  }

  lemma FiredOne(goal: (seq<Event>, seq<nat>), fired: seq<nat>, now: nat, q: seq<Event>, q': seq<Event>, script: nat -> seq<Cmd>, id: nat)
    requires ScriptTimely(now, script) && StillToFire(goal, fired, now, q, script)
    requires Expire(now, q, script).0 == Expire(now, q', script).0 && Expire(now, q, script).1 == [id] + Expire(now, q', script).1
    ensures StillToFire(goal, fired + [id], now, q', script)
  {
    assert fired + ([id] + Expire(now, q', script).1) == fired + [id] + Expire(now, q', script).1;
  }

  lemma ExpireStep(now: nat, q: seq<Event>, script: nat -> seq<Cmd>)
    requires q != [] && q[0].due <= now && ScriptTimely(now, script)
    ensures var q' := ApplyAll(now, q[1..], script(q[0].id));
      && CountDue(now, q') < CountDue(now, q)
      && Expire(now, q, script).0 == Expire(now, q', script).0
      && Expire(now, q, script).1 == [q[0].id] + Expire(now, q', script).1
  {
    CountApplyAll(now, q[1..], script(q[0].id));
  }

  lemma ExpireDone(now: nat, q: seq<Event>, script: nat -> seq<Cmd>)
    requires (q == [] || q[0].due > now) && ScriptTimely(now, script)
    ensures Expire(now, q, script) == (q, [])
  {
  }

  class TimerQueue {
    var now: nat
    var queue: seq<Tmeb>
    ghost var events: seq<Event>

    /** The queue holds the events in order, times truncated, all within the comparable range. */
    ghost predicate Valid()
      reads this
    {
      Represents(queue, events, now)
    }

    constructor ()
      ensures Valid() && now == 0 && events == []
    {
      now, queue, events := 0, [], [];
    }

    /** knl_enqueue_tmeb: the place the 32-bit comparison gives, whatever the due time. */
    method Enqueue(id: nat, time: nat, ghost due: nat)
      requires Valid() && time == To32(due)
      modifies this`queue, this`events
      ensures Matches(queue, events) && events == Enqueue32(now, old(events), Event(id, due))
    {
      var k := PlaceFor(queue, time, events, due);
      MatchesInsert(queue, events, k, Event(id, due));
      queue := queue[..k] + [Tmeb(id, time)] + queue[k..];
      events := events[..k] + [Event(id, due)] + events[k..];
    }

    /** The loop: the first event the new one comes before. */
    method PlaceFor(q: seq<Tmeb>, time: nat, ghost ev: seq<Event>, ghost due: nat) returns (k: nat)
      requires Matches(q, ev) && time == To32(due)
      ensures k <= |q| && forall id :: Enqueue32(now, ev, Event(id, due)) == ev[..k] + [Event(id, due)] + ev[k..]
    {
      k := 0;
      assert ev[0..] == ev;
      while k < |q| && !Before32(now, time, q[k].time)
        invariant 0 <= k <= |q|
        invariant forall id :: Enqueue32(now, ev, Event(id, due)) == ev[..k] + Enqueue32(now, ev[k..], Event(id, due))
      {
        forall id ensures Enqueue32(now, ev, Event(id, due)) == ev[..k + 1] + Enqueue32(now, ev[k + 1..], Event(id, due)) {
          PlaceStep(now, ev, Event(id, due), k);
        }
        k := k + 1;
      }
      forall id ensures Enqueue32(now, ev, Event(id, due)) == ev[..k] + [Event(id, due)] + ev[k..] {
        PlaceFound(now, ev, Event(id, due), k);
      }
    }

    /** The same within the comparable range: the place the true times ask for. */
    method EnqueueOrdered(id: nat, time: nat, ghost due: nat)
      requires Valid() && time == To32(due) && now < due <= now + HALF && !Pending(events, id)
      modifies this`queue, this`events
      ensures Valid() && events == Insert(old(events), Event(id, due)) && Joins(old(events), Event(id, due), events)
    {
      InsertJoins(events, Event(id, due));
      Enqueue32IsInsert(now, events, Event(id, due));
      InsertSorted(events, Event(id, due));
      InsertDistinct(events, Event(id, due));
      ghost var ev := events;
      Enqueue(id, time, due);
      forall i | 0 <= i < |events| ensures now < events[i].due + TIMER_PERIOD && events[i].due <= now + HALF { assert events[i] in events; }
    }

    /** knl_timer_insert, for every timeout the checks admit: TMO_FEVR (-1) waits without an event,
        else the event is due after tmout and one period. The queue stays as every other call
        needs it exactly if that is within the comparable range. */
    method TimerInsert(id: nat, tmout: int)
      requires Valid() && -1 <= tmout < HALF && !Pending(events, id)
      modifies this`queue, this`events
      ensures Matches(queue, events)
      ensures events == if tmout == -1 then old(events) else Enqueue32(now, old(events), Event(id, now + tmout + TIMER_PERIOD))
      ensures Valid() <==> tmout + TIMER_PERIOD <= HALF
      ensures Sorted(events) <==> tmout + TIMER_PERIOD <= HALF || old(events) == []
      ensures tmout + TIMER_PERIOD <= HALF ==>
        Valid() && events == if tmout == -1 then old(events) else Insert(old(events), Event(id, now + tmout + TIMER_PERIOD))
      ensures tmout != -1 && tmout + TIMER_PERIOD <= HALF ==> Joins(old(events), Event(id, now + tmout + TIMER_PERIOD), events)
    {
      if tmout != -1 {
        Sum32(now, tmout + TIMER_PERIOD);
        TimeoutLimit(now, events, id, tmout);
        if tmout + TIMER_PERIOD <= HALF {
          InsertInRange(id, tmout);
        } else {
          Enqueue(id, (To32(now) + tmout + TIMER_PERIOD) % WRAP, now + tmout + TIMER_PERIOD);
        }
      }
    }

    /** The same for a due time within the comparable range. */
    method InsertInRange(id: nat, tmout: nat)
      requires Valid() && tmout + TIMER_PERIOD <= HALF && !Pending(events, id)
      modifies this`queue, this`events
      ensures var e := Event(id, now + tmout + TIMER_PERIOD);
        Valid() && events == Insert(old(events), e) == Enqueue32(now, old(events), e) && Joins(old(events), e, events)
    {
      Sum32(now, tmout + TIMER_PERIOD);
      Enqueue32IsInsert(now, events, Event(id, now + tmout + TIMER_PERIOD));
      EnqueueOrdered(id, (To32(now) + tmout + TIMER_PERIOD) % WRAP, now + tmout + TIMER_PERIOD);
    }

    /** knl_timer_insert_abs. */
    method TimerInsertAbs(id: nat, time: nat, ghost due: nat)
      requires Valid() && time == To32(due) && now < due <= now + HALF && !Pending(events, id)
      modifies this`queue, this`events
      ensures Valid() && events == Insert(old(events), Event(id, due)) && Joins(old(events), Event(id, due), events)
    {
      EnqueueOrdered(id, time, due);
    }

    /** knl_cyc_timer_insert with knl_cyc_next_time: a cyclic handler that last started, or is first
        to start, at 'last' is next due at the first later point of its grid after now. */
    method CycTimerInsert(id: nat, time: nat, interval: nat, ghost last: nat)
      requires Valid() && !Pending(events, id) && time == To32(last)
      requires 0 < interval < HALF && now < last + HALF && last + interval <= now + HALF
      modifies this`queue, this`events
      ensures Valid() && events == Insert(old(events), Event(id, NextStart(last, interval, now)))
      ensures Joins(old(events), Event(id, NextStart(last, interval, now)), events)
    {
      CycNextIsFirstAfter(last, interval, now);
      TimerInsertAbs(id, CycNextTime(time, interval, To32(now)), NextStart(last, interval, now));
    }

    static lemma Sum32(a: nat, b: nat)
      ensures (To32(a) + b) % WRAP == To32(a + b)
    {
      assert a == a / WRAP * WRAP + a % WRAP;
    }

    /** knl_timer_delete; nothing happens when the event is not queued. */
    method TimerDelete(id: nat)
      requires Valid()
      modifies this`queue, this`events
      ensures Valid() && events == Remove(old(events), id)
    {
      var k := 0;
      var q := queue;
      ghost var ev := events;
      while k < |q| && q[k].id != id
        invariant 0 <= k <= |q|
        invariant forall i :: 0 <= i < k ==> ev[i].id != id
        modifies {}
      {
        k := k + 1;
      }
      if k < |q| {
        RemoveAt(ev, k);
        DropValid(q, ev, k, now);
        queue := q[..k] + q[k + 1..];
        events := ev[..k] + ev[k + 1..];
      } else {
        RemoveAbsent(ev, id);
      }
    }

    /** One request of a callback or system call. */
    method Perform(c: Cmd)
      requires Valid() && Reachable(now, [c])
      modifies this`queue, this`events
      ensures Valid() && events == Apply(now, old(events), c)
    {
      assert [c][0] == c;
      RemoveDistinct(events, c.id);
      TimerDelete(c.id);
      match c
      case Arm(id, tmout) => TimerInsert(id, tmout);
      case ArmAbs(id, due) => TimerInsertAbs(id, To32(due), due);
      case Cancel(id) =>
    }

    /** knl_timer_handler: advance the clock, then fire what is due; script gives each callback's requests. */
    method TimerHandler(script: nat -> seq<Cmd>) returns (fired: seq<nat>)
      requires Valid() && Ahead(events, now)
      requires Bounded(now + TIMER_PERIOD, script)
      modifies this
      ensures Valid() && Ahead(events, now) && now == old(now) + TIMER_PERIOD
      ensures events == Expire(now, old(events), script).0 && fired == Expire(now, old(events), script).1
    {
      TickValid(queue, events, now);
      now := now + TIMER_PERIOD;
      fired := FireAll(script);
      ExpireLeavesFuture(now, old(events), script);
      forall i | 0 <= i < |events| ensures now < events[i].due { assert events[i] in events; }
    }

    /** The expiry loop. */
    method FireAll(script: nat -> seq<Cmd>) returns (fired: seq<nat>)
      requires Valid() && Bounded(now, script)
      modifies this`queue, this`events
      ensures Valid()
      ensures events == Expire(now, old(events), script).0 && fired == Expire(now, old(events), script).1
    {
      fired := [];
      ghost var goal := Expire(now, events, script);
      assert [] + goal.1 == goal.1;
      var due := HeadDue();
      while due
        invariant Valid()
        invariant due <==> events != [] && events[0].due <= now
        invariant StillToFire(goal, fired, now, events, script)
        decreases CountDue(now, events)
      {
        ghost var q := events;
        var id := FireHead(script);
        FiredOne(goal, fired, now, q, events, script, id);
        fired := fired + [id];
        due := HeadDue();
      }
      ExpireDone(now, events, script);
      assert fired + [] == fired;
    }

    /** The loop condition: the queue is not empty and its head has been reached. */
    method HeadDue() returns (due: bool)
      requires Valid()
      ensures due <==> events != [] && events[0].due <= now
    {
      if queue == [] { return false; }
      ReachedExact(now, events[0].due);
      return Reached(To32(now), queue[0].time);
    }

    /** One round of the expiry loop. */
    method FireHead(script: nat -> seq<Cmd>) returns (id: nat)
      requires Valid() && Bounded(now, script) && events != [] && events[0].due <= now
      modifies this`queue, this`events
      ensures Valid() && CountDue(now, events) < CountDue(now, old(events))
      ensures Expire(now, old(events), script).0 == Expire(now, events, script).0
      ensures Expire(now, old(events), script).1 == [id] + Expire(now, events, script).1
    {
      id := queue[0].id;
      ghost var ev := events;
      ExpireStep(now, ev, script);
      DropHeadValid(queue, events, now);
      queue, events := queue[1..], events[1..];
      Callback(script(id));
    }

    /** The requests of one callback, in order. */
    method Callback(cs: seq<Cmd>)
      requires Valid() && Reachable(now, cs)
      modifies this`queue, this`events
      ensures Valid() && events == ApplyAll(now, old(events), cs)
    {
      var i := 0;
      assert cs[0..] == cs;
      while i < |cs|
        invariant 0 <= i <= |cs| && Valid()
        invariant ApplyAll(now, events, cs[i..]) == ApplyAll(now, old(events), cs)
      {
        assert cs[i..][1..] == cs[i + 1..] && Reachable(now, [cs[i]]);
        Perform(cs[i]);
        i := i + 1;
      }
    }
  }

  // ----- Cyclic handlers (time_calls.h)

  /** knl_cyc_next_time on 32-bit values: last start t, interval, current time. */
  function CycNextTime(t: nat, interval: nat, cur: nat): nat
    requires interval > 0
  {
    var tm := (t + interval) % WRAP;
    if Reached(cur, tm) then ((Sub32(cur, t) / interval + 1) * interval + t) % WRAP else tm
  }

  /** The k-th start after 'last' on the handler's own grid. */
  function Grid(last: nat, interval: nat, k: nat): nat {
    last + k * interval
  }

  /** The next start after now: one interval on, or as many as it takes. */
  function NextStart(last: nat, interval: nat, now: nat): nat
    requires interval > 0
  {
    Grid(last, interval, if last + interval > now then 1 else (now - last) / interval + 1)
  }

  /** due is the first point of the grid, past its origin, after now. */
  ghost predicate FirstAfter(last: nat, interval: nat, now: nat, due: nat) {
    && now < due
    && (exists k: nat :: k >= 1 && due == Grid(last, interval, k))
    && (forall k: nat :: k >= 1 && now < Grid(last, interval, k) ==> due <= Grid(last, interval, k))
  }

  lemma GridGrows(last: nat, interval: nat, j: nat, k: nat)
    requires j <= k
    ensures Grid(last, interval, j) <= Grid(last, interval, k)
  {
    assert k * interval == j * interval + (k - j) * interval;
  }

  /** knl_cyc_next_time, in 32 bits, for a handler that last started less than 2^31 ago, or whose
      first start is still to come: the first point of its grid after now, so phases are never
      lost, whatever was missed; and the timer queue can take it. */
  lemma CycNextIsFirstAfter(last: nat, interval: nat, now: nat)
    requires 0 < interval < HALF && now < last + HALF && last + interval <= now + HALF
    ensures FirstAfter(last, interval, now, NextStart(last, interval, now))
    ensures NextStart(last, interval, now) <= now + HALF
    ensures CycNextTime(To32(last), interval, To32(now)) == To32(NextStart(last, interval, now))
  {
    NextStartFirst(last, interval, now);
    TimerQueue.Sum32(last, interval);
    ReachedExact(now, last + interval);
    if last + interval <= now {
      GridStep(now - last, interval);
      Elapsed32(last, now);
      TimerQueue.Sum32(last, ((now - last) / interval + 1) * interval);
    }
  }

  lemma NextStartFirst(last: nat, interval: nat, now: nat)
    requires interval > 0
    ensures FirstAfter(last, interval, now, NextStart(last, interval, now))
  {
    var k := if last + interval > now then 1 else (now - last) / interval + 1;
    assert Grid(last, interval, 1) == last + interval;
    if last + interval <= now { GridStep(now - last, interval); }
    forall j: nat | j >= 1 && now < Grid(last, interval, j) ensures Grid(last, interval, k) <= Grid(last, interval, j) {
      if j < k { GridGrows(last, interval, j, k - 1); } else { GridGrows(last, interval, k, j); }
    }
    assert k >= 1 && NextStart(last, interval, now) == Grid(last, interval, k);
  }

  lemma GridStep(e: nat, interval: nat)
    requires interval > 0
    ensures (e / interval + 1) * interval == e / interval * interval + interval
    ensures e / interval * interval <= e < e / interval * interval + interval
  {
  }

  lemma Elapsed32(last: nat, now: nat)
    requires last <= now < last + WRAP
    ensures Sub32(To32(now), To32(last)) == now - last
  {
    assert now == now / WRAP * WRAP + To32(now) && last == last / WRAP * WRAP + To32(last);
    assert now / WRAP == last / WRAP || now / WRAP == last / WRAP + 1;
  }

  // ----- Cyclic handlers over runs of the timer queue

  /** What knl_call_cychdr asks of the queue when the handler's event, due at 'last', has fired, before
      whatever else the user's function asks. */
  function Rearm(id: nat, last: nat, interval: nat, now: nat): Cmd
    requires interval > 0
  {
    ArmAbs(id, NextStart(last, interval, now))
  }

  /** The tick can take it, less than 2^31 after the due time: the re-armed event is strictly later, so
      the expiry loop ends, and within the comparable range. */
  lemma RearmReachable(id: nat, last: nat, interval: nat, now: nat)
    requires 0 < interval < HALF && last <= now < last + HALF
    ensures Reachable(now, [Rearm(id, last, interval, now)]) && Timely(now, [Rearm(id, last, interval, now)])
  {
    CycNextIsFirstAfter(last, interval, now);
  }

  /** Where a cyclic handler stands: its event is pending for 'due', or it has fired and its call waits
      in the queue of the processor it is routed to, and will arm the next start from 'due'. */
  datatype Phase = Phase(due: nat, routed: bool)

  /** The callback arms the next start first; what the user's function asks leaves this event alone. */
  predicate Rearms(cs: seq<Cmd>, id: nat, due: nat, interval: nat, now: nat)
    requires interval > 0
  {
    cs != [] && cs[0] == Rearm(id, due, interval, now) && Leaves(cs[1..], id)
  }

  /** What may happen to the handler's event in one step: in the tick that finds it due its callback
      re-arms it or routes it; a routed one is re-armed by a call at some later time; otherwise
      nobody arms or cancels it. */
  ghost predicate TurnOk(now: nat, o: Op, id: nat, p: Phase, interval: nat)
    requires interval > 0
  {
    match o
    case Tick(script) =>
      var t := now + TIMER_PERIOD;
      OthersLeave(script, id) && (!p.routed && p.due <= t ==> Rearms(script(id), id, p.due, interval, t) || Leaves(script(id), id))
    case Call(c) => c.id != id || (p.routed && c == Rearm(id, p.due, interval, now))
  }

  function NextPhase(now: nat, o: Op, id: nat, p: Phase, interval: nat): Phase
    requires interval > 0
  {
    match o
    case Tick(script) =>
      var t := now + TIMER_PERIOD;
      if p.routed || t < p.due then p
      else if Rearms(script(id), id, p.due, interval, t) then Phase(NextStart(p.due, interval, t), false)
      else Phase(p.due, true)
    case Call(c) => if c.id == id then Phase(NextStart(p.due, interval, now), false) else p
  }

  function Later(now: nat, o: Op): nat {
    if o.Tick? then now + TIMER_PERIOD else now
  }

  ghost predicate CyclicRun(now: nat, ops: seq<Op>, id: nat, p: Phase, interval: nat)
    requires interval > 0
    decreases ops
  {
    ops == [] || (TurnOk(now, ops[0], id, p, interval) &&
        CyclicRun(Later(now, ops[0]), ops[1..], id, NextPhase(now, ops[0], id, p, interval), interval))
  }

  /** The handler is due in this step. */
  predicate Strikes(now: nat, o: Op, p: Phase) {
    o.Tick? && !p.routed && p.due <= now + TIMER_PERIOD
  }

  /** When the handler should expire: at each tick that finds its event pending and due. */
  function Starts(now: nat, ops: seq<Op>, id: nat, p: Phase, interval: nat): seq<nat>
    requires interval > 0
    decreases ops
  {
    if ops == [] then []
    else
      var rest := Starts(Later(now, ops[0]), ops[1..], id, NextPhase(now, ops[0], id, p, interval), interval);
      if Strikes(now, ops[0], p) then [now + TIMER_PERIOD] + rest else rest
  }

  /** The queue holds what the phase says. */
  ghost predicate PhaseHolds(now: nat, q: seq<Event>, id: nat, p: Phase) {
    if p.routed then forall e :: e in q ==> e.id != id else Event(id, p.due) in q && now < p.due
  }

  ghost predicate InPhase(s: Clock, id: nat, p: Phase) {
    Ordered(s) && PhaseHolds(s.now, s.q, id, p)
  }

  /** The tick in which a cyclic handler's event is due fires it once and leaves it pending for the
      next start, whatever else its function asks. */
  lemma {:induction false} CyclicTick(now: nat, q: seq<Event>, script: nat -> seq<Cmd>, e: Event, c: Cmd)
    requires Sorted(q) && Distinct(q) && e in q && e.due <= now && ScriptTimely(now, script) && OthersLeave(script, e.id)
    requires script(e.id) != [] && script(e.id)[0] == c && Leaves(script(e.id)[1..], e.id) && c.ArmAbs? && c.id == e.id && now < c.due
    ensures var r := Expire(now, q, script); Count(r.1, e.id) == 1 && Event(e.id, c.due) in r.0
    decreases CountDue(now, q)
  {
    ExpireFires(now, q, script, e);
    var k :| 0 <= k < |q| && q[k] == e;
    assert q[0].due <= q[k].due;
    if q[0].id == e.id {
      CyclicHead(now, q, script, e, c);
    } else {
      var q' := ApplyAll(now, q[1..], script(q[0].id));
      HeadLeaves(now, q, script, e, k);
      CyclicTick(now, q', script, e, c);
    }
  }

  /** The handler's own turn: what it armed stays pending. */
  lemma CyclicHead(now: nat, q: seq<Event>, script: nat -> seq<Cmd>, e: Event, c: Cmd)
    requires Sorted(q) && Distinct(q) && q != [] && q[0].id == e.id && q[0].due <= now && ScriptTimely(now, script) && OthersLeave(script, e.id)
    requires script(e.id) != [] && script(e.id)[0] == c && Leaves(script(e.id)[1..], e.id) && c.ArmAbs? && c.id == e.id && now < c.due
    ensures Event(e.id, c.due) in Expire(now, q, script).0
  {
    var next := Event(e.id, c.due);
    var q' := ApplyAll(now, q[1..], script(q[0].id));
    CountApplyAll(now, q[1..], script(q[0].id));
    ApplyAllOrdered(now, q[1..], script(q[0].id));
    ApplyAllKeeps(now, Apply(now, q[1..], c), script(e.id)[1..], next);
    ExpireFires(now, q', script, next);
  }

  /** The tick in which the event of a routed handler is due fires it once, and it is pending no more. */
  lemma {:induction false} RoutedTick(now: nat, q: seq<Event>, script: nat -> seq<Cmd>, e: Event)
    requires Sorted(q) && Distinct(q) && e in q && e.due <= now && ScriptTimely(now, script) && OthersLeave(script, e.id)
    requires Leaves(script(e.id), e.id)
    ensures var r := Expire(now, q, script); Count(r.1, e.id) == 1 && forall f :: f in r.0 ==> f.id != e.id
    decreases CountDue(now, q)
  {
    ExpireFires(now, q, script, e);
    var k :| 0 <= k < |q| && q[k] == e;
    assert q[0].due <= q[k].due;
    var q' := ApplyAll(now, q[1..], script(q[0].id));
    CountApplyAll(now, q[1..], script(q[0].id));
    if q[0].id == e.id {
      assert forall i :: 0 <= i < |q[1..]| ==> q[1..][i] == q[i + 1];
      NotPendingKeeps(now, q[1..], script(q[0].id), e.id);
      ExpireSkips(now, q', script, e.id);
    } else {
      HeadLeaves(now, q, script, e, k);
      RoutedTick(now, q', script, e);
    }
  }

  /** Another event's turn: e stays, and the queue is ordered. */
  lemma HeadLeaves(now: nat, q: seq<Event>, script: nat -> seq<Cmd>, e: Event, k: nat)
    requires Sorted(q) && Distinct(q) && k < |q| && q[k] == e && q[0].id != e.id && q[0].due <= now
    requires ScriptTimely(now, script) && OthersLeave(script, e.id)
    ensures var q' := ApplyAll(now, q[1..], script(q[0].id)); Sorted(q') && Distinct(q') && e in q' && CountDue(now, q') < CountDue(now, q)
  {
    CountApplyAll(now, q[1..], script(q[0].id));
    ApplyAllOrdered(now, q[1..], script(q[0].id));
    assert q[1..][k - 1] == e;
    ApplyAllKeeps(now, q[1..], script(q[0].id), e);
  }

  /** One step of a run: the event fires exactly when it strikes, and the queue follows the phase. */
  lemma CyclicStep(s: Clock, o: Op, id: nat, p: Phase, interval: nat)
    requires InPhase(s, id, p) && OpOk(s.now, o) && interval > 0 && TurnOk(s.now, o, id, p, interval)
    ensures var n := Next(s, o);
      && PhaseHolds(n.0.now, n.0.q, id, NextPhase(s.now, o, id, p, interval))
      && Count(n.1, id) == if Strikes(s.now, o, p) then 1 else 0
  {
    match o
    case Tick(script) => PhaseTick(s.now + TIMER_PERIOD, s.q, script, id, p, interval);
    case Call(c) => PhaseCall(s.now, s.q, c, id, p, interval);
  }

  lemma PhaseCall(now: nat, q: seq<Event>, c: Cmd, id: nat, p: Phase, interval: nat)
    requires interval > 0 && PhaseHolds(now, q, id, p) && TurnOk(now, Call(c), id, p, interval)
    ensures PhaseHolds(now, Apply(now, q, c), id, NextPhase(now, Call(c), id, p, interval))
  {
    if c.id == id { NextStartLater(p.due, interval, now); }
  }

  lemma PhaseTick(t: nat, q: seq<Event>, script: nat -> seq<Cmd>, id: nat, p: Phase, interval: nat)
    requires t >= TIMER_PERIOD && ScriptTimely(t, script) && interval > 0
    requires InPhase(Clock(t - TIMER_PERIOD, q), id, p) && TurnOk(t - TIMER_PERIOD, Tick(script), id, p, interval)
    ensures var r, next := Expire(t, q, script), NextPhase(t - TIMER_PERIOD, Tick(script), id, p, interval);
      Count(r.1, id) == (if Strikes(t - TIMER_PERIOD, Tick(script), p) then 1 else 0) && PhaseHolds(t, r.0, id, next)
  {
    if p.routed {
      ExpireSkips(t, q, script, id);
    } else if t < p.due {
      ExpireFires(t, q, script, Event(id, p.due));
    } else if Rearms(script(id), id, p.due, interval, t) {
      NextStartLater(p.due, interval, t);
      CyclicTick(t, q, script, Event(id, p.due), Rearm(id, p.due, interval, t));
    } else {
      RoutedTick(t, q, script, Event(id, p.due));
    }
  }

  /** Over any run a cyclic handler, local or routed, whatever its function asks of other events,
      expires exactly at the ticks that find it pending and due. */
  lemma {:induction false} CyclicKeepsPhase(s: Clock, ops: seq<Op>, id: nat, p: Phase, interval: nat)
    requires RunOk(s.now, ops) && InPhase(s, id, p) && 0 < interval && CyclicRun(s.now, ops, id, p, interval)
    ensures Firings(s, ops, id) == Starts(s.now, ops, id, p, interval)
    decreases ops
  {
    if ops != [] {
      var n := Next(s, ops[0]).0;
      CyclicStep(s, ops[0], id, p, interval);
      NextOrdered(s, ops[0]);
      CyclicKeepsPhase(n, ops[1..], id, NextPhase(s.now, ops[0], id, p, interval), interval);
      if Strikes(s.now, ops[0], p) { FiringOne(s, ops, id); } else { SilentStep(s, ops, id); }
    }
  }

  /** t is the first tick that reaches some point of the grid. */
  ghost predicate FirstTickOf(due: nat, interval: nat, t: nat) {
    exists k: nat :: Grid(due, interval, k) <= t < Grid(due, interval, k) + TIMER_PERIOD
  }

  /** Every expiry is at the first tick that reaches a point of the one grid the handler began with:
      phases are kept, however many starts were missed. */
  lemma {:induction false} StartsOnGrid(now: nat, ops: seq<Op>, id: nat, p: Phase, interval: nat, i: nat)
    requires interval > 0 && (p.routed || now < p.due) && CyclicRun(now, ops, id, p, interval) && i < |Starts(now, ops, id, p, interval)|
    ensures FirstTickOf(p.due, interval, Starts(now, ops, id, p, interval)[i])
    decreases ops
  {
    var next := NextPhase(now, ops[0], id, p, interval);
    if Strikes(now, ops[0], p) && i == 0 {
      assert Grid(p.due, interval, 0) == p.due;
    } else {
      var j := if Strikes(now, ops[0], p) then i - 1 else i;
      var k := NextOnGrid(now, ops[0], id, p, interval);
      StartsOnGrid(Later(now, ops[0]), ops[1..], id, next, interval, j);
      GridShift(p.due, interval, k, Starts(now, ops, id, p, interval)[i]);
    }
  }

  /** Each step leaves the next point on the grid, ahead of the clock. */
  lemma NextOnGrid(now: nat, o: Op, id: nat, p: Phase, interval: nat) returns (k: nat)
    requires interval > 0 && (p.routed || now < p.due) && TurnOk(now, o, id, p, interval)
    ensures var next := NextPhase(now, o, id, p, interval);
      next.due == Grid(p.due, interval, k) && (next.routed || Later(now, o) < next.due)
  {
    var t := Later(now, o);
    NextStartLater(p.due, interval, t);
    k := if NextPhase(now, o, id, p, interval).due == p.due then 0 else if p.due + interval > t then 1 else (t - p.due) / interval + 1;
  }

  lemma GridShift(due: nat, interval: nat, k: nat, t: nat)
    requires FirstTickOf(Grid(due, interval, k), interval, t)
    ensures FirstTickOf(due, interval, t)
  {
    var j: nat :| Grid(Grid(due, interval, k), interval, j) <= t < Grid(Grid(due, interval, k), interval, j) + TIMER_PERIOD;
    assert Grid(Grid(due, interval, k), interval, j) == Grid(due, interval, k + j) by { assert (k + j) * interval == k * interval + j * interval; }
  }

  lemma NextStartLater(last: nat, interval: nat, now: nat)
    requires interval > 0
    ensures now < NextStart(last, interval, now)
  {
    if last + interval <= now { GridStep(now - last, interval); }
  }
}
