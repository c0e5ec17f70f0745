/** The timer event queue (kernel/tkernel/timer.c, timer.h, time_calls.h): 32-bit times that wrap,
    against a queue ordered by the true 64-bit due times. */
module TimerSpec {

  const TIMER_PERIOD := 10
  const WRAP := 0x1_0000_0000
  const HALF := 0x8000_0000

  /** A pending event and the true time it is due. */
  datatype Event = Event(id: nat, due: nat)

  /** What callbacks and system calls ask of the queue: an event after a timeout, at an absolute time,
      or not at all. Either arming cancels a pending event first. */
  datatype Cmd = Arm(id: nat, tmout: nat) | ArmAbs(id: nat, due: nat) | Cancel(id: nat)

  /** When the armed event is due: a timeout counts from now, with a period on top. */
  function DueOf(now: nat, c: Cmd): nat
    requires !c.Cancel?
  {
    if c.Arm? then now + c.tmout + TIMER_PERIOD else c.due
  }

  /** Absolute times asked for lie after now. */
  predicate Timely(now: nat, cs: seq<Cmd>) {
    forall i :: 0 <= i < |cs| && cs[i].ArmAbs? ==> now < cs[i].due
  }

  ghost predicate ScriptTimely(now: nat, script: nat -> seq<Cmd>) {
    forall f: nat :: Timely(now, script(f))
  }

  predicate Sorted(q: seq<Event>) {
    forall i, j :: 0 <= i < j < |q| ==> q[i].due <= q[j].due
  }

  predicate Distinct(q: seq<Event>) {
    forall i, j :: 0 <= i < j < |q| ==> q[i].id != q[j].id
  }

  predicate Pending(q: seq<Event>, id: nat) {
    exists i :: 0 <= i < |q| && q[i].id == id
  }

  /** Every event lies ahead of 'now', by at most half the 32-bit range. */
  predicate Ahead(q: seq<Event>, now: nat) {
    forall i :: 0 <= i < |q| ==> now < q[i].due <= now + HALF
  }

  function Remove(q: seq<Event>, id: nat): (r: seq<Event>)
    ensures forall e :: e in r <==> e in q && e.id != id
    ensures |r| <= |q|
  {
    if q == [] then [] else if q[0].id == id then Remove(q[1..], id) else [q[0]] + Remove(q[1..], id)
  }

  /** Behind every event due no later: FIFO among equals. */
  function Insert(q: seq<Event>, e: Event): (r: seq<Event>)
    ensures forall f :: f in r <==> f in q || f == e
    ensures |r| == |q| + 1
  {
    if q == [] || e.due < q[0].due then [e] + q else [q[0]] + Insert(q[1..], e)
  }

  /** r is q with e behind everything due no later and in front of everything due later. */
  ghost predicate Joins(q: seq<Event>, e: Event, r: seq<Event>) {
    exists k: nat :: JoinsAt(q, e, r, k)
  }

  ghost predicate JoinsAt(q: seq<Event>, e: Event, r: seq<Event>, k: nat) {
    && k <= |q| && r == q[..k] + [e] + q[k..]
    && (forall i :: 0 <= i < k ==> q[i].due <= e.due) && (forall i :: k <= i < |q| ==> e.due < q[i].due)
  }

  /** A new event comes after all those due at the same time. */
  lemma {:induction false} InsertJoins(q: seq<Event>, e: Event)
    requires Sorted(q)
    ensures Joins(q, e, Insert(q, e))
  {
    if q == [] || e.due < q[0].due {
      assert [e] + q == q[..0] + [e] + q[0..];
      assert JoinsAt(q, e, Insert(q, e), 0);
    } else {
      InsertJoins(q[1..], e);
      var k: nat :| JoinsAt(q[1..], e, Insert(q[1..], e), k);
      assert q == [q[0]] + q[1..] && Insert(q, e) == [q[0]] + Insert(q[1..], e);
      JoinsCons(q[0], q[1..], e, Insert(q[1..], e), k);
    }
  }

  lemma JoinsCons(h: Event, q: seq<Event>, e: Event, r: seq<Event>, k: nat)
    requires JoinsAt(q, e, r, k) && h.due <= e.due
    ensures JoinsAt([h] + q, e, [h] + r, k + 1)
  {
    var q' := [h] + q;
    assert q'[..k + 1] == [h] + q[..k] && q'[k + 1..] == q[k..];
    assert [h] + (q[..k] + [e] + q[k..]) == q'[..k + 1] + [e] + q'[k + 1..];
  }

  function Apply(now: nat, q: seq<Event>, c: Cmd): seq<Event> {
    match c
    case Arm(id, tmout) => Insert(Remove(q, id), Event(id, DueOf(now, c)))
    case ArmAbs(id, due) => Insert(Remove(q, id), Event(id, DueOf(now, c)))
    case Cancel(id) => Remove(q, id)
  }

  function ApplyAll(now: nat, q: seq<Event>, cs: seq<Cmd>): seq<Event>
    decreases cs
  {
    if cs == [] then q else ApplyAll(now, Apply(now, q, cs[0]), cs[1..])
  }

  function CountDue(now: nat, q: seq<Event>): nat {
    if q == [] then 0 else (if q[0].due <= now then 1 else 0) + CountDue(now, q[1..])
  }

  lemma {:induction false} CountRemove(now: nat, q: seq<Event>, id: nat)
    ensures CountDue(now, Remove(q, id)) <= CountDue(now, q)
  {
    if q != [] { CountRemove(now, q[1..], id); }
  }

  lemma {:induction false} CountInsert(now: nat, q: seq<Event>, e: Event)
    ensures CountDue(now, Insert(q, e)) == CountDue(now, q) + if e.due <= now then 1 else 0
  {
    if !(q == [] || e.due < q[0].due) { CountInsert(now, q[1..], e); }
    else { assert ([e] + q)[1..] == q; }
  }

  /** Nothing a callback does makes another event due in the same tick. */
  lemma {:induction false} CountApplyAll(now: nat, q: seq<Event>, cs: seq<Cmd>)
    requires Timely(now, cs)
    ensures CountDue(now, ApplyAll(now, q, cs)) <= CountDue(now, q)
    decreases cs
  {
    if cs != [] {
      CountRemove(now, q, cs[0].id);
      if !cs[0].Cancel? { CountInsert(now, Remove(q, cs[0].id), Event(cs[0].id, DueOf(now, cs[0]))); }
      CountApplyAll(now, Apply(now, q, cs[0]), cs[1..]);
    }
  }

  /** The expiry loop of the tick: fire the head while it is due, run its callback, look again. */
  function Expire(now: nat, q: seq<Event>, script: nat -> seq<Cmd>): (r: (seq<Event>, seq<nat>))
    requires ScriptTimely(now, script)
    decreases CountDue(now, q)
  {
    if q == [] || q[0].due > now then (q, [])
    else
      CountApplyAll(now, q[1..], script(q[0].id));
      var r := Expire(now, ApplyAll(now, q[1..], script(q[0].id)), script);
      (r.0, [q[0].id] + r.1)
  }

  // ----- The abstract queue stays ordered

  lemma {:induction false} InsertSorted(q: seq<Event>, e: Event)
    requires Sorted(q)
    ensures Sorted(Insert(q, e))
  {
    if !(q == [] || e.due < q[0].due) {
      InsertSorted(q[1..], e);
      var r := Insert(q[1..], e);
      assert forall i :: 0 <= i < |r| ==> r[i] in r;
    }
  }

  lemma {:induction false} RemoveSorted(q: seq<Event>, id: nat)
    requires Sorted(q)
    ensures Sorted(Remove(q, id))
  {
    if q != [] {
      RemoveSorted(q[1..], id);
      var r := Remove(q[1..], id);
      forall i | 0 <= i < |r| ensures q[0].due <= r[i].due {
        assert r[i] in r;
        var j :| 0 <= j < |q[1..]| && q[1..][j] == r[i];
        assert q[j + 1] == r[i];
      }
    }
  }

  lemma {:induction false} RemoveDistinct(q: seq<Event>, id: nat)
    requires Distinct(q)
    ensures Distinct(Remove(q, id)) && !Pending(Remove(q, id), id)
  {
    if q != [] {
      RemoveDistinct(q[1..], id);
      var r := Remove(q[1..], id);
      forall i | 0 <= i < |r| ensures q[0].id != r[i].id {
        assert r[i] in r;
        var j :| 0 <= j < |q[1..]| && q[1..][j] == r[i];
        assert q[j + 1] == r[i];
      }
      if q[0].id != id { PendingCons(q[0], r, id); }
    }
  }

  lemma PendingCons(e: Event, r: seq<Event>, id: nat)
    requires e.id != id && !Pending(r, id)
    ensures !Pending([e] + r, id)
  {
  }

  lemma {:induction false} InsertDistinct(q: seq<Event>, e: Event)
    requires Distinct(q) && !Pending(q, e.id)
    ensures Distinct(Insert(q, e))
  {
    if !(q == [] || e.due < q[0].due) {
      assert forall i :: 0 <= i < |q[1..]| ==> q[1..][i] == q[i + 1];
      InsertDistinct(q[1..], e);
      var r := Insert(q[1..], e);
      assert forall i :: 0 <= i < |r| ==> r[i] in r;
    }
  }

  lemma ApplyOrdered(now: nat, q: seq<Event>, c: Cmd)
    requires Sorted(q) && Distinct(q)
    ensures Sorted(Apply(now, q, c)) && Distinct(Apply(now, q, c))
  {
    RemoveSorted(q, c.id);
    RemoveDistinct(q, c.id);
    if !c.Cancel? {
      InsertSorted(Remove(q, c.id), Event(c.id, DueOf(now, c)));
      InsertDistinct(Remove(q, c.id), Event(c.id, DueOf(now, c)));
    }
  }

  lemma {:induction false} ApplyAllOrdered(now: nat, q: seq<Event>, cs: seq<Cmd>)
    requires Sorted(q) && Distinct(q)
    ensures Sorted(ApplyAll(now, q, cs)) && Distinct(ApplyAll(now, q, cs))
    decreases cs
  {
    if cs != [] {
      ApplyOrdered(now, q, cs[0]);
      ApplyAllOrdered(now, Apply(now, q, cs[0]), cs[1..]);
    }
  }

  /** After a tick nothing due is left, whatever the callbacks armed or cancelled. */
  lemma {:induction false} ExpireLeavesFuture(now: nat, q: seq<Event>, script: nat -> seq<Cmd>)
    requires Sorted(q) && Distinct(q) && ScriptTimely(now, script)
    ensures var r := Expire(now, q, script); Sorted(r.0) && Distinct(r.0) && forall e :: e in r.0 ==> now < e.due
    decreases CountDue(now, q)
  {
    if q == [] || q[0].due > now {
    } else {
      CountApplyAll(now, q[1..], script(q[0].id));
      ApplyAllOrdered(now, q[1..], script(q[0].id));
      ExpireLeavesFuture(now, ApplyAll(now, q[1..], script(q[0].id)), script);
    }
  }

  // ----- In the order of the queue

  /** e stands before f. */
  ghost predicate Before(q: seq<Event>, e: Event, f: Event) {
    exists i, j :: 0 <= i < j < |q| && q[i] == e && q[j] == f
  }

  lemma BeforeCons(h: Event, q: seq<Event>, e: Event, f: Event)
    ensures Before(q, e, f) ==> Before([h] + q, e, f)
    ensures f in q ==> Before([h] + q, h, f)
    ensures Before([h] + q, e, f) ==> Before(q, e, f) || (h == e && f in q)
  {
    var r := [h] + q;
    if Before(q, e, f) {
      var i, j :| 0 <= i < j < |q| && q[i] == e && q[j] == f;
      assert r[i + 1] == e && r[j + 1] == f;
    }
    if f in q {
      var j :| 0 <= j < |q| && q[j] == f;
      assert r[0] == h && r[j + 1] == f;
    }
    if Before(r, e, f) {
      var i, j :| 0 <= i < j < |r| && r[i] == e && r[j] == f;
      assert q[j - 1] == f;
      if i > 0 { assert q[i - 1] == e; }
    }
  }

  /** Neither inserting another event nor removing one changes who stands before whom. */
  lemma {:induction false} InsertKeepsBefore(q: seq<Event>, g: Event, e: Event, f: Event)
    requires Before(Insert(q, g), e, f) && e != g && f != g
    ensures Before(q, e, f)
  {
    if q == [] || g.due < q[0].due {
      BeforeCons(g, q, e, f);
    } else {
      BeforeCons(q[0], Insert(q[1..], g), e, f);
      assert q == [q[0]] + q[1..];
      BeforeCons(q[0], q[1..], e, f);
      if Before(Insert(q[1..], g), e, f) { InsertKeepsBefore(q[1..], g, e, f); }
    }
  }

  lemma {:induction false} RemoveKeepsBefore(q: seq<Event>, id: nat, e: Event, f: Event)
    requires Before(Remove(q, id), e, f)
    ensures Before(q, e, f)
  {
    if q != [] {
      assert q == [q[0]] + q[1..];
      BeforeCons(q[0], q[1..], e, f);
      BeforeCons(q[0], Remove(q[1..], id), e, f);
      if Before(Remove(q[1..], id), e, f) { RemoveKeepsBefore(q[1..], id, e, f); }
    }
  }

  lemma {:induction false} CallbackKeepsBefore(now: nat, q: seq<Event>, cs: seq<Cmd>, e: Event, f: Event)
    requires Timely(now, cs) && e.due <= now && f.due <= now && Before(ApplyAll(now, q, cs), e, f)
    ensures Before(q, e, f)
    decreases cs
  {
    if cs != [] {
      CallbackKeepsBefore(now, Apply(now, q, cs[0]), cs[1..], e, f);
      if !cs[0].Cancel? { InsertKeepsBefore(Remove(q, cs[0].id), Event(cs[0].id, DueOf(now, cs[0])), e, f); }
      RemoveKeepsBefore(q, cs[0].id, e, f);
    }
  }

  lemma {:induction false} CallbackAddsNoneDue(now: nat, q: seq<Event>, cs: seq<Cmd>, e: Event)
    requires Timely(now, cs) && e.due <= now && e in ApplyAll(now, q, cs)
    ensures e in q
    decreases cs
  {
    if cs != [] { CallbackAddsNoneDue(now, Apply(now, q, cs[0]), cs[1..], e); }
  }

  /** Who fires in a tick was due in the queue before it. */
  lemma {:induction false} FiredWasDue(now: nat, q: seq<Event>, script: nat -> seq<Cmd>, j: nat) returns (e: Event)
    requires ScriptTimely(now, script) && j < |Expire(now, q, script).1|
    ensures e in q && e.due <= now && e.id == Expire(now, q, script).1[j]
    decreases CountDue(now, q)
  {
    if j == 0 {
      e := q[0];
    } else {
      CountApplyAll(now, q[1..], script(q[0].id));
      e := FiredWasDue(now, ApplyAll(now, q[1..], script(q[0].id)), script, j - 1);
      CallbackAddsNoneDue(now, q[1..], script(q[0].id), e);
      assert e in q[1..];
    }
  }

  /** Whatever the callbacks do, events fire in the order of the queue: by due time, and within one
      due time in the order they were inserted. */
  lemma {:induction false} FiresInOrder(now: nat, q: seq<Event>, script: nat -> seq<Cmd>, j: nat, k: nat) returns (e: Event, f: Event)
    requires ScriptTimely(now, script) && j < k < |Expire(now, q, script).1|
    ensures Before(q, e, f) && e.due <= now && f.due <= now
    ensures e.id == Expire(now, q, script).1[j] && f.id == Expire(now, q, script).1[k]
    decreases CountDue(now, q)
  {
    FiredNext(now, q, script, j);
    FiredNext(now, q, script, k);
    var cs := script(q[0].id);
    if j == 0 {
      e := q[0];
      f := FiredWasDue(now, ApplyAll(now, q[1..], cs), script, k - 1);
      HeadBefore(now, q, cs, f);
    } else {
      e, f := FiresInOrder(now, ApplyAll(now, q[1..], cs), script, j - 1, k - 1);
      TailBefore(now, q, cs, e, f);
    }
  }

  /** The first to fire is the head, and the others fire as from the queue its callback leaves. */
  lemma FiredNext(now: nat, q: seq<Event>, script: nat -> seq<Cmd>, k: nat)
    requires ScriptTimely(now, script) && k < |Expire(now, q, script).1|
    ensures q != [] && q[0].due <= now && Timely(now, script(q[0].id))
    ensures var q', fired := ApplyAll(now, q[1..], script(q[0].id)), Expire(now, q, script).1;
      && CountDue(now, q') < CountDue(now, q)
      && if k == 0 then fired[k] == q[0].id else k - 1 < |Expire(now, q', script).1| && fired[k] == Expire(now, q', script).1[k - 1]
  {
    CountApplyAll(now, q[1..], script(q[0].id));
  }

  lemma HeadBefore(now: nat, q: seq<Event>, cs: seq<Cmd>, f: Event)
    requires q != [] && Timely(now, cs) && f.due <= now && f in ApplyAll(now, q[1..], cs)
    ensures Before(q, q[0], f)
  {
    CallbackAddsNoneDue(now, q[1..], cs, f);
    assert q == [q[0]] + q[1..];
    BeforeCons(q[0], q[1..], q[0], f);
  }

  lemma TailBefore(now: nat, q: seq<Event>, cs: seq<Cmd>, e: Event, f: Event)
    requires q != [] && Timely(now, cs) && e.due <= now && f.due <= now && Before(ApplyAll(now, q[1..], cs), e, f)
    ensures Before(q, e, f)
  {
    CallbackKeepsBefore(now, q[1..], cs, e, f);
    assert q == [q[0]] + q[1..];
    BeforeCons(q[0], q[1..], e, f);
  }

  // ----- Exactly once, at the first tick not before the due time

  function Count(l: seq<nat>, id: nat): nat {
    if l == [] then 0 else (if l[0] == id then 1 else 0) + Count(l[1..], id)
  }

  predicate Leaves(cs: seq<Cmd>, id: nat) {
    forall i :: 0 <= i < |cs| ==> cs[i].id != id
  }

  lemma {:induction false} ApplyAllKeeps(now: nat, q: seq<Event>, cs: seq<Cmd>, e: Event)
    requires Leaves(cs, e.id)
    ensures e in ApplyAll(now, q, cs) <==> e in q
    decreases cs
  {
    if cs != [] {
      assert e in Apply(now, q, cs[0]) <==> e in q;
      ApplyAllKeeps(now, Apply(now, q, cs[0]), cs[1..], e);
    }
  }

  lemma {:induction false} NotPendingKeeps(now: nat, q: seq<Event>, cs: seq<Cmd>, id: nat)
    requires Leaves(cs, id) && forall e :: e in q ==> e.id != id
    ensures forall e :: e in ApplyAll(now, q, cs) ==> e.id != id
    decreases cs
  {
    if cs != [] { NotPendingKeeps(now, Apply(now, q, cs[0]), cs[1..], id); }
  }

  /** Callbacks of other events leave id alone; its own may arm it again. */
  ghost predicate OthersLeave(script: nat -> seq<Cmd>, id: nat) {
    forall f: nat :: f != id ==> Leaves(script(f), id)
  }

  /** No event of this id is due. */
  predicate OnlyFuture(now: nat, q: seq<Event>, id: nat) {
    forall e :: e in q && e.id == id ==> now < e.due
  }

  lemma {:induction false} ApplyAllFuture(now: nat, q: seq<Event>, cs: seq<Cmd>, id: nat)
    requires Timely(now, cs) && OnlyFuture(now, q, id)
    ensures OnlyFuture(now, ApplyAll(now, q, cs), id)
    decreases cs
  {
    if cs != [] { ApplyAllFuture(now, Apply(now, q, cs[0]), cs[1..], id); }
  }

  lemma {:induction false} ExpireSkips(now: nat, q: seq<Event>, script: nat -> seq<Cmd>, id: nat)
    requires ScriptTimely(now, script) && OthersLeave(script, id) && forall e :: e in q ==> e.id != id
    ensures Count(Expire(now, q, script).1, id) == 0 && forall e :: e in Expire(now, q, script).0 ==> e.id != id
    decreases CountDue(now, q)
  {
    if q == [] || q[0].due > now {
    } else {
      assert q[0] in q;
      var q' := ApplyAll(now, q[1..], script(q[0].id));
      CountApplyAll(now, q[1..], script(q[0].id));
      NotPendingKeeps(now, q[1..], script(q[0].id), id);
      ExpireSkips(now, q', script, id);
      var r := Expire(now, q', script);
      assert ([q[0].id] + r.1)[1..] == r.1;
    }
  }

  /** One tick, for an event that nobody else cancels or arms: it fires exactly once if it is due, even
      if its own callback arms it again; otherwise it stays pending and does not fire. */
  lemma {:induction false} ExpireFires(now: nat, q: seq<Event>, script: nat -> seq<Cmd>, e: Event)
    requires Sorted(q) && Distinct(q) && e in q && ScriptTimely(now, script) && OthersLeave(script, e.id)
    ensures var r := Expire(now, q, script);
      if e.due <= now then Count(r.1, e.id) == 1 && OnlyFuture(now, r.0, e.id)
      else Count(r.1, e.id) == 0 && e in r.0
    decreases CountDue(now, q)
  {
    var k :| 0 <= k < |q| && q[k] == e;
    if q[0].due > now {
      assert k == 0 || q[0].due <= q[k].due;
    } else {
      var cs := script(q[0].id);
      var q' := ApplyAll(now, q[1..], cs);
      var r := Expire(now, q', script);
      CountApplyAll(now, q[1..], cs);
      ApplyAllOrdered(now, q[1..], cs);
      assert ([q[0].id] + r.1)[1..] == r.1;
      if q[0].id == e.id {
        assert k == 0;
        assert forall f :: f in q[1..] ==> f.id != e.id;
        ApplyAllFuture(now, q[1..], cs, e.id);
        ExpireLeavesFuture(now, q', script);
        RearmedWaits(now, q', script, e.id);
      } else {
        assert q[1..][k - 1] == e;
        ApplyAllKeeps(now, q[1..], cs, e);
        ExpireFires(now, q', script, e);
      }
    }
  }

  /** What the own callback armed does not fire in the same tick. */
  lemma {:induction false} RearmedWaits(now: nat, q: seq<Event>, script: nat -> seq<Cmd>, id: nat)
    requires Sorted(q) && Distinct(q) && ScriptTimely(now, script) && OthersLeave(script, id) && OnlyFuture(now, q, id)
    ensures Count(Expire(now, q, script).1, id) == 0
    decreases CountDue(now, q)
  {
    if q == [] || q[0].due > now {
    } else {
      var cs := script(q[0].id);
      var q' := ApplyAll(now, q[1..], cs);
      CountApplyAll(now, q[1..], cs);
      ApplyAllOrdered(now, q[1..], cs);
      assert q[0] in q && forall f :: f in q[1..] ==> f in q;
      ApplyAllFuture(now, q[1..], cs, id);
      RearmedWaits(now, q', script, id);
      var r := Expire(now, q', script);
      assert ([q[0].id] + r.1)[1..] == r.1;
    }
  }

  // ----- Runs

  /** What happens from outside: system calls between ticks, and ticks. */
  datatype Op = Call(c: Cmd) | Tick(script: nat -> seq<Cmd>)

  datatype Clock = Clock(now: nat, q: seq<Event>)

  /** The callbacks of a tick ask for times after it. */
  ghost predicate OpOk(now: nat, o: Op) {
    o.Tick? ==> ScriptTimely(now + TIMER_PERIOD, o.script)
  }

  function Next(s: Clock, o: Op): (r: (Clock, seq<nat>))
    requires OpOk(s.now, o)
    ensures r.0.now == if o.Tick? then s.now + TIMER_PERIOD else s.now
  {
    match o
    case Call(c) => (Clock(s.now, Apply(s.now, s.q, c)), [])
    case Tick(script) =>
      var now := s.now + TIMER_PERIOD;
      var r := Expire(now, s.q, script);
      (Clock(now, r.0), r.1)
  }

  ghost predicate RunOk(now: nat, ops: seq<Op>)
    decreases ops
  {
    ops == [] || (OpOk(now, ops[0]) && RunOk(if ops[0].Tick? then now + TIMER_PERIOD else now, ops[1..]))
  }

  /** Every event fired while running ops, with the time of its tick. */
  function Firings(s: Clock, ops: seq<Op>, id: nat): seq<nat>
    requires RunOk(s.now, ops)
    decreases ops
  {
    if ops == [] then []
    else
      var n := Next(s, ops[0]);
      seq(Count(n.1, id), _ => n.0.now) + Firings(n.0, ops[1..], id)
  }

  function After(s: Clock, ops: seq<Op>): Clock
    requires RunOk(s.now, ops)
    decreases ops
  {
    if ops == [] then s else After(Next(s, ops[0]).0, ops[1..])
  }

  predicate Ordered(s: Clock) {
    Sorted(s.q) && Distinct(s.q)
  }

  /** Nobody in ops arms or cancels id, except its own callback. */
  ghost predicate Untouched(ops: seq<Op>, id: nat) {
    forall i :: 0 <= i < |ops| ==> Spares(ops[i], id)
  }

  ghost predicate Spares(o: Op, id: nat) {
    match o
    case Call(c) => c.id != id
    case Tick(script) => OthersLeave(script, id)
  }

  lemma NextOrdered(s: Clock, o: Op)
    requires Ordered(s) && OpOk(s.now, o)
    ensures Ordered(Next(s, o).0)
  {
    match o
    case Call(c) => ApplyOrdered(s.now, s.q, c);
    case Tick(script) => ExpireLeavesFuture(s.now + TIMER_PERIOD, s.q, script);
  }

  lemma {:induction false} GoneStaysSilent(s: Clock, ops: seq<Op>, id: nat)
    requires Ordered(s) && RunOk(s.now, ops) && (forall e :: e in s.q ==> e.id != id) && Untouched(ops, id)
    ensures Firings(s, ops, id) == []
    decreases ops
  {
    if ops != [] {
      NextOrdered(s, ops[0]);
      match ops[0] {
        case Call(c) =>
        case Tick(script) => ExpireSkips(s.now + TIMER_PERIOD, s.q, script, id);
      }
      GoneStaysSilent(Next(s, ops[0]).0, ops[1..], id);
    }
  }

  /** What is cancelled and not armed again never fires. */
  lemma CancelledStaysSilent(s: Clock, ops: seq<Op>, id: nat)
    requires Ordered(s) && RunOk(s.now, ops) && ops != [] && ops[0] == Call(Cancel(id)) && Untouched(ops[1..], id)
    ensures Firings(s, ops, id) == []
  {
    NextOrdered(s, ops[0]);
    GoneStaysSilent(Next(s, ops[0]).0, ops[1..], id);
  }

  /** Step i of ops fires e: at the first tick not before its due time, and for the first time; later
      firings are those of the state after it, in which nothing of e is due. */
  ghost predicate FiresAt(s: Clock, ops: seq<Op>, e: Event, i: nat)
    requires RunOk(s.now, ops)
  {
    && i < |ops| && RunOk(s.now, ops[..i + 1])
    && var y := After(s, ops[..i + 1]);
      && Ordered(y) && RunOk(y.now, ops[i + 1..]) && OnlyFuture(y.now, y.q, e.id)
      && e.due <= y.now < e.due + TIMER_PERIOD
      && Firings(s, ops, e.id) == [y.now] + Firings(y, ops[i + 1..], e.id)
  }

  /** e is still pending and has not fired, or step i fired it. */
  ghost predicate FiresOnce(s: Clock, ops: seq<Op>, e: Event, i: nat)
    requires RunOk(s.now, ops)
  {
    if After(s, ops).now < e.due then Firings(s, ops, e.id) == [] && e in After(s, ops).q else FiresAt(s, ops, e, i)
  }

  lemma AfterOne(s: Clock, ops: seq<Op>)
    requires RunOk(s.now, ops) && ops != []
    ensures RunOk(s.now, ops[..1]) && After(s, ops[..1]) == Next(s, ops[0]).0 && RunOk(Next(s, ops[0]).0.now, ops[1..])
  {
    assert ops[..1][0] == ops[0] && ops[..1][1..] == [];
    assert RunOk(Next(s, ops[0]).0.now, []);
  }

  lemma FiringOne(s: Clock, ops: seq<Op>, id: nat)
    requires RunOk(s.now, ops) && ops != [] && Count(Next(s, ops[0]).1, id) == 1
    ensures Firings(s, ops, id) == [Next(s, ops[0]).0.now] + Firings(Next(s, ops[0]).0, ops[1..], id)
  {
    assert seq(1, _ => Next(s, ops[0]).0.now) == [Next(s, ops[0]).0.now];
  }

  lemma TickFires(s: Clock, o: Op, e: Event)
    requires Ordered(s) && OpOk(s.now, o) && e in s.q && o.Tick? && e.due <= s.now + TIMER_PERIOD && Spares(o, e.id)
    ensures var n := Next(s, o); Ordered(n.0) && OnlyFuture(n.0.now, n.0.q, e.id) && Count(n.1, e.id) == 1
  {
    ExpireFires(s.now + TIMER_PERIOD, s.q, o.script, e);
    NextOrdered(s, o);
  }

  lemma FiresNow(s: Clock, ops: seq<Op>, e: Event)
    requires Ordered(s) && RunOk(s.now, ops) && e in s.q && s.now < e.due && ops != [] && Spares(ops[0], e.id)
    requires ops[0].Tick? && e.due <= s.now + TIMER_PERIOD
    ensures FiresAt(s, ops, e, 0)
  {
    TickFires(s, ops[0], e);
    AfterOne(s, ops);
    FiringOne(s, ops, e.id);
  }

  lemma StillWaits(s: Clock, o: Op, e: Event)
    requires Ordered(s) && OpOk(s.now, o) && e in s.q && s.now < e.due && Spares(o, e.id) && !(o.Tick? && e.due <= s.now + TIMER_PERIOD)
    ensures var n := Next(s, o); Ordered(n.0) && e in n.0.q && n.0.now < e.due && Count(n.1, e.id) == 0
  {
    NextOrdered(s, o);
    StillPending(s, o, e);
  }

  lemma StillPending(s: Clock, o: Op, e: Event)
    requires Ordered(s) && OpOk(s.now, o) && e in s.q && Spares(o, e.id) && !(o.Tick? && e.due <= s.now + TIMER_PERIOD)
    ensures e in Next(s, o).0.q && Count(Next(s, o).1, e.id) == 0
  {
    match o
    case Call(c) =>
    case Tick(script) => ExpireFires(s.now + TIMER_PERIOD, s.q, script, e);
  }

  lemma FiresLater(s: Clock, ops: seq<Op>, e: Event, j: nat)
    requires RunOk(s.now, ops) && ops != [] && Count(Next(s, ops[0]).1, e.id) == 0 && FiresAt(Next(s, ops[0]).0, ops[1..], e, j)
    ensures FiresAt(s, ops, e, j + 1)
  {
    var n, l := Next(s, ops[0]), ops[..j + 2];
    assert l[0] == ops[0] && l[1..] == ops[1..][..j + 1] && ops[j + 2..] == ops[1..][j + 1..];
    assert After(s, l) == After(n.0, l[1..]);
    SilentStep(s, ops, e.id);
  }

  lemma SilentStep(s: Clock, ops: seq<Op>, id: nat)
    requires RunOk(s.now, ops) && ops != [] && Count(Next(s, ops[0]).1, id) == 0
    ensures Firings(s, ops, id) == Firings(Next(s, ops[0]).0, ops[1..], id)
  {
    assert seq(Count(Next(s, ops[0]).1, id), _ => Next(s, ops[0]).0.now) == [];
  }

  /** Over any run that nobody else disturbs, a pending event fires when and only when the clock
      reaches its due time, once for this arming, whether or not its own callback arms it again. */
  lemma {:induction false} FiresOncePerArming(s: Clock, ops: seq<Op>, e: Event) returns (i: nat)
    requires Ordered(s) && RunOk(s.now, ops) && e in s.q && s.now < e.due && Untouched(ops, e.id)
    ensures FiresOnce(s, ops, e, i)
    decreases ops
  {
    i := 0;
    if ops != [] {
      var n := Next(s, ops[0]);
      if ops[0].Tick? && e.due <= n.0.now {
        FiresNow(s, ops, e);
        NowGrows(n.0, ops[1..]);
      } else {
        StillWaits(s, ops[0], e);
        var j := FiresOncePerArming(n.0, ops[1..], e);
        FiresOnceLater(s, ops, e, j);
        i := j + 1;
      }
    }
  }

  lemma FiresOnceLater(s: Clock, ops: seq<Op>, e: Event, j: nat)
    requires RunOk(s.now, ops) && ops != [] && Count(Next(s, ops[0]).1, e.id) == 0 && FiresOnce(Next(s, ops[0]).0, ops[1..], e, j)
    ensures FiresOnce(s, ops, e, j + 1)
  {
    SilentStep(s, ops, e.id);
    if After(s, ops).now >= e.due { FiresLater(s, ops, e, j); }
  }

  lemma {:induction false} NowGrows(s: Clock, ops: seq<Op>)
    requires RunOk(s.now, ops)
    ensures s.now <= After(s, ops).now
    decreases ops
  {
    if ops != [] { NowGrows(Next(s, ops[0]).0, ops[1..]); }
  }

  // ----- Every arming is accounted for, whoever arms and cancels

  function CountId(q: seq<Event>, id: nat): nat {
    if q == [] then 0 else (if q[0].id == id then 1 else 0) + CountId(q[1..], id)
  }

  /** Armings of id asked for in cs, and pending events of id that cs takes away. */
  function Armed(cs: seq<Cmd>, id: nat): nat {
    if cs == [] then 0 else (if cs[0].id == id && !cs[0].Cancel? then 1 else 0) + Armed(cs[1..], id)
  }

  function Dropped(now: nat, q: seq<Event>, cs: seq<Cmd>, id: nat): nat
    decreases cs
  {
    if cs == [] then 0 else (if cs[0].id == id then CountId(q, id) else 0) + Dropped(now, Apply(now, q, cs[0]), cs[1..], id)
  }

  lemma {:induction false} CountIdRemove(q: seq<Event>, x: nat, id: nat)
    ensures CountId(Remove(q, x), id) == if x == id then 0 else CountId(q, id)
  {
    if q != [] { CountIdRemove(q[1..], x, id); }
  }

  lemma {:induction false} CountIdInsert(q: seq<Event>, e: Event, id: nat)
    ensures CountId(Insert(q, e), id) == CountId(q, id) + if e.id == id then 1 else 0
  {
    if !(q == [] || e.due < q[0].due) { CountIdInsert(q[1..], e, id); }
    else { assert ([e] + q)[1..] == q; }
  }

  lemma {:induction false} ApplyAllAccounts(now: nat, q: seq<Event>, cs: seq<Cmd>, id: nat)
    ensures CountId(ApplyAll(now, q, cs), id) + Dropped(now, q, cs, id) == CountId(q, id) + Armed(cs, id)
    decreases cs
  {
    if cs != [] {
      var c := cs[0];
      CountIdRemove(q, c.id, id);
      if !c.Cancel? { CountIdInsert(Remove(q, c.id), Event(c.id, DueOf(now, c)), id); }
      ApplyAllAccounts(now, Apply(now, q, c), cs[1..], id);
    }
  }

  /** Armings and droppings of id by the callbacks of one tick. */
  function TickSums(now: nat, q: seq<Event>, script: nat -> seq<Cmd>, id: nat): (r: (nat, nat))
    requires ScriptTimely(now, script)
    decreases CountDue(now, q)
  {
    if q == [] || q[0].due > now then (0, 0)
    else
      var cs := script(q[0].id);
      CountApplyAll(now, q[1..], cs);
      var r := TickSums(now, ApplyAll(now, q[1..], cs), script, id);
      (Armed(cs, id) + r.0, Dropped(now, q[1..], cs, id) + r.1)
  }

  lemma {:induction false} ExpireAccounts(now: nat, q: seq<Event>, script: nat -> seq<Cmd>, id: nat)
    requires ScriptTimely(now, script)
    ensures var r, t := Expire(now, q, script), TickSums(now, q, script, id);
      CountId(r.0, id) + Count(r.1, id) + t.1 == CountId(q, id) + t.0
    decreases CountDue(now, q)
  {
    if q == [] || q[0].due > now {
    } else {
      var cs := script(q[0].id);
      CountApplyAll(now, q[1..], cs);
      ApplyAllAccounts(now, q[1..], cs, id);
      ExpireAccounts(now, ApplyAll(now, q[1..], cs), script, id);
      var r := Expire(now, ApplyAll(now, q[1..], cs), script);
      assert ([q[0].id] + r.1)[1..] == r.1;
    }
  }

  function OpSums(s: Clock, o: Op, id: nat): (r: (nat, nat))
    requires OpOk(s.now, o)
  {
    match o
    case Call(c) => (Armed([c], id), Dropped(s.now, s.q, [c], id))
    case Tick(script) => TickSums(s.now + TIMER_PERIOD, s.q, script, id)
  }

  lemma NextAccounts(s: Clock, o: Op, id: nat)
    requires OpOk(s.now, o)
    ensures var n, t := Next(s, o), OpSums(s, o, id);
      CountId(n.0.q, id) + Count(n.1, id) + t.1 == CountId(s.q, id) + t.0
  {
    match o {
      case Call(c) =>
        ApplyAllAccounts(s.now, s.q, [c], id);
        assert [c][1..] == [];
        assert ApplyAll(s.now, s.q, [c]) == Apply(s.now, s.q, c);
      case Tick(script) => ExpireAccounts(s.now + TIMER_PERIOD, s.q, script, id);
    }
  }

  function RunSums(s: Clock, ops: seq<Op>, id: nat): (r: (nat, nat))
    requires RunOk(s.now, ops)
    decreases ops
  {
    if ops == [] then (0, 0)
    else
      var t, r := OpSums(s, ops[0], id), RunSums(Next(s, ops[0]).0, ops[1..], id);
      (t.0 + r.0, t.1 + r.1)
  }

  /** Over every run, with whatever calls and callbacks: each arming of id fired exactly once, or was
      cancelled or replaced while pending, or is the one still pending. */
  lemma {:induction false} EveryArmingAccounted(s: Clock, ops: seq<Op>, id: nat)
    requires RunOk(s.now, ops)
    ensures var sums := RunSums(s, ops, id);
      CountId(After(s, ops).q, id) + |Firings(s, ops, id)| + sums.1 == CountId(s.q, id) + sums.0
    decreases ops
  {
    if ops != [] {
      NextAccounts(s, ops[0], id);
      EveryArmingAccounted(Next(s, ops[0]).0, ops[1..], id);
    }
  }
}
