/** Cyclic and alarm handlers routed to the processor they belong to (kernel/tkernel/time_calls.c:
    164-220, 265-334, 465-545, 734-778, 865-970). A step is one stretch under the kernel lock; the
    lock is dropped only around the user's function, so a drain is cut there. */
module HandlerQueues {
  import opened Options
  import opened Lists

  const CORES := 2

  /** A control block: cyclic or alarm, the processor its expiry is routed to, and whether that was
      asked for (assprc); one without such a wish goes to the first. */
  datatype Block = Block(cyclic: bool, core: nat, pinned: bool, sta: bool)

  /** What a processor's drain is doing: nothing; asked for by an interrupt not taken yet; or running,
      at the moment in the user's function of an event. */
  datatype Drain = Idle | Requested | Body(event: nat)

  /** queue: the events routed to this processor and not executed yet. */
  datatype Core = Core(active: bool, queue: seq<nat>, drain: Drain)

  /** What has happened to an event's routings so far, and the processor it last ran on. */
  datatype Tally = Tally(routed: nat, executed: nat, cancelled: nat, ranOn: Option<nat>)

  datatype State = State(block: seq<Block>, timerq: set<nat>, core: seq<Core>, tally: seq<Tally>)

  predicate Within(q: seq<nat>, n: nat) {
    forall e :: e in q ==> e < n
  }

  ghost predicate Shaped(s: State) {
    && |s.core| == CORES && |s.tally| == |s.block|
    && (forall e :: 0 <= e < |s.block| ==> s.block[e].core < CORES && (!s.block[e].pinned ==> s.block[e].core == 0))
    && (forall c :: 0 <= c < CORES ==> Within(s.core[c].queue, |s.block|))
  }

  // ----- The operations, each under the lock

  /** One turn of knl_timehandler_execute on processor c, up to the drop of the lock: the first
      event leaves the queue; a cyclic one is back in the timer queue before its function runs, an
      alarm is stopped. With nothing left the drain ends. */
  function Turn(s: State, c: nat): (r: State)
    requires Shaped(s) && c < CORES
    ensures Shaped(r) && |r.block| == |s.block|
  {
    if s.core[c].queue == [] then s.(core := s.core[c := Core(false, [], Idle)])
    else
      var e := s.core[c].queue[0];
      assert e in s.core[c].queue && forall x :: x in s.core[c].queue[1..] ==> x in s.core[c].queue;
      var t := s.tally[e];
      s.(core := s.core[c := s.core[c].(queue := s.core[c].queue[1..], drain := Body(e))],
         tally := s.tally[e := t.(executed := t.executed + 1, ranOn := Some(c))],
         timerq := if s.block[e].cyclic then s.timerq + {e} else s.timerq,
         block := if s.block[e].cyclic then s.block else s.block[e := s.block[e].(sta := false)])
  }

  /** knl_enqueue_timehandler for e's processor, called on 'here'. */
  function Enqueue(s: State, here: nat, e: nat): (r: State)
    requires Shaped(s) && e < |s.block|
    ensures Shaped(r) && |r.block| == |s.block|
  {
    var c := s.block[e].core;
    var q := s.core[c].(queue := s.core[c].queue + [e]);
    var t := s.tally[e].(routed := s.tally[e].routed + 1);
    var r := s.(core := s.core[c := q], tally := s.tally[e := t]);
    if s.core[c].active then r
    else if c == here then Turn(r.(core := r.core[c := q.(active := true)]), c)
    else r.(core := r.core[c := q.(active := true, drain := Requested)])
  }

  /** knl_timer_delete: out of whichever queue e is in. */
  function Unqueue(s: State, e: nat): (r: State)
    requires Shaped(s) && e < |s.block|
    ensures Shaped(r) && r.block == s.block
  {
    var c := s.block[e].core;
    var q, t := s.core[c].queue, s.tally[e];
    if e in q then s.(core := s.core[c := s.core[c].(queue := Without(q, e))], tally := s.tally[e := t.(cancelled := t.cancelled + 1)])
    else s.(timerq := s.timerq - {e})
  }

  /** Expire: the tick on 'here' takes e from the timer queue and routes it. Interrupt: the requested
      drain starts. Return: a user's function is over, and the drain goes on. Start: started for a
      later time, after its cancellation if it was started before; only when 'force' is set or it was not.
      Immediate: an alarm started for at once, or a cyclic handler created to start at once. Stop:
      stopped or deleted. Reuse: a stopped block gets a new kind and processor. */
  datatype Action = Expire(here: nat, e: nat) | Interrupt(c: nat) | Return(c: nat) | Start(e: nat, force: bool)
                  | Immediate(here: nat, e: nat) | Stop(e: nat) | Reuse(e: nat, cyclic: bool, c: nat, pinned: bool)

  predicate Enabled(s: State, a: Action) {
    match a
    case Expire(here, e) => here < CORES && e < |s.block| && e in s.timerq
    case Interrupt(c) => c < |s.core| && s.core[c].drain.Requested?
    case Return(c) => c < |s.core| && s.core[c].drain.Body?
    case Start(e, force) => e < |s.block|
    case Immediate(here, e) => here < CORES && e < |s.block| && (s.block[e].cyclic ==> !s.block[e].sta)
    case Stop(e) => e < |s.block|
    case Reuse(e, cyclic, c, pinned) => e < |s.block| && c < CORES && (!pinned ==> c == 0) && !s.block[e].sta
  }

  function Cancel(s: State, e: nat): (r: State)
    requires Shaped(s) && e < |s.block|
    ensures Shaped(r) && r.block == s.block
  {
    if s.block[e].sta then Unqueue(s, e) else s
  }

  function SetSta(s: State, e: nat, sta: bool): (r: State)
    requires Shaped(s) && e < |s.block|
    ensures Shaped(r) && |r.block| == |s.block|
  {
    s.(block := s.block[e := s.block[e].(sta := sta)])
  }

  function Do(s: State, a: Action): (r: State)
    requires Shaped(s) && Enabled(s, a)
    ensures Shaped(r) && |r.block| == |s.block|
  {
    match a
    case Expire(here, e) => Enqueue(s.(timerq := s.timerq - {e}), here, e)
    case Interrupt(c) => Turn(s, c)
    case Return(c) => Turn(s, c)
    case Start(e, force) =>
      if s.block[e].sta && !force then s
      else var r := Cancel(s, e); SetSta(r.(timerq := r.timerq + {e}), e, true)
    case Immediate(here, e) =>
      var r := Cancel(s, e);
      // if this processor will do, the function runs at once, outside any drain
      if !r.block[e].pinned || r.block[e].core == here then
        (if s.block[e].cyclic then SetSta(r.(timerq := r.timerq + {e}), e, true) else SetSta(r, e, false))
      else Enqueue(SetSta(r, e, true), here, e)
    case Stop(e) => SetSta(Cancel(s, e), e, false)
    case Reuse(e, cyclic, c, pinned) => s.(block := s.block[e := Block(cyclic, c, pinned, false)])
  }

  // ----- The invariant

  ghost predicate CoreOk(s: State, c: nat)
    requires c < |s.core|
  {
    var k := s.core[c];
    && Distinct(k.queue)
    && (k.active <==> !k.drain.Idle?)
    && (k.queue != [] ==> k.active)
    && forall e :: e in k.queue ==> e < |s.block| && s.block[e].core == c && s.block[e].sta && e !in s.timerq
  }

  /** A block is in a queue exactly while it is started, and every routing so far was executed, was
      cancelled, or is the one still queued. */
  ghost predicate BlockOk(s: State, e: nat)
    requires Shaped(s) && e < |s.block|
  {
    var t, queued := s.tally[e], e in s.core[s.block[e].core].queue;
    && (s.block[e].sta <==> queued || e in s.timerq)
    && t.routed == t.executed + t.cancelled + if queued then 1 else 0
  }

  ghost predicate Inv(s: State) {
    && Shaped(s) && (forall e :: e in s.timerq ==> e < |s.block|)
    && (forall c :: 0 <= c < CORES ==> CoreOk(s, c))
    && (forall e :: 0 <= e < |s.block| ==> BlockOk(s, e))
  }

  /** knl_timehandler_initialize, with every block stopped. */
  function Init(n: nat): State {
    State(seq(n, _ => Block(true, 0, false, false)), {}, [Core(false, [], Idle), Core(false, [], Idle)], seq(n, _ => Tally(0, 0, 0, None)))
  }

  lemma InitInv(n: nat)
    ensures Inv(Init(n))
  {
    forall c: nat | c < CORES ensures CoreOk(Init(n), c) {}
  }

  // ----- Every step keeps it

  /** The invariant, one turn of a drain later: c is draining, or its drain has just been asked for. */
  lemma TurnInv(s: State, c: nat)
    requires Inv(s) && c < CORES && !s.core[c].drain.Idle?
    ensures Inv(Turn(s, c))
  {
    var r := Turn(s, c);
    if s.core[c].queue != [] {
      var e := s.core[c].queue[0];
      var q := s.core[c].queue;
      assert e in q && q == [e] + q[1..];
      assert BlockOk(s, e);
      forall d | 0 <= d < CORES ensures CoreOk(r, d) {
        assert CoreOk(s, d);
        if d == c { assert forall i :: 0 <= i < |q[1..]| ==> q[1..][i] == q[i + 1]; }
      }
      forall x | 0 <= x < |s.block| ensures BlockOk(r, x) {
        assert BlockOk(s, x);
        assert CoreOk(s, c);
      }
    } else {
      forall d | 0 <= d < CORES ensures CoreOk(r, d) { assert CoreOk(s, d); }
      forall x | 0 <= x < |s.block| ensures BlockOk(r, x) { assert BlockOk(s, x); }
    }
  }

  /** e, started and in no queue, joins its processor's. */
  ghost predicate AllBut(s: State, e: nat)
    requires Shaped(s) && e < |s.block|
  {
    && (forall x :: x in s.timerq ==> x < |s.block|) && e !in s.timerq && s.block[e].sta
    && (forall c :: 0 <= c < CORES ==> CoreOk(s, c) && e !in s.core[c].queue)
    && (forall x :: 0 <= x < |s.block| && x != e ==> BlockOk(s, x))
    && s.tally[e].routed == s.tally[e].executed + s.tally[e].cancelled
  }

  /** e routed and its processor told, nothing executed yet. */
  function Joined(s: State, e: nat): (r: State)
    requires Shaped(s) && e < |s.block|
    ensures Shaped(r) && r.block == s.block
  {
    var c := s.block[e].core;
    var k, t := s.core[c], s.tally[e];
    s.(core := s.core[c := Core(true, k.queue + [e], if k.active then k.drain else Requested)],
       tally := s.tally[e := t.(routed := t.routed + 1)])
  }

  lemma EnqueueJoins(s: State, here: nat, e: nat)
    requires Shaped(s) && e < |s.block| && CoreOk(s, s.block[e].core)
    ensures var c := s.block[e].core;
      Enqueue(s, here, e) == if !s.core[c].active && c == here then Turn(Joined(s, e), c) else Joined(s, e)
  {
    var c := s.block[e].core;
    var q := s.core[c].(queue := s.core[c].queue + [e]);
    var r := s.(core := s.core[c := q], tally := Joined(s, e).tally);
    if s.core[c].active {
      assert r == Joined(s, e);
    } else if c == here {
      assert Enqueue(s, here, e) == Turn(r.(core := r.core[c := q.(active := true)]), c);
    } else {
      assert Joined(s, e) == r.(core := r.core[c := q.(active := true, drain := Requested)]);
    }
  }

  lemma EnqueueInv(s: State, here: nat, e: nat)
    requires Shaped(s) && e < |s.block| && AllBut(s, e)
    ensures Inv(Enqueue(s, here, e))
  {
    EnqueueJoins(s, here, e);
    JoinInv(s, e);
    if !s.core[s.block[e].core].active && s.block[e].core == here { TurnInv(Joined(s, e), here); }
  }

  lemma JoinInv(s: State, e: nat)
    requires Shaped(s) && e < |s.block| && AllBut(s, e)
    ensures Inv(Joined(s, e))
  {
    var r, c := Joined(s, e), s.block[e].core;
    forall d | 0 <= d < CORES ensures CoreOk(r, d) { assert CoreOk(s, d); }
    forall x | 0 <= x < |s.block| ensures BlockOk(r, x) {
      if x != e { assert BlockOk(s, x); }
    }
  }

  /** After knl_timer_delete e is in no queue. */
  lemma CancelGone(s: State, e: nat, sta: bool)
    requires Inv(s) && e < |s.block|
    ensures var r := SetSta(Cancel(s, e), e, sta);
      && (forall x :: x in r.timerq ==> x < |r.block|) && e !in r.timerq
      && (forall c :: 0 <= c < CORES ==> CoreOk(r, c) && e !in r.core[c].queue)
      && (forall x :: 0 <= x < |r.block| && x != e ==> BlockOk(r, x))
      && r.tally[e].routed == r.tally[e].executed + r.tally[e].cancelled
  {
    var r := SetSta(Cancel(s, e), e, sta);
    assert BlockOk(s, e);
    assert CoreOk(s, s.block[e].core);
    forall c | 0 <= c < CORES ensures CoreOk(r, c) && e !in r.core[c].queue {
      assert CoreOk(s, c);
      WithoutDistinct(s.core[c].queue, e);
    }
    forall x | 0 <= x < |r.block| && x != e ensures BlockOk(r, x) {
      assert BlockOk(s, x);
    }
  }

  lemma StartInv(s: State, e: nat)
    requires Inv(s) && e < |s.block|
    ensures Inv(Do(s, Start(e, true)))
  {
    CancelGone(s, e, true);
    var r, r' := SetSta(Cancel(s, e), e, true), Do(s, Start(e, true));
    forall c | 0 <= c < CORES ensures CoreOk(r', c) { assert CoreOk(r, c); }
    forall x | 0 <= x < |s.block| ensures BlockOk(r', x) {
      if x != e { assert BlockOk(r, x); }
    }
  }

  lemma StopInv(s: State, e: nat)
    requires Inv(s) && e < |s.block|
    ensures Inv(SetSta(Cancel(s, e), e, false))
  {
    CancelGone(s, e, false);
    var r := SetSta(Cancel(s, e), e, false);
    assert BlockOk(r, e);
  }

  lemma ReuseInv(s: State, e: nat, cyclic: bool, c: nat, pinned: bool)
    requires Inv(s) && Enabled(s, Reuse(e, cyclic, c, pinned))
    ensures Inv(Do(s, Reuse(e, cyclic, c, pinned)))
  {
    var r := Do(s, Reuse(e, cyclic, c, pinned));
    assert BlockOk(s, e);
    forall d | 0 <= d < CORES ensures CoreOk(r, d) && e !in r.core[d].queue { assert CoreOk(s, d); }
    forall x | 0 <= x < |s.block| ensures BlockOk(r, x) { assert BlockOk(s, x); }
  }

  lemma StepInv(s: State, a: Action)
    requires Inv(s) && Enabled(s, a)
    ensures Inv(Do(s, a))
  {
    match a
    case Expire(here, e) =>
      ExpireAllBut(s, e);
      EnqueueInv(s.(timerq := s.timerq - {e}), here, e);
    case Interrupt(c) => TurnInv(s, c);
    case Return(c) => TurnInv(s, c);
    case Start(e, force) =>
      if force || !s.block[e].sta { StartInv(s, e); }
    case Immediate(here, e) =>
      CancelGone(s, e, true);
      if !s.block[e].pinned || s.block[e].core == here {
        if s.block[e].cyclic { StartInv(s, e); } else { StopInv(s, e); }
      } else {
        EnqueueInv(SetSta(Cancel(s, e), e, true), here, e);
      }
    case Stop(e) => StopInv(s, e);
    case Reuse(e, cyclic, c, pinned) => ReuseInv(s, e, cyclic, c, pinned);
  }

  // ----- Over any run

  ghost predicate Possible(s: State, run: seq<Action>)
    requires Shaped(s)
    decreases run
  {
    run == [] || (Enabled(s, run[0]) && Possible(Do(s, run[0]), run[1..]))
  }

  function After(s: State, run: seq<Action>): (r: State)
    requires Shaped(s) && Possible(s, run)
    ensures Shaped(r)
    decreases run
  {
    if run == [] then s else After(Do(s, run[0]), run[1..])
  }

  lemma {:induction false} RunInv(s: State, run: seq<Action>)
    requires Inv(s) && Possible(s, run)
    ensures Inv(After(s, run))
    decreases run
  {
    if run != [] {
      StepInv(s, run[0]);
      RunInv(Do(s, run[0]), run[1..]);
    }
  }

  /** No routed handler is lost or run twice: a queued event's processor is draining or will be
      interrupted to, and of an event's routings each was executed once, or cancelled, or is the one
      now queued. */
  lemma RoutedOnce(n: nat, run: seq<Action>, e: nat)
    requires Possible(Init(n), run) && e < |After(Init(n), run).block|
    ensures var s := After(Init(n), run);
      var k := s.core[s.block[e].core];
      && s.tally[e].routed == s.tally[e].executed + s.tally[e].cancelled + (if e in k.queue then 1 else 0)
      && (e in k.queue ==> k.active && (k.drain.Requested? || k.drain.Body?))
      && (forall c :: 0 <= c < CORES && e in s.core[c].queue ==> c == s.block[e].core && e !in s.timerq)
  {
    InitInv(n);
    RunInv(Init(n), run);
    var s := After(Init(n), run);
    assert BlockOk(s, e);
    assert CoreOk(s, s.block[e].core);
    forall c | 0 <= c < CORES && e in s.core[c].queue ensures c == s.block[e].core && e !in s.timerq { assert CoreOk(s, c); }
  }

  /** Between s and r, event e did not run, or it ran once, on the processor of its block. */
  ghost predicate AtHome(s: State, r: State, e: nat) {
    && e < |s.block| && e < |s.tally| && e < |r.tally|
    && if r.tally[e].executed == s.tally[e].executed then r.tally[e].ranOn == s.tally[e].ranOn
       else r.tally[e].executed == s.tally[e].executed + 1 && r.tally[e].ranOn == Some(s.block[e].core)
  }

  lemma EnqueueAtHome(s: State, here: nat, e: nat, x: nat)
    requires Shaped(s) && e < |s.block| && x < |s.block| && forall c :: 0 <= c < CORES ==> CoreOk(s, c)
    ensures AtHome(s, Enqueue(s, here, e), x)
  {
    var c := s.block[e].core;
    assert CoreOk(s, c);
    var q := s.core[c].queue + [e];
    assert q[0] == e || q[0] in s.core[c].queue;
  }

  lemma TurnAtHome(s: State, c: nat, x: nat)
    requires Shaped(s) && c < CORES && x < |s.block| && CoreOk(s, c)
    ensures AtHome(s, Turn(s, c), x)
  {
    if s.core[c].queue != [] { assert s.core[c].queue[0] in s.core[c].queue; }
  }

  /** In every run, whatever runs, runs on the processor its block names at that moment. */
  lemma RanAtHome(n: nat, run: seq<Action>, a: Action, e: nat)
    requires Possible(Init(n), run) && Enabled(After(Init(n), run), a) && e < |After(Init(n), run).block|
    ensures AtHome(After(Init(n), run), Do(After(Init(n), run), a), e)
  {
    InitInv(n);
    RunInv(Init(n), run);
    var s := After(Init(n), run);
    match a
    case Expire(here, x) => ExpireAtHome(s, here, x, e);
    case Interrupt(c) => TurnAtHome(s, c, e);
    case Return(c) => TurnAtHome(s, c, e);
    case Immediate(here, x) => ImmediateAtHome(s, here, x, e);
    case _ =>
  }

  lemma ExpireAtHome(s: State, here: nat, x: nat, e: nat)
    requires Inv(s) && Enabled(s, Expire(here, x)) && e < |s.block|
    ensures AtHome(s, Do(s, Expire(here, x)), e)
  {
    var r := s.(timerq := s.timerq - {x});
    forall c | 0 <= c < CORES ensures CoreOk(r, c) { assert CoreOk(s, c); }
    EnqueueAtHome(r, here, x, e);
  }

  lemma ImmediateAtHome(s: State, here: nat, x: nat, e: nat)
    requires Inv(s) && Enabled(s, Immediate(here, x)) && e < |s.block|
    ensures AtHome(s, Do(s, Immediate(here, x)), e)
  {
    CancelGone(s, x, true);
    if s.block[x].pinned && s.block[x].core != here {
      EnqueueAtHome(SetSta(Cancel(s, x), x, true), here, x, e);
    }
  }

  // ----- What a run leaves of a handler

  /** A cyclic handler is started and waits for its next time, an alarm is stopped; it is in no queue. */
  ghost predicate AsItsKind(s: State, e: nat)
    requires Shaped(s)
  {
    && e < |s.block| && s.block[e].sta == s.block[e].cyclic && (e in s.timerq <==> s.block[e].cyclic)
    && forall c :: 0 <= c < CORES ==> e !in s.core[c].queue
  }

  ghost predicate LeftByKind(s: State, r: State, e: nat)
    requires Shaped(s) && Shaped(r) && e < |s.block| == |r.block|
  {
    r.tally[e].executed != s.tally[e].executed ==> r.block[e].cyclic == s.block[e].cyclic && AsItsKind(r, e)
  }

  lemma TurnByKind(s: State, c: nat, x: nat)
    requires Inv(s) && c < CORES && x < |s.block|
    ensures LeftByKind(s, Turn(s, c), x)
  {
    var q := s.core[c].queue;
    if q != [] && q[0] == x {
      assert x in q && CoreOk(s, c);
      forall d | 0 <= d < CORES ensures x !in Turn(s, c).core[d].queue { assert CoreOk(s, d); }
    }
  }

  lemma EnqueueByKind(s: State, here: nat, e: nat, x: nat)
    requires Shaped(s) && e < |s.block| && AllBut(s, e) && x < |s.block|
    ensures LeftByKind(s, Enqueue(s, here, e), x)
  {
    EnqueueJoins(s, here, e);
    JoinInv(s, e);
    TurnByKind(Joined(s, e), s.block[e].core, x);
  }

  /** In every run, a step that executes e leaves it started and timed again if it is cyclic, and
      stopped if it is an alarm, in no queue either way. */
  lemma RanByKind(n: nat, run: seq<Action>, a: Action, e: nat)
    requires Possible(Init(n), run) && Enabled(After(Init(n), run), a) && e < |After(Init(n), run).block|
    ensures LeftByKind(After(Init(n), run), Do(After(Init(n), run), a), e)
  {
    InitInv(n);
    RunInv(Init(n), run);
    StepByKind(After(Init(n), run), a, e);
  }

  lemma StepByKind(s: State, a: Action, e: nat)
    requires Inv(s) && Enabled(s, a) && e < |s.block|
    ensures LeftByKind(s, Do(s, a), e)
  {
    match a
    case Expire(here, x) =>
      ExpireAllBut(s, x);
      EnqueueByKind(s.(timerq := s.timerq - {x}), here, x, e);
    case Interrupt(c) => TurnByKind(s, c, e);
    case Return(c) => TurnByKind(s, c, e);
    case Immediate(here, x) =>
      CancelGone(s, x, true);
      if s.block[x].pinned && s.block[x].core != here { EnqueueByKind(SetSta(Cancel(s, x), x, true), here, x, e); }
    case _ =>
  }

  lemma ExpireAllBut(s: State, e: nat)
    requires Inv(s) && e in s.timerq
    ensures var r := s.(timerq := s.timerq - {e}); AllBut(r, e)
  {
    var r := s.(timerq := s.timerq - {e});
    assert BlockOk(s, e);
    forall c | 0 <= c < CORES ensures CoreOk(r, c) && e !in r.core[c].queue { assert CoreOk(s, c); }
    forall x | 0 <= x < |s.block| && x != e ensures BlockOk(r, x) { assert BlockOk(s, x); }
  }

  /** An alarm or cyclic handler asked for at once where it may run is as after a run, and counts as
      no routing; asked for elsewhere it is routed once more, and is queued there or already ran. */
  lemma ImmediateEffect(s: State, here: nat, e: nat)
    requires Inv(s) && Enabled(s, Immediate(here, e))
    ensures var r := Do(s, Immediate(here, e));
      && r.tally[e].executed == s.tally[e].executed
      && if s.block[e].pinned && s.block[e].core != here then
           r.tally[e].routed == s.tally[e].routed + 1 && r.block[e].sta && e in r.core[s.block[e].core].queue
         else r.tally[e].routed == s.tally[e].routed && r.block[e].cyclic == s.block[e].cyclic && AsItsKind(r, e)
  {
    CancelGone(s, e, true);
    var r := SetSta(Cancel(s, e), e, true);
    if s.block[e].pinned && s.block[e].core != here { EnqueueJoins(r, here, e); }
  }

  /** A handler started for a later time waits for that time only; a started cyclic one that keeps
      its phase is left alone. */
  lemma StartEffect(s: State, e: nat, force: bool)
    requires Inv(s) && e < |s.block|
    ensures var r := Do(s, Start(e, force));
      && r.block[e] == s.block[e].(sta := true) && r.tally[e].executed == s.tally[e].executed
      && if force || !s.block[e].sta then e in r.timerq && forall c :: 0 <= c < CORES ==> e !in r.core[c].queue else r == s
  {
    CancelGone(s, e, true);
  }

  // ----- The order of execution

  ghost predicate Ahead(q: seq<nat>, x: nat, y: nat) {
    exists i, j :: 0 <= i < j < |q| && q[i] == x && q[j] == y
  }

  lemma {:induction false} WithoutAhead(q: seq<nat>, e: nat, x: nat, y: nat)
    requires Ahead(q, x, y) && x != e && y != e
    ensures Ahead(Without(q, e), x, y)
  {
    var i, j :| 0 <= i < j < |q| && q[i] == x && q[j] == y;
    if i > 0 {
      assert q[1..][i - 1] == x && q[1..][j - 1] == y;
      WithoutAhead(q[1..], e, x, y);
      var r := Without(q[1..], e);
      var k, l :| 0 <= k < l < |r| && r[k] == x && r[l] == y;
      if q[0] != e { assert Without(q, e)[k + 1] == x && Without(q, e)[l + 1] == y; }
    } else {
      assert q[1..][j - 1] == y && y in q[1..];
      var r := Without(q[1..], e);
      assert y in r;
      var l :| 0 <= l < |r| && r[l] == y;
      assert Without(q, e)[0] == x && Without(q, e)[l + 1] == y;
    }
  }

  lemma TurnAhead(s: State, c: nat, d: nat, x: nat, y: nat)
    requires Shaped(s) && c < CORES && d < CORES && CoreOk(s, d)
    requires Ahead(s.core[d].queue, x, y) && x in Turn(s, c).core[d].queue
    ensures Ahead(Turn(s, c).core[d].queue, x, y)
  {
    if c == d {
      var q := s.core[d].queue;
      var i, j :| 0 <= i < j < |q| && q[i] == x && q[j] == y;
      assert i > 0;
      assert q[1..][i - 1] == x && q[1..][j - 1] == y;
    }
  }

  lemma EnqueueAhead(s: State, here: nat, e: nat, d: nat, x: nat, y: nat)
    requires Shaped(s) && e < |s.block| && AllBut(s, e) && d < CORES
    requires x in s.core[d].queue && x in Enqueue(s, here, e).core[d].queue && y in Enqueue(s, here, e).core[d].queue
    requires y == e || Ahead(s.core[d].queue, x, y)
    ensures Ahead(Enqueue(s, here, e).core[d].queue, x, y)
  {
    EnqueueJoins(s, here, e);
    JoinInv(s, e);
    var q, q' := s.core[d].queue, Joined(s, e).core[d].queue;
    if Ahead(q, x, y) {
      var i, j :| 0 <= i < j < |q| && q[i] == x && q[j] == y;
      assert q'[i] == x && q'[j] == y;
    } else {
      var c := s.block[e].core;
      assert d == c;
      var i :| 0 <= i < |q| && q[i] == x;
      assert q'[i] == x && q'[|q|] == e;
    }
    if Enqueue(s, here, e) != Joined(s, e) { TurnAhead(Joined(s, e), here, d, x, y); }
  }

  /** The event a step may route. */
  function Routes(a: Action): Option<nat> {
    match a
    case Expire(_, e) => Some(e)
    case Immediate(_, e) => Some(e)
    case _ => None
  }

  /** No event overtakes another: two that stay queued keep their order, and a newly routed one, or
      one routed again, stands behind all that were there. */
  lemma KeepsTurns(s: State, a: Action, c: nat, x: nat, y: nat)
    requires Inv(s) && Enabled(s, a) && c < CORES && Routes(a) != Some(x)
    requires x in s.core[c].queue && x in Do(s, a).core[c].queue && y in Do(s, a).core[c].queue
    requires Routes(a) == Some(y) || Ahead(s.core[c].queue, x, y)
    ensures Ahead(Do(s, a).core[c].queue, x, y)
  {
    assert CoreOk(s, c);
    match a
    case Expire(here, e) =>
      ExpireAllBut(s, e);
      EnqueueAhead(s.(timerq := s.timerq - {e}), here, e, c, x, y);
    case Interrupt(d) => TurnAhead(s, d, c, x, y);
    case Return(d) => TurnAhead(s, d, c, x, y);
    case Start(e, force) => CancelAhead(s, e, c, x, y);
    case Immediate(here, e) =>
      CancelGone(s, e, true);
      CancelAhead(s, e, c, x, y);
      if s.block[e].pinned && s.block[e].core != here { EnqueueAhead(SetSta(Cancel(s, e), e, true), here, e, c, x, y); }
    case Stop(e) => CancelAhead(s, e, c, x, y);
    case Reuse(e, _, _, _) =>
  }

  lemma CancelAhead(s: State, e: nat, c: nat, x: nat, y: nat)
    requires Inv(s) && e < |s.block| && c < CORES
    ensures x != e && x in s.core[c].queue ==> x in Cancel(s, e).core[c].queue
    ensures x != e && y != e && Ahead(s.core[c].queue, x, y) ==> Ahead(Cancel(s, e).core[c].queue, x, y)
    ensures e !in Cancel(s, e).core[c].queue
  {
    CancelGone(s, e, true);
    if x != e && y != e && Ahead(s.core[c].queue, x, y) { WithoutAhead(s.core[c].queue, e, x, y); }
  }

  ghost predicate Runs(s: State, z: State, e: nat, n: nat) {
    e < |s.tally| == |z.tally| && z.tally[e].executed == s.tally[e].executed + n
  }

  /** Left alone, a drain executes its queue in order: after k turns the first k have run, the last of
      them is in its user function, and the rest wait. */
  lemma DrainsInOrder(s: State, c: nat, k: nat)
    requires Inv(s) && c < CORES && !s.core[c].drain.Idle? && 1 <= k <= |s.core[c].queue|
    ensures var q, z := s.core[c].queue, Drained(s, c, k);
      && z.core[c].queue == q[k..] && z.core[c].drain == Body(q[k - 1])
      && forall j :: 0 <= j < |q| ==> Runs(s, z, q[j], if j < k then 1 else 0)
  {
    var q := s.core[c].queue;
    assert CoreOk(s, c);
    DrainedQueue(s, c, k);
    forall j | 0 <= j < |q| ensures Runs(s, Drained(s, c, k), q[j], if j < k then 1 else 0) { DrainedTally(s, c, k, j); }
  }

  lemma {:induction false} DrainedQueue(s: State, c: nat, k: nat)
    requires Shaped(s) && c < CORES && 1 <= k <= |s.core[c].queue|
    ensures var q, z := s.core[c].queue, Drained(s, c, k); z.core[c].queue == q[k..] && z.core[c].drain == Body(q[k - 1])
    decreases k
  {
    var q, r := s.core[c].queue, Turn(s, c);
    if k == 1 {
      assert Drained(r, c, 0) == r;
    } else {
      DrainedQueue(r, c, k - 1);
      assert q[1..][k - 1..] == q[k..];
    }
  }

  lemma {:induction false} DrainedTally(s: State, c: nat, k: nat, j: nat)
    requires Shaped(s) && c < CORES && 1 <= k <= |s.core[c].queue| && j < |s.core[c].queue| && Distinct(s.core[c].queue)
    ensures Runs(s, Drained(s, c, k), s.core[c].queue[j], if j < k then 1 else 0)
    decreases k
  {
    var q, r := s.core[c].queue, Turn(s, c);
    assert q[0] in q && q[j] in q;
    assert forall i :: 0 <= i < |q[1..]| ==> q[1..][i] == q[i + 1];
    if k == 1 {
      assert Drained(r, c, 0) == r;
    } else if j == 0 {
      DrainedKeeps(r, c, k - 1, q[0]);
    } else {
      DrainedTally(r, c, k - 1, j - 1);
    }
  }

  /** Left alone, a drain executes its whole queue, each event once and on the queue's own processor,
      leaves every cyclic handler of it timed again and every alarm stopped, and then rests. */
  lemma {:induction false} DrainsDry(s: State, c: nat)
    requires Inv(s) && c < CORES && !s.core[c].drain.Idle?
    ensures var z := Drained(s, c, |s.core[c].queue| + 1);
      && Inv(z) && z.core[c] == Core(false, [], Idle)
      && forall e :: e in s.core[c].queue ==> RanOnce(s, z, c, e)
    decreases |s.core[c].queue|
  {
    TurnInv(s, c);
    var q := s.core[c].queue;
    if q != [] {
      var r := Turn(s, c);
      assert CoreOk(s, c) && forall i :: 0 <= i < |q[1..]| ==> q[1..][i] == q[i + 1];
      DrainsDry(r, c);
      var z := Drained(r, c, |q|);
      forall e | e in q ensures RanOnce(s, z, c, e) {
        TurnByKind(s, c, e);
        if e == q[0] { DrainedKeeps(r, c, |q|, e); } else {
          assert q == [q[0]] + q[1..];
          assert RanOnce(r, z, c, e);
        }
      }
    } else {
      assert Drained(Turn(s, c), c, 0) == Turn(s, c);
    }
  }

  ghost predicate RanOnce(s: State, z: State, c: nat, e: nat)
    requires Shaped(s) && Shaped(z) && |s.block| == |z.block|
  {
    && e < |s.block| && z.tally[e].executed == s.tally[e].executed + 1 && z.tally[e].ranOn == Some(c)
    && z.block[e].cyclic == s.block[e].cyclic && AsItsKind(z, e)
  }

  /** n turns on processor c, its user functions returning in between. */
  function Drained(s: State, c: nat, n: nat): (r: State)
    requires Shaped(s) && c < CORES
    ensures Shaped(r) && |r.block| == |s.block|
    decreases n
  {
    if n == 0 then s else Drained(Turn(s, c), c, n - 1)
  }

  lemma {:induction false} DrainedKeeps(s: State, c: nat, n: nat, e: nat)
    requires Shaped(s) && c < CORES && e !in s.core[c].queue && e < |s.block|
    ensures var z := Drained(s, c, n);
      && z.tally[e] == s.tally[e] && z.block[e] == s.block[e] && (e in z.timerq <==> e in s.timerq)
      && forall d :: 0 <= d < CORES && e in z.core[d].queue ==> e in s.core[d].queue
    decreases n
  {
    if n > 0 {
      if s.core[c].queue != [] {
        assert s.core[c].queue[0] in s.core[c].queue;
        assert forall x :: x in s.core[c].queue[1..] ==> x in s.core[c].queue;
      }
      DrainedKeeps(Turn(s, c), c, n - 1, e);
    }
  }

  /** While its block is started, stopping it finds it in a queue and takes it out of the only one. */
  lemma StopUnqueues(n: nat, run: seq<Action>, e: nat)
    requires Possible(Init(n), run) && e < |After(Init(n), run).block| && After(Init(n), run).block[e].sta
    ensures var s := After(Init(n), run); var z := Do(s, Stop(e));
      && (e in s.timerq) != (e in s.core[s.block[e].core].queue)
      && e !in z.timerq && forall c :: 0 <= c < CORES ==> e !in z.core[c].queue
  {
    InitInv(n);
    RunInv(Init(n), run);
    var s := After(Init(n), run);
    assert BlockOk(s, e);
    assert CoreOk(s, s.block[e].core);
    CancelGone(s, e, false);
  }
}
