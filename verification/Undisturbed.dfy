/** A reschedule whose reads and writes nothing disturbs does what the specification of the whole says,
    and dispatching then runs what it published (kernel/tkernel/ready_queue_smp.c:243-375). */
module Undisturbed {
  import opened Options
  import opened CoreMasks
  import opened Matcher
  import opened Scheduler
  import opened Ownership

  /** The reschedule begun in s has come this far. */
  ghost predicate Alone(m: Machine, s: Sched)
    requires Sized(s)
  {
    match m.phase
    case Scanning(rest, chosen, masks, p) =>
      && m.s == s && |chosen| <= TK_MAX_CORE && masks == MasksOf(s, chosen) && Pick(s, rest, chosen) == Chosen(s)
      && p.k <= 6 && (rest != [] ==> ReadOn(s, rest[0], p) == MaskOf(s, rest[0]))
    case Publishing(sel, next) =>
      sel == Guarded(s, Selected(s)) && next < TK_MAX_CORE && m.s == s.(pub := if next == 0 then s.pub else [Published(s)[0], s.pub[1]])
    case Quiet => m.s == Reschedule(s)
  }

  /** A step of the reschedule itself; what its placement reads of the current slots is what they hold. */
  predicate Own(s: Sched, a: Action)
    requires Sized(s)
  {
    a == ScanRead || a == Decide(Seen(s, Chosen(s))) || a == PublishSlot
  }

  /** Bounds the steps to come. */
  function ToCome(m: Machine): int {
    match m.phase
    case Scanning(rest, _, _, p) => 10 + 8 * |rest| - p.k
    case Publishing(_, next) => TK_MAX_CORE - next
    case Quiet => 0
  }

  lemma ScanAlone(m: Machine, m': Machine, s: Sched)
    requires Sized(s) && Alone(m, s) && m.s == s && Step(m, ScanRead, m')
    ensures Alone(m', s) && 0 <= ToCome(m') < ToCome(m)
  {
    var Scanning(rest, chosen, masks, p) := m.phase;
    var t := rest[0];
    if m'.phase.rest != rest {
      assert m'.phase.rest == rest[1..];
      if rest[1..] != [] { UndisturbedMask(s, rest[1]); }
      if t !in chosen {
        assert Read(s, t, p) == Found(MaskOf(s, t));
        if |chosen| < TK_MAX_CORE { assert FeasibleWith(masks, MaskOf(s, t)) <==> Feasible(s, chosen, t); }
      }
    }
  }

  lemma DecideAlone(m: Machine, m': Machine, s: Sched)
    requires Sized(s) && Alone(m, s) && Sized(m.s) && Step(m, Decide(Seen(s, Chosen(s))), m')
    ensures Alone(m', s) && 0 <= ToCome(m') < ToCome(m)
  {
    assert m.phase.chosen == Chosen(s);
    AssignDecides(s);
  }

  lemma PublishAlone(m: Machine, m': Machine, s: Sched)
    requires Sized(s) && Alone(m, s) && Sized(m.s) && Step(m, PublishSlot, m')
    ensures Alone(m', s) && 0 <= ToCome(m') < ToCome(m)
  {
    var p := Published(s);
    assert s.pub == [s.pub[0], s.pub[1]] && p == [p[0], p[1]];
  }

  /** Each step leaves the reschedule on its way, and nearer to its end. */
  lemma AloneStep(m: Machine, a: Action, m': Machine, s: Sched)
    requires Sized(s) && Alone(m, s) && Sized(m.s) && !m.phase.Quiet? && Own(s, a) && Step(m, a, m')
    ensures Sized(m'.s) && Alone(m', s) && 0 <= ToCome(m') < ToCome(m)
  {
    match a
    case ScanRead => ScanAlone(m, m', s);
    case Decide(_) => DecideAlone(m, m', s);
    case PublishSlot => PublishAlone(m, m', s);
    case _ =>
  }

  /** Until it has ended it can go on. */
  lemma AloneGoesOn(m: Machine, s: Sched) returns (a: Action, m': Machine)
    requires Sized(s) && Alone(m, s) && Sized(m.s) && !m.phase.Quiet?
    ensures Own(s, a) && Step(m, a, m')
  {
    match m.phase
    case Scanning(rest, chosen, masks, p) =>
      if rest != [] {
        a, m' := ScanRead, m.(phase := Scan(m.s, m.phase));
      } else {
        a := Decide(Seen(s, Chosen(s)));
        m' := m.(phase := Publishing(Guarded(m.s, AllPasses(chosen, masks, Seen(s, Chosen(s))).out), 0));
      }
    case Publishing(sel, c) =>
      a := PublishSlot;
      m' := Machine(if m.s.online.Has(c) then m.s.(pub := m.s.pub[c := sel[c]]) else m.s,
                    if c + 1 < TK_MAX_CORE then Publishing(sel, c + 1) else Quiet);
  }

  /** A trace of one reschedule, entered in its first step and not disturbed before step n. */
  ghost predicate OneReschedule(ms: seq<Machine>, acts: seq<Action>, n: nat) {
    && 1 <= n < |ms| == |acts| + 1 && acts[0].Enter? && (forall i :: 0 <= i < n ==> Sized(ms[i].s) && Step(ms[i], acts[i], ms[i + 1]))
    && Sized(Begun(ms[0].s, acts[0]))
    && forall i :: 1 <= i < n ==> !ms[i].phase.Quiet? && Own(Begun(ms[0].s, acts[0]), acts[i])
  }

  function Begun(s: Sched, a: Action): Sched {
    if a.Enter? then s.(queue := a.queue, klocked := a.klocked) else s
  }

  lemma {:induction false} AloneThroughout(ms: seq<Machine>, acts: seq<Action>, n: nat)
    requires OneReschedule(ms, acts, n)
    ensures Sized(ms[n].s) && Alone(ms[n], Begun(ms[0].s, acts[0])) && ToCome(ms[n]) + n <= ToCome(ms[1]) + 1
  {
    var s := Begun(ms[0].s, acts[0]);
    if n == 1 {
      assert Step(ms[0], acts[0], ms[1]);
      if Order(s) != [] { UndisturbedMask(s, Order(s)[0]); }
    } else {
      AloneThroughout(ms, acts, n - 1);
      AloneStep(ms[n - 1], acts[n - 1], ms[n], s);
    }
  }

  /** Undisturbed, read by read and slot by slot, a reschedule is over after a bounded number of steps,
      and then the slots hold what the whole specifies: the most urgent selection. */
  lemma UndisturbedReschedule(ms: seq<Machine>, acts: seq<Action>, n: nat)
    requires OneReschedule(ms, acts, n)
    ensures var s := Begun(ms[0].s, acts[0]);
      && n <= 11 + 8 * |Order(s)|
      && (ms[n].phase.Quiet? ==> ms[n].s == Reschedule(s) && InstallsByUrgency(s, ms[n].s.pub))
  {
    var s := Begun(ms[0].s, acts[0]);
    AloneThroughout(ms, acts, n);
    assert Step(ms[0], acts[0], ms[1]);
    PublishedByUrgency(s);
    AloneBound(ms[n], s);
  }

  lemma AloneBound(m: Machine, s: Sched)
    requires Sized(s) && Alone(m, s)
    ensures ToCome(m) >= 0
  {
  }

  /** A processor that dispatches undisturbed then runs what is published for it, or its idle context. */
  lemma DispatchRuns(m: Machine, c: nat, m1: Machine, m2: Machine)
    requires Sized(m.s) && c < TK_MAX_CORE && Step(m, Save(c), m1) && Sized(m1.s) && Step(m1, Install(c), m2)
    ensures |m2.s.ctx| == TK_MAX_CORE && m2.s.ctx[c] == (if m.s.pub[c].Some? then Task(m.s.pub[c].value) else Idle)
    ensures m2.s.ctx[1 - c] == m.s.ctx[1 - c] && m2.s.pub == m.s.pub
  {
  }
}
