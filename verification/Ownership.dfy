/** One context, one processor: the scheduler's publication (under the kernel lock) interleaved
    step by step with the dispatchers of both processors (without it). */
module Ownership {
  import opened Options
  import opened CoreMasks
  import opened Matcher
  import opened Scheduler
  import TaskLife

  /** How far knl_task_core_mask has come with one task: k of its reads are made (the online set, both
      current slots, both published slots, both dispatch-disable flags), and 'open' is what they left. */
  datatype Probe = Probe(k: nat, open: Mask)

  const FRESH := Probe(0, ALL_CORES)

  datatype Reading = More(probe: Probe) | Found(mask: Mask)

  /** The next read, of whatever the slot holds at this moment. */
  function Read(s: Sched, t: nat, p: Probe): Reading
    requires Sized(s)
  {
    match p.k
    case 0 => More(Probe(1, ALL_CORES.And(s.online)))
    case 1 => if s.ctx[0] == Task(t) then Found(Only(0).And(p.open)) else More(Probe(2, p.open))
    case 2 => if s.ctx[1] == Task(t) then Found(Only(1).And(p.open)) else More(Probe(3, p.open))
    case 3 => if s.pub[0] == Some(t) then Found(Only(0).And(p.open)) else More(Probe(4, p.open))
    case 4 => if s.pub[1] == Some(t) then Found(Only(1).And(p.open)) else More(Probe(5, p.open))
    case 5 => More(Probe(6, Unmasked(s, 0, p.open)))
    case _ => Found(Affinity(s, t).And(Unmasked(s, 1, p.open)).And(ALL_CORES))
  }

  function Unmasked(s: Sched, c: nat, open: Mask): Mask {
    if s.masked.Has(c) then open.Without(Only(c)) else open
  }

  /** All reads that are still to come, made in one state. */
  function ReadOn(s: Sched, t: nat, p: Probe): Mask
    requires Sized(s) && p.k <= 6
    decreases 6 - p.k
  {
    match Read(s, t, p)
    case Found(mask) => mask
    case More(q) => ReadOn(s, t, q)
  }

  /** Undisturbed, the reads compute the mask the matching theorems are about. */
  lemma UndisturbedMask(s: Sched, t: nat)
    requires Sized(s)
    ensures ReadOn(s, t, FRESH) == MaskOf(s, t)
  {
    var open := ALL_CORES.And(s.online);
    assert ReadOn(s, t, FRESH) == ReadOn(s, t, Probe(1, open));
    if s.ctx[0] != Task(t) && s.ctx[1] != Task(t) {
      assert ReadOn(s, t, Probe(1, open)) == ReadOn(s, t, Probe(2, open)) == ReadOn(s, t, Probe(3, open));
      if s.pub[0] != Some(t) && s.pub[1] != Some(t) {
        assert ReadOn(s, t, Probe(3, open)) == ReadOn(s, t, Probe(4, open)) == ReadOn(s, t, Probe(5, open));
        assert ReadOn(s, t, Probe(5, open)) == ReadOn(s, t, Probe(6, Unmasked(s, 0, open)));
      }
    }
  }

  /** Where the lock holder is in knl_smp_reschedule_all: the task whose mask is being read is the
      first of 'rest'. Masks are kept as they were when read. */
  datatype Phase =
    | Quiet
    | Scanning(rest: seq<nat>, chosen: seq<nat>, masks: seq<Mask>, probe: Probe)
    | Publishing(sel: seq<Option<nat>>, next: nat)

  datatype Machine = Machine(s: Sched, phase: Phase)

  /** One atomic action of the system. Decide is knl_assign_cores on the masks kept from the scan; seen
      is what its reads of knl_ctxtsk find, each made at some moment while the dispatchers go on. */
  datatype Action =
    | NewTask(t: nat, m: Mask)
    | Enter(queue: seq<seq<nat>>, klocked: set<nat>)
    | ScanRead
    | Decide(seen: set<(nat, nat)>)
    | PublishSlot
    | DisableDispatch(m: Mask)
    | GoOnline
    | Save(c: nat)
    | Install(c: nat)

  /** What processor c installs: its published task, or its own idle context. */
  function Next(s: Sched, c: nat): Occupant
    requires Sized(s) && c < TK_MAX_CORE
  {
    if s.pub[c].Some? then Task(s.pub[c].value) else Idle
  }

  predicate FeasibleWith(masks: seq<Mask>, m: Mask) {
    && |masks| < TK_MAX_CORE && m != NO_CORE
    && (masks == [] || masks[0].Or(m).Count() >= 2)
  }

  /** One read of the scan; the last read of a task decides whether it becomes a candidate. */
  function Scan(s: Sched, p: Phase): (r: Phase)
    requires Sized(s) && p.Scanning? && p.rest != []
    ensures r.Scanning?
  {
    var t := p.rest[0];
    if t in p.chosen then Scanning(p.rest[1..], p.chosen, p.masks, FRESH)
    else
      match Read(s, t, p.probe)
      case More(q) => p.(probe := q)
      case Found(mask) =>
        if FeasibleWith(p.masks, mask) then Scanning(p.rest[1..], p.chosen + [t], p.masks + [mask], FRESH)
        else Scanning(p.rest[1..], p.chosen, p.masks, FRESH)
  }

  ghost predicate Step(m: Machine, a: Action, m': Machine)
    requires Sized(m.s)
  {
    match a
    case NewTask(t, k) =>
      // tk_cre_tsk: a control block from the free list, with its affinity
      && m.phase.Quiet? && !Holds(m.s, t, 0) && !Holds(m.s, t, 1)
      && m' == m.(s := m.s.(assprc := m.s.assprc[t := k]))
    case Enter(queue, klocked) =>
      // the ready queue changed inside a critical section, and the reschedule begins
      && m.phase.Quiet?
      && (var s := m.s.(queue := queue, klocked := klocked); m' == Machine(s, Scanning(Order(s), [], [], FRESH)))
    case ScanRead =>
      m.phase.Scanning? && m.phase.rest != [] && m' == m.(phase := Scan(m.s, m.phase))
    case Decide(seen) =>
      && m.phase.Scanning? && (m.phase.rest == [] || |m.phase.chosen| == TK_MAX_CORE)
      && |m.phase.chosen| == |m.phase.masks| <= TK_MAX_CORE
      && m' == m.(phase := Publishing(Guarded(m.s, AllPasses(m.phase.chosen, m.phase.masks, seen).out), 0))
    case PublishSlot =>
      && m.phase.Publishing? && |m.phase.sel| == TK_MAX_CORE && m.phase.next < TK_MAX_CORE
      && (var c := m.phase.next;
          m' == Machine(if m.s.online.Has(c) then m.s.(pub := m.s.pub[c := m.phase.sel[c]]) else m.s,
                        if c + 1 < TK_MAX_CORE then Publishing(m.phase.sel, c + 1) else Quiet))
    case DisableDispatch(k) => m' == m.(s := m.s.(masked := k))
    case GoOnline => m.phase.Quiet? && m' == m.(s := m.s.(online := ALL_CORES))
    case Save(c) => c < TK_MAX_CORE && m' == m.(s := m.s.(ctx := m.s.ctx[c := Nobody]))
    case Install(c) => c < TK_MAX_CORE && m.s.ctx[c] == Nobody && m' == m.(s := m.s.(ctx := m.s.ctx[c := Next(m.s, c)]))
  }

  /** Processor c may be given task t: nobody else holds it, and its affinity allows c. */
  predicate Grantable(s: Sched, t: nat, c: nat)
    requires Sized(s)
  {
    c < TK_MAX_CORE && !Holds(s, t, 1 - c) && Affinity(s, t).Has(c)
  }

  ghost predicate ChoiceOk(s: Sched, chosen: seq<nat>, masks: seq<Mask>)
    requires Sized(s)
  {
    && |chosen| == |masks| && FeasibleMasks(masks)
    && (|chosen| == 2 ==> chosen[0] != chosen[1])
    && (forall i, c: nat :: 0 <= i < |chosen| && masks[i].Has(c) ==> Grantable(s, chosen[i], c))
  }

  /** What the reads made so far say about now: a task that is published nowhere cannot have become
      current behind their back. */
  predicate ProbeOk(s: Sched, t: nat, p: Probe)
    requires Sized(s)
  {
    && (s.pub[0] != Some(t) && s.pub[1] != Some(t) ==> (p.k >= 2 ==> s.ctx[0] != Task(t)) && (p.k >= 3 ==> s.ctx[1] != Task(t)))
    && (p.k >= 4 ==> s.pub[0] != Some(t)) && (p.k >= 5 ==> s.pub[1] != Some(t))
    && (1 <= p.k <= 5 ==> p.open == ALL_CORES.And(s.online)) && (p.k >= 1 ==> p.open.Without(s.online) == NO_CORE)
  }

  ghost predicate SelectionOk(s: Sched, sel: seq<Option<nat>>)
    requires Sized(s)
  {
    && |sel| == TK_MAX_CORE
    && (sel[0].Some? ==> sel[0] != sel[1])
    && (forall c: nat :: c < TK_MAX_CORE && sel[c].Some? ==> Grantable(s, sel[c].value, c))
  }

  /** What every reachable state satisfies. */
  ghost predicate Safe(m: Machine) {
    && Owned(m.s)
    && match m.phase
       case Quiet => true
       case Scanning(rest, chosen, masks, p) => ChoiceOk(m.s, chosen, masks) && (rest != [] ==> ProbeOk(m.s, rest[0], p))
       case Publishing(sel, _) => SelectionOk(m.s, sel)
  }

  lemma InstallHolds(s: Sched, c: nat, t: nat, d: nat)
    requires Sized(s) && c < TK_MAX_CORE
    ensures Holds(s.(ctx := s.ctx[c := Next(s, c)]), t, d) ==> Holds(s, t, d)
    ensures Holds(s.(ctx := s.ctx[c := Nobody]), t, d) ==> Holds(s, t, d)
  {
  }

  lemma DispatchSafe(m: Machine, c: nat, o: Occupant)
    requires Safe(m) && c < TK_MAX_CORE && (o == Nobody || o == Next(m.s, c))
    ensures Safe(m.(s := m.s.(ctx := m.s.ctx[c := o])))
  {
    var s' := m.s.(ctx := m.s.ctx[c := o]);
    forall t: nat, d: nat | Holds(s', t, d) ensures Holds(m.s, t, d) {
      InstallHolds(m.s, c, t, d);
    }
  }

  /** Whenever its five slots were read, the mask allows only processors that may be given the task now. */
  lemma ReadGrants(s: Sched, t: nat, p: Probe, c: nat)
    requires Owned(s) && ProbeOk(s, t, p) && Read(s, t, p).Found? && Read(s, t, p).mask.Has(c)
    ensures Grantable(s, t, c)
  {
    if p.k <= 4 {
      assert Holds(s, t, c);
    } else {
      assert !Holds(s, t, 0) && !Holds(s, t, 1);
    }
  }

  lemma ReadOk(s: Sched, t: nat, p: Probe)
    requires Sized(s) && ProbeOk(s, t, p) && Read(s, t, p).More?
    ensures ProbeOk(s, t, Read(s, t, p).probe)
  {
  }

  lemma ScanSafe(m: Machine, m': Machine)
    requires Safe(m) && Step(m, ScanRead, m')
    ensures Safe(m')
  {
    var t, p := m.phase.rest[0], m.phase.probe;
    if t !in m.phase.chosen {
      match Read(m.s, t, p) {
        case More(q) => ReadOk(m.s, t, p);
        case Found(mask) =>
          forall c: nat | mask.Has(c) ensures Grantable(m.s, t, c) { ReadGrants(m.s, t, p, c); }
      }
    }
  }

  /** The guards find nothing to do, even though the masks were read at different times. */
  lemma DecideSilent(m: Machine, seen: set<(nat, nat)>)
    requires Safe(m) && m.phase.Scanning?
    ensures var sel := AllPasses(m.phase.chosen, m.phase.masks, seen).out;
      SeatsWith(m.phase.chosen, m.phase.masks, sel) && SelectionOk(m.s, sel) && Guarded(m.s, sel) == sel
  {
    var sel := AllPasses(m.phase.chosen, m.phase.masks, seen).out;
    PassesSeat(m.phase.chosen, m.phase.masks, seen);
    forall c: nat | c < TK_MAX_CORE && sel[c].Some? ensures Grantable(m.s, sel[c].value, c) {
      var i :| 0 <= i < |m.phase.chosen| && m.phase.chosen[i] == sel[c].value && m.phase.masks[i].Has(c);
    }
    SilentGuards(m.s, sel);
  }

  lemma SilentGuards(s: Sched, sel: seq<Option<nat>>)
    requires Sized(s) && SelectionOk(s, sel)
    ensures Guarded(s, sel) == sel
  {
    assert sel[0].Some? ==> Grantable(s, sel[0].value, 0);
    assert sel[1].Some? ==> Grantable(s, sel[1].value, 1);
  }

  lemma PublishSafe(m: Machine, m': Machine)
    requires Safe(m) && Step(m, PublishSlot, m')
    ensures Safe(m')
  {
    var c, sel := m.phase.next, m.phase.sel;
    if m.s.online.Has(c) {
      forall t: nat, d: nat | Holds(m'.s, t, d)
        ensures Holds(m.s, t, d) || (d == c && sel[c] == Some(t))
      {
      }
      if sel[c].Some? { assert Grantable(m.s, sel[c].value, c); }
      if sel[1 - c].Some? { assert Grantable(m.s, sel[1 - c].value, 1 - c); }
    }
  }

  lemma StepSafe(m: Machine, a: Action, m': Machine)
    requires Safe(m) && Step(m, a, m')
    ensures Safe(m')
  {
    match a
    case NewTask(t, k) => NewTaskSafe(m, t, k);
    case Enter(q, k) => assert forall t: nat, c: nat :: Holds(m'.s, t, c) ==> Holds(m.s, t, c);
    case ScanRead => ScanSafe(m, m');
    case Decide(seen) => DecideSilent(m, seen);
    case PublishSlot => PublishSafe(m, m');
    case DisableDispatch(k) => MaskedSafe(m, k);
    case GoOnline => assert forall t: nat, c: nat :: Holds(m'.s, t, c) ==> Holds(m.s, t, c);
    case Save(c) => DispatchSafe(m, c, Nobody);
    case Install(c) => DispatchSafe(m, c, Next(m.s, c));
  }

  lemma NewTaskSafe(m: Machine, t: nat, k: Mask)
    requires Safe(m) && m.phase.Quiet? && !Holds(m.s, t, 0) && !Holds(m.s, t, 1)
    ensures Safe(m.(s := m.s.(assprc := m.s.assprc[t := k])))
  {
    var s' := m.s.(assprc := m.s.assprc[t := k]);
    forall u: nat, c: nat | Holds(s', u, c) ensures Affinity(s', u).Has(c) && !Holds(s', u, 1 - c) {
      assert Holds(m.s, u, c);
    }
  }

  lemma MaskedSafe(m: Machine, k: Mask)
    requires Safe(m)
    ensures Safe(m.(s := m.s.(masked := k)))
  {
    var s' := m.s.(masked := k);
    assert forall t: nat, c: nat :: Holds(s', t, c) <==> Holds(m.s, t, c);
    assert forall t: nat :: Affinity(s', t) == Affinity(m.s, t);
  }

  // ----- Whole runs

  /** Power-up: one processor online, nothing current, nothing published. */
  predicate Start(m: Machine) {
    m.phase.Quiet? && m.s.ctx == [Nobody, Nobody] && m.s.pub == [None, None]
  }

  ghost predicate Run(ms: seq<Machine>, acts: seq<Action>) {
    && |ms| == |acts| + 1 && Start(ms[0])
    && (forall i :: 0 <= i < |acts| ==> Sized(ms[i].s) && Step(ms[i], acts[i], ms[i + 1]))
  }

  lemma {:induction false} RunSafe(ms: seq<Machine>, acts: seq<Action>, i: nat)
    requires Run(ms, acts) && i < |ms|
    ensures Safe(ms[i])
  {
    if i > 0 {
      RunSafe(ms, acts, i - 1);
      StepSafe(ms[i - 1], acts[i - 1], ms[i]);
    }
  }

  /** In every run, at every moment, no task is current or published on two processors or on one
      outside its affinity, and whenever a selection is decided the publication guards are idle. */
  lemma OneContextOneProcessor(ms: seq<Machine>, acts: seq<Action>, i: nat, t: nat)
    requires Run(ms, acts) && i < |ms|
    ensures Sized(ms[i].s) && !(Holds(ms[i].s, t, 0) && Holds(ms[i].s, t, 1))
    ensures forall c: nat :: Holds(ms[i].s, t, c) ==> Affinity(ms[i].s, t).Has(c)
    ensures i < |acts| && acts[i].Decide? ==>
      && ms[i].phase.Scanning? && |ms[i].phase.chosen| == |ms[i].phase.masks| <= TK_MAX_CORE
      && ms[i + 1].phase == Publishing(AllPasses(ms[i].phase.chosen, ms[i].phase.masks, acts[i].seen).out, 0)
  {
    RunSafe(ms, acts, i);
    if i < |acts| && acts[i].Decide? {
      assert Step(ms[i], acts[i], ms[i + 1]);
      DecideSilent(ms[i], acts[i].seen);
    }
  }

  /** Undisturbed, the decision taken is the selection of Matcher. */
  lemma AssignDecides(s: Sched)
    requires Sized(s)
    ensures AllPasses(Chosen(s), MasksOf(s, Chosen(s)), Seen(s, Chosen(s))).out == Selected(s)
  {
    SelectedSeats(s);
    PassesAssign(s, Chosen(s));
  }

  // ----- A new task is held by nobody: what TaskLife keeps

  /** The slots of both models agree. */
  ghost predicate Mirrors(s: Sched, x: TaskLife.Sys)
    requires Sized(s) && TaskLife.Sized(x)
  {
    s.pub == x.pub && forall c: nat, t: nat :: c < TK_MAX_CORE ==> (s.ctx[c] == Task(t) <==> x.ctx[c] == Some(t))
  }

  /** The guard of NewTask: a block that tk_cre_tsk can take is current and published nowhere. */
  lemma NewTaskUnheld(s: Sched, x: TaskLife.Sys, t: nat)
    requires Sized(s) && TaskLife.Inv(x) && Mirrors(s, x) && TaskLife.Enabled(x, TaskLife.Create(t))
    ensures !Holds(s, t, 0) && !Holds(s, t, 1)
  {
    TaskLife.CreatedIsUnheld(x, t);
    assert s.pub[0] in s.pub && s.pub[1] in s.pub;
  }

  /** The steps that write slots keep them equal: a save, an install, and the publication of a slot. */
  lemma MirrorsKept(m: Machine, x: TaskLife.Sys, c: nat, m': Machine)
    requires Sized(m.s) && TaskLife.Sized(x) && Mirrors(m.s, x) && c < TK_MAX_CORE
    ensures Step(m, Save(c), m') && TaskLife.Enabled(x, TaskLife.Save(c)) ==> Sized(m'.s) && Mirrors(m'.s, TaskLife.Do(x, TaskLife.Save(c)))
    ensures Step(m, Install(c), m') && TaskLife.Enabled(x, TaskLife.Install(c)) ==> Sized(m'.s) && Mirrors(m'.s, TaskLife.Do(x, TaskLife.Install(c)))
    ensures Step(m, PublishSlot, m') && Sized(m'.s) && TaskLife.Enabled(x, TaskLife.Publish(m'.s.pub)) ==>
        Mirrors(m'.s, TaskLife.Do(x, TaskLife.Publish(m'.s.pub)))
  {
  }

  // ----- With fixed inputs the selection only gets better, and settles

  /** A published slot costs the rank of its task; an empty one costs the length of the queue. */
  function Cost(l: seq<nat>, o: Option<nat>): nat {
    if o.Some? then Rank(l, o.value) else |l|
  }

  function Weight(s: Sched): nat
    requires Sized(s)
  {
    Cost(Order(s), s.pub[0]) + Cost(Order(s), s.pub[1])
  }

  /** Only ready tasks are published, and only to processors that are online. */
  ghost predicate Settled(s: Sched) {
    && Owned(s)
    && (forall c: nat :: c < TK_MAX_CORE && s.pub[c].Some? ==> s.pub[c].value in Order(s) && s.online.Has(c))
  }

  lemma PublishedPinned(s: Sched, c: nat)
    requires Settled(s) && c < TK_MAX_CORE && s.pub[c].Some?
    ensures MaskOf(s, s.pub[c].value) == Only(c)
  {
    var t := s.pub[c].value;
    assert Holds(s, t, c) && !Holds(s, t, 1 - c);
  }

  lemma RescheduleSettled(s: Sched)
    requires Owned(s) && (forall c: nat :: c < TK_MAX_CORE && !s.online.Has(c) ==> s.pub[c].None?)
    ensures Settled(Reschedule(s)) && Order(Reschedule(s)) == Order(s) && Reschedule(s).pub == Selected(s)
  {
    RescheduleOwned(s);
    GuardsSilent(s);
    SelectedSeats(s);
    PickPlaceable(s, Order(s), []);
    var sel := Selected(s);
    forall c: nat | c < TK_MAX_CORE && sel[c].Some? ensures s.online.Has(c) && sel[c].value in Order(s) {
      MaskRespectsHolder(s, sel[c].value, c);
    }
  }

  lemma RankInjective(l: seq<nat>, a: nat, b: nat)
    requires a in l && b in l && Rank(l, a) == Rank(l, b)
    ensures a == b
  {
  }

  /** The weight of a selection is the sum over the chosen tasks, in any seating. */
  lemma SeatedWeight(s: Sched, ts: seq<nat>, out: seq<Option<nat>>)
    requires Sized(s) && Seats(s, ts, out) && Placeable(s, ts)
    ensures Cost(Order(s), out[0]) + Cost(Order(s), out[1])
            == (if |ts| > 0 then Rank(Order(s), ts[0]) else |Order(s)|) + (if |ts| > 1 then Rank(Order(s), ts[1]) else |Order(s)|)
  {
    if |ts| == 1 {
      assert ts[0] in ts;
      assert ts == [ts[0]];
    } else if |ts| == 2 {
      assert ts[0] in ts && ts[1] in ts;
      assert ts == [ts[0], ts[1]];
    }
  }

  /** The tasks now published, by rank. */
  function PublishedByRank(s: Sched): seq<nat>
    requires Sized(s)
  {
    if s.pub[0].Some? && s.pub[1].Some? then
      if Rank(Order(s), s.pub[0].value) < Rank(Order(s), s.pub[1].value) then [s.pub[0].value, s.pub[1].value] else [s.pub[1].value, s.pub[0].value]
    else if s.pub[0].Some? then [s.pub[0].value]
    else if s.pub[1].Some? then [s.pub[1].value]
    else []
  }

  lemma PublishedPlaceable(s: Sched)
    requires Settled(s)
    ensures var ts := PublishedByRank(s);
      && Placeable(s, ts) && Seats(s, ts, s.pub) && (forall i :: 0 <= i < |ts| ==> ts[i] in Order(s))
      && (|ts| == 2 ==> Rank(Order(s), ts[0]) < Rank(Order(s), ts[1]))
  {
    if s.pub[0].Some? { PublishedPinned(s, 0); }
    if s.pub[1].Some? { PublishedPinned(s, 1); }
    if s.pub[0].Some? && s.pub[1].Some? {
      assert Holds(s, s.pub[0].value, 0) && Holds(s, s.pub[1].value, 1);
      assert s.pub[0].value != s.pub[1].value;
    }
  }

  /** A further reschedule never selects worse, and if the weight stays so do both slots. */
  lemma RescheduleImproves(s: Sched)
    requires Settled(s)
    ensures Settled(Reschedule(s)) && Weight(Reschedule(s)) <= Weight(s)
    ensures Weight(Reschedule(s)) == Weight(s) ==> Reschedule(s).pub == s.pub
  {
    var l, p, ts := Order(s), Chosen(s), PublishedByRank(s);
    RescheduleSettled(s);
    PublishedPlaceable(s);
    SelectedSeats(s);
    ChoiceDominates(s, l, ts);
    SeatedWeight(s, ts, s.pub);
    SeatedWeight(s, p, Selected(s));
    PickPlaceable(s, l, []);
    forall i | 0 <= i < |p| ensures p[i] in l { assert p[i] in p; }
    if Weight(Reschedule(s)) == Weight(s) {
      SameWeight(l, p, ts);
      SameSeats(s, ts, s.pub, Selected(s));
    }
  }

  lemma SameWeight(l: seq<nat>, p: seq<nat>, ts: seq<nat>)
    requires |ts| <= |p| <= 2 && (forall i :: 0 <= i < |p| ==> p[i] in l) && (forall i :: 0 <= i < |ts| ==> ts[i] in l)
    requires forall k :: 0 <= k < |ts| ==> Rank(l, p[k]) <= Rank(l, ts[k])
    requires (if |ts| > 0 then Rank(l, ts[0]) else |l|) + (if |ts| > 1 then Rank(l, ts[1]) else |l|)
             == (if |p| > 0 then Rank(l, p[0]) else |l|) + (if |p| > 1 then Rank(l, p[1]) else |l|)
    ensures p == ts
  {
    if |p| > 0 {
      var a := Rank(l, p[0]);
      assert a < |l|;
      if |p| > 1 {
        var b := Rank(l, p[1]);
        assert b < |l|;
      }
    }
    assert |p| == |ts|;
    forall k | 0 <= k < |p| ensures p[k] == ts[k] {
      assert k == 0 || k == 1;
      RankInjective(l, p[k], ts[k]);
    }
  }

  /** Published tasks are pinned, so the same tasks sit in the same seats. */
  lemma SameSeats(s: Sched, ts: seq<nat>, a: seq<Option<nat>>, b: seq<Option<nat>>)
    requires Settled(s) && a == s.pub && Seats(s, ts, a) && Seats(s, ts, b)
    ensures a == b
  {
    forall c: nat | c < TK_MAX_CORE ensures a[c] == b[c] {
      if a[c].Some? {
        PublishedPinned(s, c);
        assert Some(a[c].value) in b;
      } else if b[c].Some? {
        assert Some(b[c].value) in a;
        PublishedPinned(s, 1 - c);
      }
    }
  }
}
