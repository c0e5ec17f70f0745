/** knl_ready_queue_assign and knl_smp_reschedule_all, in place on the per-core slots. */
module Scheduler {
  import opened Options
  import opened CoreMasks
  import opened Matcher
  import opened Urgency

  // ----- The passes of knl_assign_cores as a function of the seats taken so far

  /** Seats taken so far, and the candidates still standing (cleared once seated). */
  datatype Seating = Seating(out: seq<Option<nat>>, left: seq<Option<nat>>)

  datatype Pass = Pinned | Stay | Fill

  /** The masks read for the chosen tasks, if all are read in state s. */
  function MasksOf(s: Sched, chosen: seq<nat>): (m: seq<Mask>)
    requires Sized(s)
    ensures |m| == |chosen| && forall i :: 0 <= i < |m| ==> m[i] == MaskOf(s, chosen[i])
  {
    seq(|chosen|, i requires 0 <= i < |chosen| => MaskOf(s, chosen[i]))
  }

  /** The reads of knl_ctxtsk in the second pass that find the candidate, if all are made in state s:
      (i, c) says that candidate i was seen on processor c. */
  function Seen(s: Sched, chosen: seq<nat>): set<(nat, nat)>
    requires Sized(s)
  {
    set i: nat, c: nat | i < |chosen| && c < TK_MAX_CORE && s.ctx[c] == Task(chosen[i]) :: (i, c)
  }

  /** Pass p lets candidate i take processor c. */
  predicate Wants(masks: seq<Mask>, seen: set<(nat, nat)>, p: Pass, i: nat, c: nat)
    requires i < |masks|
  {
    && masks[i].Has(c)
    && match p
       case Pinned => masks[i].Count() == 1
       case Stay => (i, c) in seen
       case Fill => true
  }

  function FirstSeat(masks: seq<Mask>, seen: set<(nat, nat)>, p: Pass, i: nat, out: seq<Option<nat>>): Option<nat>
    requires i < |masks| && |out| == TK_MAX_CORE
  {
    if out[0].None? && Wants(masks, seen, p, i, 0) then Some(0)
    else if out[1].None? && Wants(masks, seen, p, i, 1) then Some(1)
    else None
  }

  predicate SeatingOk(st: Seating) {
    |st.out| == TK_MAX_CORE && |st.left| == TK_MAX_CORE
  }

  function SeatOne(masks: seq<Mask>, seen: set<(nat, nat)>, p: Pass, st: Seating, i: nat): (r: Seating)
    requires SeatingOk(st) && i < |masks| <= TK_MAX_CORE
    ensures SeatingOk(r)
  {
    if st.left[i].None? then st
    else
      var seat := FirstSeat(masks, seen, p, i, st.out);
      if seat.None? || seat.value >= TK_MAX_CORE then st
      else Seating(st.out[seat.value := st.left[i]], st.left[i := None])
  }

  function RunPass(masks: seq<Mask>, seen: set<(nat, nat)>, p: Pass, st: Seating, n: nat): (r: Seating)
    requires SeatingOk(st) && n <= |masks| <= TK_MAX_CORE
    ensures SeatingOk(r)
  {
    if n == 0 then st else SeatOne(masks, seen, p, RunPass(masks, seen, p, st, n - 1), n - 1)
  }

  function Standing(chosen: seq<nat>): (l: seq<Option<nat>>)
    requires |chosen| <= TK_MAX_CORE
    ensures |l| == TK_MAX_CORE
  {
    [if |chosen| > 0 then Some(chosen[0]) else None, if |chosen| > 1 then Some(chosen[1]) else None]
  }

  /** knl_assign_cores, for the masks kept for the candidates and whatever its reads see. */
  function AllPasses(chosen: seq<nat>, masks: seq<Mask>, seen: set<(nat, nat)>): (r: Seating)
    requires |chosen| == |masks| <= TK_MAX_CORE
    ensures SeatingOk(r)
  {
    var n := |chosen|;
    var st := Seating([None, None], Standing(chosen));
    RunPass(masks, seen, Fill, RunPass(masks, seen, Stay, RunPass(masks, seen, Pinned, st, n), n), n)
  }

  /** Masks that passed the feasibility test. */
  predicate FeasibleMasks(masks: seq<Mask>) {
    && |masks| <= TK_MAX_CORE
    && (forall i :: 0 <= i < |masks| ==> masks[i] != NO_CORE)
    && (|masks| == 2 ==> masks[0].Or(masks[1]).Count() >= 2)
  }

  /** sel seats exactly the chosen tasks, each once and on a processor of the mask read for it. */
  ghost predicate SeatsWith(chosen: seq<nat>, masks: seq<Mask>, sel: seq<Option<nat>>) {
    && |sel| == TK_MAX_CORE && |masks| == |chosen|
    && (forall c: nat :: c < |sel| && sel[c].Some? ==> exists i :: 0 <= i < |chosen| && chosen[i] == sel[c].value && masks[i].Has(c))
    && (forall i :: 0 <= i < |chosen| ==> Some(chosen[i]) in sel)
    && (sel[0].Some? ==> sel[0] != sel[1])
  }

  lemma OneStep(masks: seq<Mask>, seen: set<(nat, nat)>, p: Pass, st: Seating)
    requires SeatingOk(st) && 1 <= |masks| <= TK_MAX_CORE
    ensures RunPass(masks, seen, p, st, 1) == SeatOne(masks, seen, p, st, 0)
  {
    assert RunPass(masks, seen, p, st, 0) == st;
  }

  lemma TwoSteps(masks: seq<Mask>, seen: set<(nat, nat)>, p: Pass, st: Seating)
    requires SeatingOk(st) && |masks| == TK_MAX_CORE
    ensures RunPass(masks, seen, p, st, 2) == SeatOne(masks, seen, p, SeatOne(masks, seen, p, st, 0), 1)
  {
    OneStep(masks, seen, p, st);
  }

  /** The passes seat everybody for any feasible masks, whenever they were read, and whatever the
      second pass sees of processors that dispatch meanwhile. */
  lemma PassesSeat(chosen: seq<nat>, masks: seq<Mask>, seen: set<(nat, nat)>)
    requires |chosen| == |masks| && FeasibleMasks(masks) && (|chosen| == 2 ==> chosen[0] != chosen[1])
    ensures SeatsWith(chosen, masks, AllPasses(chosen, masks, seen).out) && AllPasses(chosen, masks, seen).left == [None, None]
  {
    var st := Seating([None, None], Standing(chosen));
    if |chosen| == 1 {
      var st1 := RunPass(masks, seen, Pinned, st, 1);
      OneStep(masks, seen, Pinned, st);
      OneStep(masks, seen, Stay, st1);
      OneStep(masks, seen, Fill, RunPass(masks, seen, Stay, st1, 1));
      var out := AllPasses(chosen, masks, seen).out;
      assert out == [Some(chosen[0]), None] || out == [None, Some(chosen[0])];
    } else if |chosen| == 2 {
      PairSeats(chosen, masks, seen);
    }
  }

  lemma PairSeats(chosen: seq<nat>, masks: seq<Mask>, seen: set<(nat, nat)>)
    requires |chosen| == |masks| == 2 && FeasibleMasks(masks) && chosen[0] != chosen[1]
    ensures SeatsWith(chosen, masks, AllPasses(chosen, masks, seen).out) && AllPasses(chosen, masks, seen).left == [None, None]
  {
    var a, b := chosen[0], chosen[1];
    var st := Seating([None, None], Standing(chosen));
    var st1 := RunPass(masks, seen, Pinned, st, 2);
    var st2 := RunPass(masks, seen, Stay, st1, 2);
    TwoSteps(masks, seen, Pinned, st);
    TwoSteps(masks, seen, Stay, st1);
    TwoSteps(masks, seen, Fill, st2);
    PairPinned(a, b, masks, seen);
    PairStay(a, b, masks, seen, st1);
    PairFill(a, b, masks, seen, st2);
    var out := AllPasses(chosen, masks, seen).out;
    assert out == [Some(a), Some(b)] || out == [Some(b), Some(a)];
  }

  /** A seating of a and b under way: whoever is seated has its seat in its mask, and what is left for
      the other is in its mask too. */
  predicate Halfway(a: nat, b: nat, masks: seq<Mask>, st: Seating)
    requires |masks| == 2
  {
    var m, n := masks[0], masks[1];
    || (st == Seating([None, None], [Some(a), Some(b)]) && m == ALL_CORES && n == ALL_CORES)
    || (st == Seating([Some(a), None], [None, Some(b)]) && m.Has(0) && n.Has(1))
    || (st == Seating([None, Some(a)], [None, Some(b)]) && m.Has(1) && n.Has(0))
    || (st == Seating([Some(b), None], [Some(a), None]) && n.Has(0) && m.Has(1))
    || (st == Seating([None, Some(b)], [Some(a), None]) && n.Has(1) && m.Has(0))
    || (st == Seating([Some(a), Some(b)], [None, None]) && m.Has(0) && n.Has(1))
    || (st == Seating([Some(b), Some(a)], [None, None]) && n.Has(0) && m.Has(1))
  }

  lemma PairPinned(a: nat, b: nat, masks: seq<Mask>, seen: set<(nat, nat)>)
    requires |masks| == 2 && FeasibleMasks(masks)
    ensures Halfway(a, b, masks, SeatOne(masks, seen, Pinned, SeatOne(masks, seen, Pinned, Seating([None, None], [Some(a), Some(b)]), 0), 1))
  {
  }

  lemma PairStay(a: nat, b: nat, masks: seq<Mask>, seen: set<(nat, nat)>, st: Seating)
    requires |masks| == 2 && SeatingOk(st) && Halfway(a, b, masks, st)
    ensures Halfway(a, b, masks, SeatOne(masks, seen, Stay, SeatOne(masks, seen, Stay, st, 0), 1))
  {
  }

  lemma PairFill(a: nat, b: nat, masks: seq<Mask>, seen: set<(nat, nat)>, st: Seating)
    requires |masks| == 2 && SeatingOk(st) && Halfway(a, b, masks, st)
    ensures var r := SeatOne(masks, seen, Fill, SeatOne(masks, seen, Fill, st, 0), 1); Halfway(a, b, masks, r) && r.left == [None, None]
  {
  }

  /** In one state the three passes arrive at the placement of Matcher.Assign, and seat everybody. */
  lemma PassesAssign(s: Sched, chosen: seq<nat>)
    requires Sized(s) && Placeable(s, chosen)
    ensures AllPasses(chosen, MasksOf(s, chosen), Seen(s, chosen)).out == Assign(s, chosen)
    ensures AllPasses(chosen, MasksOf(s, chosen), Seen(s, chosen)).left == [None, None]
  {
    var masks, seen := MasksOf(s, chosen), Seen(s, chosen);
    var st := Seating([None, None], Standing(chosen));
    if |chosen| == 1 {
      OneStep(masks, seen, Pinned, st);
      OneStep(masks, seen, Stay, RunPass(masks, seen, Pinned, st, 1));
      OneStep(masks, seen, Fill, RunPass(masks, seen, Stay, RunPass(masks, seen, Pinned, st, 1), 1));
    } else if |chosen| == 2 {
      TwoSteps(masks, seen, Pinned, st);
      TwoSteps(masks, seen, Stay, RunPass(masks, seen, Pinned, st, 2));
      TwoSteps(masks, seen, Fill, RunPass(masks, seen, Stay, RunPass(masks, seen, Pinned, st, 2), 2));
      PairAssign(s, chosen[0], chosen[1]);
      assert chosen == [chosen[0], chosen[1]];
    }
  }

  lemma PairAssign(s: Sched, a: nat, b: nat)
    requires Sized(s) && Placeable(s, [a, b])
    ensures var masks, seen := MasksOf(s, [a, b]), Seen(s, [a, b]);
      var st := Seating([None, None], [Some(a), Some(b)]);
      var st1 := SeatOne(masks, seen, Pinned, SeatOne(masks, seen, Pinned, st, 0), 1);
      var st2 := SeatOne(masks, seen, Stay, SeatOne(masks, seen, Stay, st1, 0), 1);
      var st3 := SeatOne(masks, seen, Fill, SeatOne(masks, seen, Fill, st2, 0), 1);
      st3 == Seating(Assign(s, [a, b]), [None, None])
  {
    assert [a, b][0] == a && [a, b][1] == b;
    assert MaskOf(s, a) != NO_CORE && MaskOf(s, b) != NO_CORE;
    var masks, seen := MasksOf(s, [a, b]), Seen(s, [a, b]);
    var st := Seating([None, None], [Some(a), Some(b)]);
    var u := SeatOne(masks, seen, Pinned, st, 0);
    var st1 := SeatOne(masks, seen, Pinned, u, 1);
    if MaskOf(s, a).Count() == 1 && MaskOf(s, b).Count() == 1 {
      assert st1.left == [None, None];
    } else if MaskOf(s, a).Count() == 1 {
      assert st1.left == [None, Some(b)];
    } else if MaskOf(s, b).Count() == 1 {
      assert st1.left == [Some(a), None];
    } else {
      assert st1 == st;
    }
  }

  // ----- Publication

  /** The guards of knl_smp_reschedule_all, for the selection sel. */
  function NotElsewhere(s: Sched, sel: seq<Option<nat>>, c: nat): (r: seq<Option<nat>>)
    requires Sized(s) && |sel| == TK_MAX_CORE && c < TK_MAX_CORE
    ensures |r| == TK_MAX_CORE
  {
    if sel[c].Some? && s.pub[1 - c] == sel[c] && sel[1 - c] != sel[c] then sel[c := None] else sel
  }

  function NotTwice(sel: seq<Option<nat>>): (r: seq<Option<nat>>)
    requires |sel| == TK_MAX_CORE
    ensures |r| == TK_MAX_CORE
  {
    if sel[1].Some? && sel[1] == sel[0] then sel[1 := None] else sel
  }

  function NotForbidden(s: Sched, sel: seq<Option<nat>>, c: nat): (r: seq<Option<nat>>)
    requires |sel| == TK_MAX_CORE && c < TK_MAX_CORE
    ensures |r| == TK_MAX_CORE
  {
    if sel[c].Some? && !Affinity(s, sel[c].value).Has(c) then sel[c := None] else sel
  }

  function Guarded(s: Sched, sel: seq<Option<nat>>): (r: seq<Option<nat>>)
    requires Sized(s) && |sel| == TK_MAX_CORE
    ensures |r| == TK_MAX_CORE
  {
    NotForbidden(s, NotForbidden(s, NotTwice(NotElsewhere(s, NotElsewhere(s, sel, 0), 1)), 0), 1)
  }

  function Selected(s: Sched): (r: seq<Option<nat>>)
    requires Sized(s)
    ensures |r| == TK_MAX_CORE
  {
    Assign(s, Chosen(s))
  }

  /** The slots after one reschedule. */
  function Published(s: Sched): (r: seq<Option<nat>>)
    requires Sized(s)
    ensures |r| == TK_MAX_CORE
  {
    var g := Guarded(s, Selected(s));
    [if s.online.Has(0) then g[0] else s.pub[0], if s.online.Has(1) then g[1] else s.pub[1]]
  }

  function Reschedule(s: Sched): (s': Sched)
    requires Sized(s)
    ensures Sized(s')
  {
    s.(pub := Published(s))
  }

  // ----- Ownership

  /** Processor c holds task t: it runs it, or will install it without asking. */
  predicate Holds(s: Sched, t: nat, c: nat)
    requires Sized(s)
  {
    c < TK_MAX_CORE && (s.ctx[c] == Task(t) || s.pub[c] == Some(t))
  }

  /** No task is held by two processors, and none by a processor its affinity excludes. */
  ghost predicate Owned(s: Sched) {
    && Sized(s)
    && (forall t: nat :: !(Holds(s, t, 0) && Holds(s, t, 1)))
    && (forall t: nat, c: nat :: Holds(s, t, c) ==> Affinity(s, t).Has(c))
  }

  /** A task's mask only allows the processor that already holds it, and never leaves its affinity. */
  lemma MaskRespectsHolder(s: Sched, t: nat, c: nat)
    requires Owned(s) && c < TK_MAX_CORE && MaskOf(s, t).Has(c)
    ensures !Holds(s, t, 1 - c) && Affinity(s, t).Has(c) && s.online.Has(c)
  {
    assert Holds(s, t, 0) ==> Affinity(s, t).Has(0);
    assert Holds(s, t, 1) ==> Affinity(s, t).Has(1);
  }

  lemma SelectedSeats(s: Sched)
    requires Sized(s)
    ensures Placeable(s, Chosen(s)) && Seats(s, Chosen(s), Selected(s))
  {
    PickPlaceable(s, Order(s), []);
    AssignSeats(s, Chosen(s));
  }

  /** The guards keep processor c's task unless it is published for the other one or its affinity
      excludes c. */
  predicate Refused(s: Sched, t: nat, c: nat)
    requires Sized(s) && c < TK_MAX_CORE
  {
    s.pub[1 - c] == Some(t) || !Affinity(s, t).Has(c)
  }

  /** pub is what the slots get when out is selected. */
  ghost predicate Installs(s: Sched, out: seq<Option<nat>>, pub: seq<Option<nat>>)
    requires Sized(s)
  {
    && |out| == TK_MAX_CORE && |pub| == TK_MAX_CORE
    && (forall c: nat :: c < TK_MAX_CORE && !s.online.Has(c) ==> pub[c] == s.pub[c])
    && (forall c: nat :: c < TK_MAX_CORE && s.online.Has(c) ==>
      pub[c] == (if out[c].Some? && Refused(s, out[c].value, c) then None else out[c]))
  }

  /** The slots get the most urgent selection; a task is held back exactly by the guards, and with
      ownership intact nobody is. */
  ghost predicate InstallsByUrgency(s: Sched, pub: seq<Option<nat>>)
    requires Sized(s)
  {
    exists out: seq<Option<nat>> :: ByUrgency(s, out) && Installs(s, out, pub) && (Owned(s) ==> NobodyRefused(s, out))
  }

  ghost predicate NobodyRefused(s: Sched, out: seq<Option<nat>>)
    requires Sized(s) && |out| == TK_MAX_CORE
  {
    forall c: nat :: c < TK_MAX_CORE && out[c].Some? ==> !Refused(s, out[c].value, c)
  }

  ghost predicate ByUrgency(s: Sched, out: seq<Option<nat>>)
    requires Sized(s)
  {
    |out| == TK_MAX_CORE && MostUrgent(s, out) && NobodyPassedOver(s, out) && LowestFirst(s, out)
  }

  lemma PublishedByUrgency(s: Sched)
    requires Sized(s)
    ensures ByUrgency(s, Selected(s)) && InstallsByUrgency(s, Published(s))
  {
    SelectionByUrgency(s);
    SelectionLowestFirst(s);
    if Owned(s) { OwnedRefusesNobody(s); }
    InstallsSelected(s);
  }

  lemma InstallsSelected(s: Sched)
    requires Sized(s)
    ensures Installs(s, Selected(s), Published(s))
  {
    SelectedSeats(s);
  }

  lemma OwnedRefusesNobody(s: Sched)
    requires Owned(s)
    ensures NobodyRefused(s, Selected(s))
  {
    SelectedSeats(s);
    forall c: nat | c < TK_MAX_CORE && Selected(s)[c].Some? ensures !Refused(s, Selected(s)[c].value, c) {
      MaskRespectsHolder(s, Selected(s)[c].value, c);
    }
  }

  /** With ownership intact no guard of the publication ever fires. */
  lemma GuardsSilent(s: Sched)
    requires Owned(s)
    ensures Guarded(s, Selected(s)) == Selected(s)
  {
    SelectedSeats(s);
    var sel := Selected(s);
    forall c: nat | c < TK_MAX_CORE && sel[c].Some?
      ensures !Holds(s, sel[c].value, 1 - c) && Affinity(s, sel[c].value).Has(c)
    {
      MaskRespectsHolder(s, sel[c].value, c);
    }
  }

  /** Rescheduling keeps ownership, whatever the ready queue holds. */
  lemma RescheduleOwned(s: Sched)
    requires Owned(s)
    ensures Owned(Reschedule(s))
  {
    GuardsSilent(s);
    SelectedSeats(s);
    var sel, s' := Selected(s), Reschedule(s);
    forall t: nat, c: nat | Holds(s', t, c)
      ensures Affinity(s', t).Has(c) && !Holds(s', t, 1 - c)
    {
      if s'.ctx[c] != Task(t) && s.online.Has(c) {
        MaskRespectsHolder(s, t, c);
      } else {
        assert Holds(s, t, c);
      }
      if s.online.Has(1 - c) && sel[1 - c] == Some(t) {
        MaskRespectsHolder(s, t, 1 - c);
      }
    }
  }

  // ----- The in-place code

  class SmpScheduler {
    var ctx: seq<Occupant>
    var pub: seq<Option<nat>>
    var online: Mask
    var masked: Mask
    var queue: seq<seq<nat>>
    var klocked: set<nat>
    var assprc: map<nat, Mask>
    var dupPublish: nat
    var badAssign: nat

    ghost predicate Valid()
      reads this
    {
      |ctx| == TK_MAX_CORE && |pub| == TK_MAX_CORE
    }

    function View(): (s: Sched)
      reads this
    {
      Sched(ctx, pub, online, masked, queue, klocked, assprc)
    }

    constructor ()
      ensures Valid() && Owned(View()) && dupPublish == 0 && badAssign == 0
      ensures ctx == [Nobody, Nobody] && pub == [None, None] && queue == [] && online == Only(0)
    {
      ctx, pub, online, masked := [Nobody, Nobody], [None, None], Only(0), NO_CORE;
      queue, klocked, assprc, dupPublish, badAssign := [], {}, map[], 0, 0;
    }

    /** knl_task_core_mask, with its two loops over the slots. */
    method TaskCoreMask(t: nat) returns (m: Mask)
      requires Valid()
      ensures m == MaskOf(View(), t)
    {
      var enabled := ALL_CORES.And(online);
      for core := 0 to TK_MAX_CORE
        invariant forall c :: 0 <= c < core ==> ctx[c] != Task(t)
      {
        if ctx[core] == Task(t) { return Only(core).And(enabled); }
      }
      for core := 0 to TK_MAX_CORE
        invariant forall c :: 0 <= c < core ==> pub[c] != Some(t)
      {
        if pub[core] == Some(t) { return Only(core).And(enabled); }
      }
      for core := 0 to TK_MAX_CORE
        invariant enabled == ALL_CORES.And(online).Without(Mask(core > 0 && masked.c0, core > 1 && masked.c1))
      {
        if masked.Has(core) { enabled := enabled.Without(Only(core)); }
      }
      return (if t in assprc then assprc[t] else NO_CORE).And(enabled).And(ALL_CORES);
    }

    /** The scan of one half of knl_ready_queue_assign: the lock holders, or everybody else. */
    method Scan(locked: bool, candidate: array<Option<nat>>, masks: array<Mask>, count: nat, ghost chosen: seq<nat>)
      returns (n: nat, ghost picked: seq<nat>)
      requires Valid() && Tabled(candidate, masks, count, chosen) && candidate != masks as object
      modifies candidate, masks
      ensures picked == Pick(View(), Filter(Flat(queue), klocked, locked), chosen)
      ensures Tabled(candidate, masks, n, picked)
    {
      n, picked := count, chosen;
      var priority := 0;
      assert queue[0..] == queue;
      while priority < |queue| && n < TK_MAX_CORE
        invariant 0 <= priority <= |queue|
        invariant Tabled(candidate, masks, n, picked)
        invariant Pick(View(), Filter(Flat(queue[priority..]), klocked, locked), picked) == Pick(View(), Filter(Flat(queue), klocked, locked), chosen)
      {
        assert queue[priority..][1..] == queue[priority + 1..];
        FilterConcat(queue[priority], Flat(queue[priority + 1..]), klocked, locked);
        PickConcat(View(), Filter(queue[priority], klocked, locked), Filter(Flat(queue[priority + 1..]), klocked, locked), picked);
        n, picked := ScanLevel(queue[priority], locked, candidate, masks, n, picked);
        priority := priority + 1;
      }
      if n == TK_MAX_CORE {
        PickFull(View(), Filter(Flat(queue[priority..]), klocked, locked), picked);
      }
    }

    /** The inner loop of the scan: the tasks of one priority. */
    method ScanLevel(level: seq<nat>, locked: bool, candidate: array<Option<nat>>, masks: array<Mask>, count: nat, ghost chosen: seq<nat>)
      returns (n: nat, ghost picked: seq<nat>)
      requires Valid() && Tabled(candidate, masks, count, chosen) && candidate != masks as object
      modifies candidate, masks
      ensures picked == Pick(View(), Filter(level, klocked, locked), chosen)
      ensures Tabled(candidate, masks, n, picked)
    {
      n, picked := count, chosen;
      var i := 0;
      assert level[0..] == level;
      while i < |level| && n < TK_MAX_CORE
        invariant 0 <= i <= |level|
        invariant Tabled(candidate, masks, n, picked)
        invariant Pick(View(), Filter(level[i..], klocked, locked), picked) == Pick(View(), Filter(level, klocked, locked), chosen)
      {
        assert level[i..][1..] == level[i + 1..];
        if (level[i] in klocked) == locked {
          n, picked := Consider(level[i], candidate, masks, n, picked);
        }
        i := i + 1;
      }
      if n == TK_MAX_CORE {
        PickFull(View(), Filter(level[i..], klocked, locked), picked);
      }
    }

    ghost predicate Tabled(candidate: array<Option<nat>>, masks: array<Mask>, count: nat, chosen: seq<nat>)
      requires Valid()
      reads this, candidate, masks
    {
      && candidate.Length == TK_MAX_CORE && masks.Length == TK_MAX_CORE && count == |chosen| <= TK_MAX_CORE
      && (forall i :: 0 <= i < count ==> candidate[i] == Some(chosen[i]) && masks[i] == MaskOf(View(), chosen[i]))
      && (forall i :: count <= i < TK_MAX_CORE ==> candidate[i].None?)
    }

    /** One task of the scan: skip a duplicate or an infeasible one, else add it. */
    method Consider(t: nat, candidate: array<Option<nat>>, masks: array<Mask>, count: nat, ghost chosen: seq<nat>)
      returns (n: nat, ghost picked: seq<nat>)
      requires Valid() && Tabled(candidate, masks, count, chosen) && count < TK_MAX_CORE && candidate != masks as object
      modifies candidate, masks
      ensures Tabled(candidate, masks, n, picked)
      ensures picked == if t !in chosen && Feasible(View(), chosen, t) then chosen + [t] else chosen
    {
      n, picked := count, chosen;
      for i := 0 to count
        invariant forall j :: 0 <= j < i ==> chosen[j] != t
      {
        if candidate[i] == Some(t) { return; }
      }
      var mask := TaskCoreMask(t);
      if mask == NO_CORE { return; }
      var union := mask;
      for i := 0 to count
        invariant union == if i == 0 then mask else mask.Or(masks[0])
      {
        union := union.Or(masks[i]);
      }
      if union.Count() < count + 1 {
        assert count == 1;
        return;
      }
      candidate[count] := Some(t);
      masks[count] := mask;
      n, picked := count + 1, chosen + [t];
    }

    /** knl_assign_cores: three passes over the candidates, each seating whom it can. */
    method AssignCores(out: array<Option<nat>>, candidate: array<Option<nat>>, masks: array<Mask>, count: nat, ghost chosen: seq<nat>)
      requires Valid() && Tabled(candidate, masks, count, chosen) && out.Length == TK_MAX_CORE
      requires out != candidate && out != masks as object && candidate != masks as object
      requires Placeable(View(), chosen)
      modifies out, candidate
      ensures out[..] == Assign(View(), chosen)
      ensures out[..] == AllPasses(chosen, MasksOf(View(), chosen), Seen(View(), chosen)).out
    {
      out[0], out[1] := None, None;
      ghost var s := View();
      ghost var st := Seating([None, None], Standing(chosen));
      assert out[..] == st.out && candidate[..] == st.left;
      ghost var ms, seen := MasksOf(s, chosen), Seen(s, chosen);
      RunOnePass(Pinned, out, candidate, masks, count, chosen, st);
      RunOnePass(Stay, out, candidate, masks, count, chosen, RunPass(ms, seen, Pinned, st, count));
      RunOnePass(Fill, out, candidate, masks, count, chosen, RunPass(ms, seen, Stay, RunPass(ms, seen, Pinned, st, count), count));
      PassesAssign(s, chosen);
    }

    /** The inner loop: the first free processor this pass lets candidate i take, or none. */
    method SeatFor(p: Pass, out: array<Option<nat>>, t: nat, mask: Mask, ghost i: nat, ghost ms: seq<Mask>, ghost seen: set<(nat,
                   nat)>) returns (core: nat)
      requires Valid() && out.Length == TK_MAX_CORE && i < |ms| && ms[i] == mask && (p == Pinned ==> mask.Count() == 1)
      requires forall c: nat :: c < TK_MAX_CORE ==> ((i, c) in seen <==> View().ctx[c] == Task(t))
      ensures core <= TK_MAX_CORE && (core < TK_MAX_CORE ==> out[core].None? && Wants(ms, seen, p, i, core))
      ensures forall c: nat :: c < core ==> !(out[c].None? && Wants(ms, seen, p, i, c))
    {
      core := 0;
      while core < TK_MAX_CORE && !(out[core].None? && mask.Has(core) && (p == Stay ==> ctx[core] == Task(t)))
        invariant 0 <= core <= TK_MAX_CORE
        invariant forall c: nat :: c < core ==> !(out[c].None? && Wants(ms, seen, p, i, c))
      {
        core := core + 1;
      }
    }

    method RunOnePass(p: Pass, out: array<Option<nat>>, candidate: array<Option<nat>>, masks: array<Mask>, count: nat,
                      ghost chosen: seq<nat>, ghost st: Seating)
      requires Valid() && out.Length == candidate.Length == masks.Length == TK_MAX_CORE && count == |chosen| <= TK_MAX_CORE
      requires out != candidate && out != masks as object && candidate != masks as object
      requires SeatingOk(st) && out[..] == st.out && candidate[..] == st.left && Left(st.left, chosen)
      requires forall i :: 0 <= i < count ==> masks[i] == MaskOf(View(), chosen[i])
      modifies out, candidate
      ensures out[..] == RunPass(MasksOf(View(), chosen), Seen(View(), chosen), p, st, count).out
      ensures candidate[..] == RunPass(MasksOf(View(), chosen), Seen(View(), chosen), p, st, count).left
      ensures Left(candidate[..], chosen)
    {
      ghost var ms, seen := MasksOf(View(), chosen), Seen(View(), chosen);
      for i := 0 to count
        invariant out[..] == RunPass(ms, seen, p, st, i).out && candidate[..] == RunPass(ms, seen, p, st, i).left
        invariant Left(candidate[..], chosen)
      {
        SeatCandidate(p, out, candidate, masks[i], i, ms, seen, RunPass(ms, seen, p, st, i));
      }
    }

    /** One candidate's turn in a pass. */
    method SeatCandidate(p: Pass, out: array<Option<nat>>, candidate: array<Option<nat>>, mask: Mask, i: nat,
                         ghost ms: seq<Mask>, ghost seen: set<(nat, nat)>, ghost st: Seating)
      requires Valid() && out.Length == candidate.Length == TK_MAX_CORE && out != candidate
      requires SeatingOk(st) && out[..] == st.out && candidate[..] == st.left && i < |ms| <= TK_MAX_CORE && ms[i] == mask
      requires candidate[i].Some? ==> forall c: nat :: c < TK_MAX_CORE ==> ((i, c) in seen <==> View().ctx[c] == Task(candidate[i].value))
      modifies out, candidate
      ensures out[..] == SeatOne(ms, seen, p, st, i).out && candidate[..] == SeatOne(ms, seen, p, st, i).left
    {
      assert out[..] == [out[0], out[1]] && candidate[..] == [candidate[0], candidate[1]];
      if candidate[i].Some? && (p == Pinned ==> mask.Count() == 1) {
        var core := SeatFor(p, out, candidate[i].value, mask, i, ms, seen);
        if core < TK_MAX_CORE {
          out[core] := candidate[i];
          candidate[i] := None;
          assert out[..] == st.out[core := st.left[i]] && candidate[..] == st.left[i := None];
        }
      }
    }

    /** knl_ready_queue_assign: the task each processor should run. */
    method ReadyQueueAssign(out: array<Option<nat>>)
      requires Valid() && out.Length == TK_MAX_CORE
      modifies out
      ensures out[..] == Selected(View()) && ByUrgency(View(), out[..])
    {
      var candidate := new Option<nat>[TK_MAX_CORE](_ => None);
      var masks := new Mask[TK_MAX_CORE](_ => NO_CORE);
      ghost var s := View();
      var n, picked := Scan(true, candidate, masks, 0, []);
      ghost var first := picked;
      n, picked := Scan(false, candidate, masks, n, first);
      PickConcat(s, Filter(Flat(queue), klocked, true), Filter(Flat(queue), klocked, false), []);
      SelectedSeats(s);
      AssignCores(out, candidate, masks, n, picked);
      PublishedByUrgency(s);
    }

    /** knl_smp_reschedule_all on processor self; 'requests' are the processors it interrupts. */
    method RescheduleAll(self: nat) returns (requests: set<nat>)
      requires Valid() && self < TK_MAX_CORE
      modifies this`pub, this`dupPublish, this`badAssign
      ensures Valid() && View() == Reschedule(old(View()))
      ensures InstallsByUrgency(old(View()), pub)
      ensures requests == set c {:trigger pub[c]} | 0 <= c < TK_MAX_CORE && c != self && pub[c] != old(pub[c])
      ensures Owned(old(View())) ==> Owned(View()) && dupPublish == old(dupPublish) && badAssign == old(badAssign)
    {
      ghost var s := View();
      PublishedByUrgency(s);
      var sel := new Option<nat>[TK_MAX_CORE](_ => None);
      ReadyQueueAssign(sel);
      if Owned(s) {
        GuardsSilent(s);
        RescheduleOwned(s);
      }
      Guard(sel, s);
      requests := Publish(sel, self, s);
    }

    /** Write the changed slots and note whom to interrupt. */
    method Publish(sel: array<Option<nat>>, self: nat, ghost s: Sched) returns (requests: set<nat>)
      requires Valid() && s == View() && self < TK_MAX_CORE && sel.Length == TK_MAX_CORE && sel[..] == Guarded(s, Selected(s))
      modifies this`pub
      ensures Valid() && View() == s.(pub := pub) && pub == Published(s)
      ensures requests == set c {:trigger pub[c]} | 0 <= c < TK_MAX_CORE && c != self && pub[c] != s.pub[c]
    {
      requests := {};
      assert sel[0] == sel[..][0] && sel[1] == sel[..][1];
      if online.Has(0) && pub[0] != sel[0] {
        pub := pub[0 := sel[0]];
        if self != 0 { requests := requests + {0}; }
      }
      if online.Has(1) && pub[1] != sel[1] {
        pub := pub[1 := sel[1]];
        if self != 1 { requests := requests + {1}; }
      }
      assert pub == [pub[0], pub[1]];
    }

    /** The three guards before the publication. */
    method Guard(sel: array<Option<nat>>, ghost s: Sched)
      requires Valid() && s == View() && sel.Length == TK_MAX_CORE && sel[..] == Selected(s)
      modifies sel, this`dupPublish, this`badAssign
      ensures View() == s && sel[..] == Guarded(s, Selected(s))
      ensures Guarded(s, Selected(s)) == Selected(s) && Owned(s) ==> dupPublish == old(dupPublish) && badAssign == old(badAssign)
    {
      ghost var x := Selected(s);
      if Owned(s) { SilentSteps(s); }
      assert sel[..] == [sel[0], sel[1]];
      if sel[0].Some? && pub[1] == sel[0] && sel[1] != sel[0] { dupPublish := dupPublish + 1; sel[0] := None; }
      assert sel[..] == NotElsewhere(s, x, 0);
      if sel[1].Some? && pub[0] == sel[1] && sel[0] != sel[1] { dupPublish := dupPublish + 1; sel[1] := None; }
      assert sel[..] == NotElsewhere(s, NotElsewhere(s, x, 0), 1);
      if sel[1].Some? && sel[1] == sel[0] { dupPublish := dupPublish + 1; sel[1] := None; }
      assert sel[..] == NotTwice(NotElsewhere(s, NotElsewhere(s, x, 0), 1));
      if sel[0].Some? && !(if sel[0].value in assprc then assprc[sel[0].value] else NO_CORE).Has(0) { badAssign := badAssign + 1; sel[0] := None; }
      assert sel[..] == NotForbidden(s, NotTwice(NotElsewhere(s, NotElsewhere(s, x, 0), 1)), 0);
      if sel[1].Some? && !(if sel[1].value in assprc then assprc[sel[1].value] else NO_CORE).Has(1) { badAssign := badAssign + 1; sel[1] := None; }
      assert sel[..] == Guarded(s, x);
    }
  }

  /** Candidates still standing are the chosen ones, at their own index. */
  ghost predicate Left(left: seq<Option<nat>>, chosen: seq<nat>) {
    |left| == TK_MAX_CORE && forall i :: 0 <= i < |left| && left[i].Some? ==> i < |chosen| && left[i].value == chosen[i]
  }

  lemma SilentSteps(s: Sched)
    requires Owned(s)
    ensures var x := Selected(s);
      && NotElsewhere(s, x, 0) == x && NotElsewhere(s, x, 1) == x && NotTwice(x) == x
      && NotForbidden(s, x, 0) == x && NotForbidden(s, x, 1) == x
      && (x[0].Some? ==> s.pub[1] != x[0] && x[1] != x[0] && Affinity(s, x[0].value).Has(0))
      && (x[1].Some? ==> s.pub[0] != x[1] && Affinity(s, x[1].value).Has(1))
  {
    SelectedSeats(s);
    var x := Selected(s);
    if x[0].Some? { MaskRespectsHolder(s, x[0].value, 0); }
    if x[1].Some? { MaskRespectsHolder(s, x[1].value, 1); }
  }

  lemma {:induction false} FilterConcat(a: seq<nat>, b: seq<nat>, k: set<nat>, locked: bool)
    ensures Filter(a + b, k, locked) == Filter(a, k, locked) + Filter(b, k, locked)
  {
    if a == [] {
      assert a + b == b;
    } else {
      assert (a + b)[1..] == a[1..] + b;
      FilterConcat(a[1..], b, k, locked);
    }
  }

  lemma PickFull(s: Sched, l: seq<nat>, chosen: seq<nat>)
    requires Sized(s) && |chosen| == TK_MAX_CORE
    ensures Pick(s, l, chosen) == chosen
  {
  }

  lemma {:induction false} PickConcat(s: Sched, a: seq<nat>, b: seq<nat>, chosen: seq<nat>)
    requires Sized(s) && |chosen| <= TK_MAX_CORE
    ensures Pick(s, a + b, chosen) == Pick(s, b, Pick(s, a, chosen))
    decreases a
  {
    if a == [] {
      assert a + b == b;
    } else if |chosen| < TK_MAX_CORE {
      assert (a + b)[1..] == a[1..] + b;
      PickConcat(s, a[1..], b, if a[0] !in chosen && Feasible(s, chosen, a[0]) then chosen + [a[0]] else chosen);
    }
  }
}
