/** The install of dispatch.S as the two instructions it is: load the published task, then store
    it as current. Between them the other processor may publish again. */
module SplitInstall {
  import opened Options
  import opened CoreMasks
  import opened Matcher
  import opened Scheduler
  import opened Ownership

  /** latch[c] is the register of processor c between its load and its store. */
  datatype Split = Split(s: Sched, latch: seq<Option<Occupant>>)

  predicate WellSized(x: Split) {
    Sized(x.s) && |x.latch| == TK_MAX_CORE
  }

  datatype Move = Reschedules(queue: seq<seq<nat>>, klocked: set<nat>) | Saved(c: nat) | Load(c: nat) | Store(c: nat)

  /** The state a reschedule finds: the ready queue and the lock holders may have changed. */
  function Ready(s: Sched, q: seq<seq<nat>>, k: set<nat>): Sched {
    s.(queue := q, klocked := k)
  }

  function Do(x: Split, k: Move): (r: Split)
    requires WellSized(x)
    ensures WellSized(r)
  {
    match k
    case Reschedules(q, k) => x.(s := Reschedule(Ready(x.s, q, k)))
    case Saved(c) => if c < TK_MAX_CORE && x.latch[c].None? then x.(s := x.s.(ctx := x.s.ctx[c := Nobody])) else x
    case Load(c) => if c < TK_MAX_CORE && x.s.ctx[c] == Nobody then x.(latch := x.latch[c := Some(Next(x.s, c))]) else x
    case Store(c) =>
      if c < TK_MAX_CORE && x.latch[c].Some? then Split(x.s.(ctx := x.s.ctx[c := x.latch[c].value]), x.latch[c := None]) else x
  }

  function DoAll(x: Split, ks: seq<Move>): (r: Split)
    requires WellSized(x)
    ensures WellSized(r)
    decreases ks
  {
    if ks == [] then x else DoAll(Do(x, ks[0]), ks[1..])
  }

  predicate Grasps(x: Split, t: nat, c: nat)
    requires WellSized(x)
  {
    Holds(x.s, t, c) || (c < TK_MAX_CORE && x.latch[c] == Some(Task(t)))
  }

  /** Ownership that counts the registers too; a processor between load and store has no current task. */
  ghost predicate OwnedSplit(x: Split) {
    && WellSized(x) && Owned(x.s)
    && (forall t: nat :: !(Grasps(x, t, 0) && Grasps(x, t, 1)))
    && (forall t: nat, c: nat :: Grasps(x, t, c) ==> Affinity(x.s, t).Has(c))
    && (forall c: nat :: c < TK_MAX_CORE && x.latch[c].Some? ==> x.s.ctx[c] == Nobody)
  }

  /** What a dispatch loads it stores, whatever is published meanwhile. */
  lemma StoresWhatItLoaded(x: Split, c: nat, between: seq<Move>)
    requires WellSized(x) && c < TK_MAX_CORE && x.s.ctx[c] == Nobody
    requires forall i :: 0 <= i < |between| ==> between[i].Reschedules?
    ensures var y := Do(DoAll(Do(x, Load(c)), between), Store(c)); y.s.ctx[c] == Next(x.s, c) && y.latch[c].None?
  {
    LoadLatches(x, c);
    ReschedulesLeaveLatch(Do(x, Load(c)), between);
    StoreInstalls(DoAll(Do(x, Load(c)), between), c);
  }

  lemma LoadLatches(x: Split, c: nat)
    requires WellSized(x) && c < TK_MAX_CORE && x.s.ctx[c] == Nobody
    ensures Do(x, Load(c)).latch[c] == Some(Next(x.s, c))
  {
  }

  lemma StoreInstalls(x: Split, c: nat)
    requires WellSized(x) && c < TK_MAX_CORE && x.latch[c].Some?
    ensures Do(x, Store(c)).s.ctx[c] == x.latch[c].value && Do(x, Store(c)).latch[c].None?
  {
  }

  lemma {:induction false} ReschedulesLeaveLatch(x: Split, ks: seq<Move>)
    requires WellSized(x) && forall i :: 0 <= i < |ks| ==> ks[i].Reschedules?
    ensures DoAll(x, ks).latch == x.latch && DoAll(x, ks).s.ctx == x.s.ctx
    decreases ks
  {
    if ks != [] {
      RescheduleLeavesLatch(x, ks[0]);
      ReschedulesLeaveLatch(Do(x, ks[0]), ks[1..]);
    }
  }

  lemma RescheduleLeavesLatch(x: Split, k: Move)
    requires WellSized(x) && k.Reschedules?
    ensures Do(x, k).latch == x.latch && Do(x, k).s.ctx == x.s.ctx
  {
  }

  /** The reschedule gives no processor a task that the other has loaded but not yet stored. */
  ghost predicate NoStaleGrant(x: Split, q: seq<seq<nat>>, k: set<nat>)
    requires WellSized(x)
  {
    var sel := Selected(Ready(x.s, q, k));
    forall c: nat :: c < TK_MAX_CORE && sel[c].Some? ==> x.latch[1 - c] != Some(Task(sel[c].value))
  }

  lemma QueueOwned(s: Sched, q: seq<seq<nat>>, k: set<nat>)
    requires Owned(s)
    ensures Owned(Ready(s, q, k))
  {
    assert forall t: nat, c: nat :: Holds(Ready(s, q, k), t, c) <==> Holds(s, t, c);
  }

  /** A reschedule keeps split ownership if and only if it makes no stale grant. */
  lemma RescheduleSplit(x: Split, q: seq<seq<nat>>, k: set<nat>)
    requires OwnedSplit(x)
    ensures OwnedSplit(Do(x, Reschedules(q, k))) <==> NoStaleGrant(x, q, k)
  {
    var s := Ready(x.s, q, k);
    var y := Do(x, Reschedules(q, k));
    QueueOwned(x.s, q, k);
    GuardsSilent(s);
    RescheduleOwned(s);
    SelectedSeats(s);
    var sel := Selected(s);
    forall c: nat | c < TK_MAX_CORE && sel[c].Some? ensures s.online.Has(c) && y.s.pub[c] == sel[c] && Grasps(y, sel[c].value, c) {
      MaskRespectsHolder(s, sel[c].value, c);
    }
    if OwnedSplit(y) {
      forall c: nat | c < TK_MAX_CORE && sel[c].Some? ensures x.latch[1 - c] != Some(Task(sel[c].value)) {
        assert !Grasps(y, sel[c].value, 1 - c);
      }
    }
    if NoStaleGrant(x, q, k) {
      forall t: nat, c: nat | Grasps(y, t, c) ensures Affinity(y.s, t).Has(c) && !Grasps(y, t, 1 - c) {
        RescheduleSplitAt(x, q, k, t, c);
      }
    }
  }

  lemma RescheduleSplitAt(x: Split, q: seq<seq<nat>>, k: set<nat>, t: nat, c: nat)
    requires OwnedSplit(x) && NoStaleGrant(x, q, k) && Grasps(Do(x, Reschedules(q, k)), t, c)
    requires Owned(Do(x, Reschedules(q, k)).s) && Owned(Ready(x.s, q, k)) && Published(Ready(x.s, q, k)) == Do(x, Reschedules(q, k)).s.pub
    requires Guarded(Ready(x.s, q, k), Selected(Ready(x.s, q, k))) == Selected(Ready(x.s, q, k))
    ensures var y := Do(x, Reschedules(q, k)); Affinity(y.s, t).Has(c) && !Grasps(y, t, 1 - c)
  {
    var y := Do(x, Reschedules(q, k));
    if Holds(y.s, t, c) {
      assert Affinity(y.s, t).Has(c) && !Holds(y.s, t, 1 - c);
      if y.latch[1 - c] == Some(Task(t)) {
        assert Grasps(x, t, 1 - c);
      }
    } else {
      assert Grasps(x, t, c) && !Grasps(x, t, 1 - c);
    }
  }

  // ----- When no ready queue can cause a stale grant

  /** Processors a task that no slot holds may be placed on. */
  function FreeMask(s: Sched, t: nat): Mask {
    Affinity(s, t).And(s.online).Without(s.masked)
  }

  /** Some ready queue makes the reschedule place t, which no slot holds, on processor c: it may run
      there, and, the placement beginning with processor 0, for 1 there is either no choice or
      another task to take 0. */
  ghost predicate CanBePlaced(s: Sched, t: nat, c: nat)
    requires Sized(s)
  {
    && FreeMask(s, t).Has(c)
    && (c == 0 || !FreeMask(s, t).Has(0) || exists u: nat :: u != t && u in s.assprc && MaskOf(s, u).Has(0))
  }

  /** Every loaded task is still in its processor's slot, or cannot be placed on the other one: seen
      from latches, slots, affinities, online and masked processors alone. */
  ghost predicate Steady(x: Split)
    requires WellSized(x)
  {
    forall c: nat, t: nat :: c < TK_MAX_CORE && x.latch[c] == Some(Task(t)) ==> x.s.pub[c] == Some(t) || !CanBePlaced(x.s, t, 1 - c)
  }

  /** A task loaded by c and no longer in its slot is held by no slot. */
  lemma StaleMask(x: Split, q: seq<seq<nat>>, k: set<nat>, c: nat, t: nat)
    requires OwnedSplit(x) && c < TK_MAX_CORE && x.latch[c] == Some(Task(t)) && x.s.pub[c] != Some(t)
    ensures MaskOf(Ready(x.s, q, k), t) == FreeMask(x.s, t)
  {
    assert Grasps(x, t, c) && !Grasps(x, t, 1 - c) && x.s.ctx[c] == Nobody;
    assert !Holds(x.s, t, 1 - c);
  }

  lemma MaskSame(s: Sched, q: seq<seq<nat>>, k: set<nat>)
    requires Sized(s)
    ensures forall t: nat :: MaskOf(Ready(s, q, k), t) == MaskOf(s, t)
  {
  }

  /** A steady state stays owned, whatever becomes ready. */
  lemma SteadyIsSafe(x: Split, q: seq<seq<nat>>, k: set<nat>)
    requires OwnedSplit(x) && Steady(x)
    ensures NoStaleGrant(x, q, k)
  {
    var s := Ready(x.s, q, k);
    SelectedSeats(s);
    QueueOwned(x.s, q, k);
    var sel := Selected(s);
    forall c: nat | c < TK_MAX_CORE && sel[c].Some? ensures x.latch[1 - c] != Some(Task(sel[c].value)) {
      var t := sel[c].value;
      MaskRespectsHolder(s, t, c);
      assert x.s.pub[1 - c] == Some(t) <==> s.pub[1 - c] == Some(t);
      if x.latch[1 - c] == Some(Task(t)) && x.s.pub[1 - c] != Some(t) {
        StaleMask(x, q, k, 1 - c, t);
        SeatedAtOne(s, t, c);
        MaskSame(x.s, q, k);
      }
    }
  }

  /** A task placed on 1 that might have had 0, and runs nowhere, found another task on 0. */
  lemma SeatedAtOne(s: Sched, t: nat, c: nat)
    requires Owned(s) && c < TK_MAX_CORE && Selected(s)[c] == Some(t) && s.ctx[0] != Task(t) && s.ctx[1] != Task(t)
    ensures MaskOf(s, t).Has(c)
    ensures c == 1 && MaskOf(s, t).Has(0) ==> exists u: nat :: u != t && u in s.assprc && MaskOf(s, u).Has(0)
  {
    SelectedSeats(s);
    var p, sel := Chosen(s), Selected(s);
    if c == 1 && MaskOf(s, t).Has(0) {
      if |p| == 1 { assert false; }
      assert sel[0].Some?;
      var u := sel[0].value;
      assert MaskOf(s, u).Has(0) && u != t;
      KnownTask(s, u);
    }
  }

  /** Only tasks with a control block have a mask. */
  lemma KnownTask(s: Sched, u: nat)
    requires Owned(s) && MaskOf(s, u) != NO_CORE
    ensures u in s.assprc
  {
    assert Holds(s, u, 0) ==> Affinity(s, u).Has(0);
    assert Holds(s, u, 1) ==> Affinity(s, u).Has(1);
  }

  /** If a loaded task could be placed on the other processor, some ready queue does it. */
  lemma UnsteadyBreaks(x: Split, c: nat, t: nat) returns (q: seq<seq<nat>>)
    requires OwnedSplit(x) && c < TK_MAX_CORE && x.latch[1 - c] == Some(Task(t)) && x.s.pub[1 - c] != Some(t) && CanBePlaced(x.s, t, c)
    ensures !NoStaleGrant(x, q, {})
  {
    if c == 0 || !FreeMask(x.s, t).Has(0) {
      q := [[t]];
      var s := Ready(x.s, q, {});
      StaleMask(x, q, {}, 1 - c, t);
      OrderOne(s, t);
      ChosenOne(s, t);
      assert Selected(s)[c] == Some(t);
    } else {
      var u: nat :| u != t && u in x.s.assprc && MaskOf(x.s, u).Has(0);
      q := [[u], [t]];
      var s := Ready(x.s, q, {});
      StaleMask(x, q, {}, 1 - c, t);
      MaskSame(x.s, q, {});
      OrderTwo(s, u, t);
      ChosenTwo(s, u, t);
      assert MaskOf(s, t) == ALL_CORES;
      PlacedAtOne(s, u, t);
    }
  }

  lemma OrderOne(s: Sched, t: nat)
    requires s.queue == [[t]] && s.klocked == {}
    ensures Order(s) == [t]
  {
    assert [[t]][1..] == [] && Flat([[t]]) == [t] + Flat([]);
    assert [t][1..] == [] && Flat(s.queue) == [t];
    assert Filter([], {}, true) == [] && Filter([], {}, false) == [];
    assert Filter([t], {}, true) == [] && Filter([t], {}, false) == [t] + [];
  }

  lemma ChosenOne(s: Sched, t: nat)
    requires Sized(s) && Order(s) == [t] && MaskOf(s, t) != NO_CORE
    ensures Chosen(s) == [t]
  {
    assert [t][1..] == [] && [] + [t] == [t];
    assert Pick(s, [t], []) == Pick(s, [], [t]) == [t];
  }

  lemma OrderTwo(s: Sched, u: nat, t: nat)
    requires s.queue == [[u], [t]] && s.klocked == {}
    ensures Order(s) == [u, t]
  {
    assert [[t]][1..] == [] && Flat([[t]]) == [t] + Flat([]);
    assert [[u], [t]][1..] == [[t]] && Flat(s.queue) == [u] + [t] == [u, t];
    assert [u, t][1..] == [t] && [t][1..] == [];
    FilterOne(t, true);
    FilterOne(t, false);
    assert Filter([u, t], {}, true) == [] && Filter([u, t], {}, false) == [u] + [t] == [u, t];
  }

  lemma FilterOne(t: nat, locked: bool)
    ensures Filter([t], {}, locked) == if locked then [] else [t]
  {
    var l := [t];
    assert l[1..] == [];
    assert Filter(l[1..], {}, locked) == [];
    if !locked { assert Filter(l, {}, locked) == [t] + Filter(l[1..], {}, locked); }
  }

  lemma ChosenTwo(s: Sched, u: nat, t: nat)
    requires Sized(s) && Order(s) == [u, t] && u != t && MaskOf(s, u) != NO_CORE && MaskOf(s, t) != NO_CORE &&
        MaskOf(s, u).Or(MaskOf(s, t)).Count() >= 2
    ensures Chosen(s) == [u, t]
  {
    assert [u, t][1..] == [t] && [t][1..] == [];
    assert [] + [u] == [u] && [u] + [t] == [u, t];
    assert Feasible(s, [], u) && Feasible(s, [u], t);
    assert Pick(s, [t], [u]) == Pick(s, [], [u, t]) == [u, t];
  }

  lemma PlacedAtOne(s: Sched, u: nat, t: nat)
    requires Sized(s) && Chosen(s) == [u, t] && u != t && MaskOf(s, u).Has(0) && MaskOf(s, t) == ALL_CORES && s.ctx[0] != Task(t)
    ensures Selected(s)[1] == Some(t)
  {
  }

  /** The exact condition: the state is steady if and only if a reschedule keeps split ownership
      whatever tasks become ready. */
  lemma SteadyIffSafe(x: Split)
    requires OwnedSplit(x)
    ensures Steady(x) <==> forall q: seq<seq<nat>>, k: set<nat> :: OwnedSplit(Do(x, Reschedules(q, k)))
  {
    if Steady(x) {
      forall q: seq<seq<nat>>, k: set<nat> ensures OwnedSplit(Do(x, Reschedules(q, k))) {
        SteadyIsSafe(x, q, k);
        RescheduleSplit(x, q, k);
      }
    } else {
      var c: nat, t: nat :| c < TK_MAX_CORE && x.latch[c] == Some(Task(t)) && x.s.pub[c] != Some(t) && CanBePlaced(x.s, t, 1 - c);
      var q := UnsteadyBreaks(x, 1 - c, t);
      RescheduleSplit(x, q, {});
      assert !OwnedSplit(Do(x, Reschedules(q, {})));
    }
  }

  // ----- Over runs

  /** The steps of a dispatcher keep split ownership unconditionally. */
  lemma DispatchSplit(x: Split, k: Move)
    requires OwnedSplit(x) && !k.Reschedules?
    ensures OwnedSplit(Do(x, k))
  {
    var y := Do(x, k);
    forall t: nat, c: nat | Grasps(y, t, c) || Holds(y.s, t, c) ensures Grasps(x, t, c) {
    }
    assert forall t: nat :: Affinity(y.s, t) == Affinity(x.s, t);
  }

  /** Every reschedule of the run finds a steady state. */
  ghost predicate SteadyRun(x: Split, ks: seq<Move>)
    requires WellSized(x)
    decreases ks
  {
    ks == [] || ((ks[0].Reschedules? ==> Steady(x)) && SteadyRun(Do(x, ks[0]), ks[1..]))
  }

  lemma {:induction false} SteadyRunIsSafe(x: Split, ks: seq<Move>)
    requires OwnedSplit(x) && SteadyRun(x, ks)
    ensures OwnedSplit(DoAll(x, ks))
    decreases ks
  {
    if ks != [] {
      if ks[0].Reschedules? {
        SteadyIsSafe(x, ks[0].queue, ks[0].klocked);
        RescheduleSplit(x, ks[0].queue, ks[0].klocked);
      } else {
        DispatchSplit(x, ks[0]);
      }
      SteadyRunIsSafe(Do(x, ks[0]), ks[1..]);
    }
  }

  /** Every loaded task is still in its processor's slot. */
  ghost predicate LatchFresh(x: Split)
    requires WellSized(x)
  {
    forall c: nat, t: nat :: c < TK_MAX_CORE && x.latch[c] == Some(Task(t)) ==> x.s.pub[c] == Some(t)
  }

  /** No reschedule of the run changes a slot between its load and its store. */
  ghost predicate CalmRun(x: Split, ks: seq<Move>)
    requires WellSized(x)
    decreases ks
  {
    ks == [] ||
    (&& (ks[0].Reschedules? ==> forall c: nat :: c < TK_MAX_CORE && x.latch[c].Some? ==> Do(x, ks[0]).s.pub[c] == x.s.pub[c])
     && CalmRun(Do(x, ks[0]), ks[1..]))
  }

  /** A run in which no slot is republished between a load and its store keeps split ownership. */
  lemma {:induction false} FreshIsEnough(x: Split, ks: seq<Move>)
    requires OwnedSplit(x) && LatchFresh(x) && CalmRun(x, ks)
    ensures OwnedSplit(DoAll(x, ks)) && LatchFresh(DoAll(x, ks))
    decreases ks
  {
    if ks != [] {
      if ks[0].Reschedules? {
        SteadyIsSafe(x, ks[0].queue, ks[0].klocked);
        RescheduleSplit(x, ks[0].queue, ks[0].klocked);
      } else {
        DispatchSplit(x, ks[0]);
      }
      FreshIsEnough(Do(x, ks[0]), ks[1..]);
    }
  }

  // ----- A run that does make a stale grant

  /** Power-up with both processors online: task 7 may run on either, 8 only on 1, 9 only on 0. */
  function Power(): (x: Split)
    ensures WellSized(x)
  {
    Split(Sched([Nobody, Nobody], [None, None], ALL_CORES, NO_CORE, [], {}, map[7 := ALL_CORES, 8 := Only(1), 9 := Only(0)]), [None, None])
  }

  /** The state with these slots, latches and current tasks. */
  function With(q: seq<seq<nat>>, pub: seq<Option<nat>>, latch: seq<Option<Occupant>>, ctx: seq<Occupant>): Split {
    Split(Power().s.(queue := q, pub := pub, ctx := ctx), latch)
  }

  /** 9 and 7 are ready, then 7 alone: it is published to processor 1, which loads it. Two reschedules
      with 8 and 7 ready move 7 to processor 0, which installs it; then processor 1 stores it too. */
  function Race(): seq<Move> {
    [Reschedules([[9], [7]], {}), Reschedules([[7]], {}), Load(1), Reschedules([[8], [7]], {}),
     Reschedules([[8], [7]], {}), Load(0), Store(0), Store(1)]
  }

  function RaceStates(): seq<Split> {
    [ Power(),
      With([[9], [7]], [Some(9), Some(7)], [None, None], [Nobody, Nobody]),
      With([[7]], [None, Some(7)], [None, None], [Nobody, Nobody]),
      With([[7]], [None, Some(7)], [None, Some(Task(7))], [Nobody, Nobody]),
      With([[8], [7]], [None, Some(8)], [None, Some(Task(7))], [Nobody, Nobody]),
      With([[8], [7]], [Some(7), Some(8)], [None, Some(Task(7))], [Nobody, Nobody]),
      With([[8], [7]], [Some(7), Some(8)], [Some(Task(7)), Some(Task(7))], [Nobody, Nobody]),
      With([[8], [7]], [Some(7), Some(8)], [None, Some(Task(7))], [Task(7), Nobody]),
      With([[8], [7]], [Some(7), Some(8)], [None, None], [Task(7), Task(7)]) ]
  }

  lemma PublishTwo(s: Sched, u: nat, t: nat, pub: seq<Option<nat>>)
    requires Sized(s) && s.queue == [[u], [t]] && s.klocked == {} && u != t && s.online == ALL_CORES && s.ctx == [Nobody, Nobody]
    requires MaskOf(s, u) != NO_CORE && MaskOf(s, t) != NO_CORE && MaskOf(s, u).Or(MaskOf(s, t)).Count() >= 2
    requires pub == Assign(s, [u, t]) && Guarded(s, pub) == pub
    ensures Published(s) == pub
  {
    OrderTwo(s, u, t);
    ChosenTwo(s, u, t);
  }

  lemma FirstReschedule(s: Sched)
    requires s == Power().s.(queue := [[9], [7]])
    ensures Published(s) == [Some(9), Some(7)]
  {
    PublishTwo(s, 9, 7, [Some(9), Some(7)]);
  }

  /** 7 is pinned to processor 1 by its slot. */
  lemma SecondReschedule(s: Sched)
    requires s == Power().s.(queue := [[7]], pub := [Some(9), Some(7)])
    ensures Published(s) == [None, Some(7)]
  {
    OrderOne(s, 7);
    assert MaskOf(s, 7) == Only(1);
    ChosenOne(s, 7);
    assert Selected(s) == [None, Some(7)];
  }

  /** Still pinned there, 7 loses the processor to 8. */
  lemma ThirdReschedule(s: Sched)
    requires s == Power().s.(queue := [[8], [7]], pub := [None, Some(7)])
    ensures Published(s) == [None, Some(8)]
  {
    OrderTwo(s, 8, 7);
    assert MaskOf(s, 8) == Only(1) && MaskOf(s, 7) == Only(1);
    assert [8, 7][1..] == [7] && [7][1..] == [] && [] + [8] == [8];
    assert Pick(s, [7], [8]) == Pick(s, [7][1..], [8]) == [8];
    assert Pick(s, [8, 7], []) == Pick(s, [7], [8]) == [8];
    assert Selected(s) == [None, Some(8)];
  }

  /** No slot holds 7 any more, so it is placed on processor 0. */
  lemma FourthReschedule(s: Sched)
    requires s == Power().s.(queue := [[8], [7]], pub := [None, Some(8)])
    ensures Published(s) == [Some(7), Some(8)]
  {
    PublishTwo(s, 8, 7, [Some(7), Some(8)]);
  }

  /** What a reschedule makes of the race's k-th state. */
  lemma RaceReschedule(k: nat, s: Sched, pub: seq<Option<nat>>)
    requires k < |Race()| && Race()[k].Reschedules? && s == Ready(RaceStates()[k].s, Race()[k].queue, Race()[k].klocked)
    requires Sized(s) && Published(s) == pub
    ensures WellSized(RaceStates()[k]) && Do(RaceStates()[k], Race()[k]) == RaceStates()[k].(s := s.(pub := pub))
  {
  }

  lemma RaceFirst()
    ensures var x := RaceStates()[0]; WellSized(x) && Do(x, Race()[0]) == RaceStates()[1]
  {
    var s := Power().s.(queue := [[9], [7]]);
    FirstReschedule(s);
    RaceReschedule(0, s, [Some(9), Some(7)]);
  }

  lemma RaceSecond()
    ensures var x := RaceStates()[1]; WellSized(x) && Do(x, Race()[1]) == RaceStates()[2]
  {
    var s := Power().s.(queue := [[7]], pub := [Some(9), Some(7)]);
    SecondReschedule(s);
    RaceReschedule(1, s, [None, Some(7)]);
  }

  lemma RaceThird()
    ensures var x := RaceStates()[3]; WellSized(x) && Do(x, Race()[3]) == RaceStates()[4]
  {
    var s := Power().s.(queue := [[8], [7]], pub := [None, Some(7)]);
    ThirdReschedule(s);
    RaceReschedule(3, s, [None, Some(8)]);
  }

  lemma RaceFourth()
    ensures var x := RaceStates()[4]; WellSized(x) && Do(x, Race()[4]) == RaceStates()[5]
  {
    var s := Power().s.(queue := [[8], [7]], pub := [None, Some(8)]);
    FourthReschedule(s);
    RaceReschedule(4, s, [Some(7), Some(8)]);
  }

  lemma RaceStep(i: nat)
    requires i < |Race()|
    ensures var x := RaceStates()[i]; WellSized(x) && Do(x, Race()[i]) == RaceStates()[i + 1]
  {
    match i
    case 0 => RaceFirst();
    case 1 => RaceSecond();
    case 3 => RaceThird();
    case 4 => RaceFourth();
    case _ => RaceDispatches(i);
  }

  lemma RaceDispatches(i: nat)
    requires i in [2, 5, 6, 7]
    ensures var x := RaceStates()[i]; WellSized(x) && Do(x, Race()[i]) == RaceStates()[i + 1]
  {
    assert i == 2 || i == 5 || i == 6 || i == 7;
  }

  lemma {:induction false} RaceFrom(i: nat)
    requires i <= |Race()|
    ensures WellSized(RaceStates()[i]) && DoAll(RaceStates()[i], Race()[i..]) == RaceStates()[|Race()|]
    decreases |Race()| - i
  {
    if i < |Race()| {
      RaceStep(i);
      RaceFrom(i + 1);
      assert Race()[i..][0] == Race()[i] && Race()[i..][1..] == Race()[i + 1..];
    }
  }

  lemma PowerOwned()
    ensures OwnedSplit(Power())
  {
  }

  /** The install is not atomic, and this run from power-up puts one context on both processors. */
  lemma StaleGrantRuns()
    ensures OwnedSplit(Power()) && Power().s.ctx == [Nobody, Nobody] && Power().s.pub == [None, None]
    ensures DoAll(Power(), Race()).s.ctx == [Task(7), Task(7)]
  {
    RaceFrom(0);
    assert Race()[0..] == Race() && |Race()| == 8;
    PowerOwned();
  }
}
