/** Which ready tasks the two processors get (kernel/tkernel/ready_queue_smp.c), as values:
    the masks, the greedy choice, the placement, and why the choice is the best one. */
module Matcher {
  import opened Options
  import opened CoreMasks

  /** What a processor is running: nothing (between two contexts), its idle context, or a task. */
  datatype Occupant = Nobody | Idle | Task(t: nat)

  /** The scheduler's inputs. ctx and pub are knl_ctxtsk and knl_schedtsk; masked marks the
      processors whose current task called tk_dis_dsp. */
  datatype Sched = Sched(
    ctx: seq<Occupant>, pub: seq<Option<nat>>, online: Mask, masked: Mask,
    queue: seq<seq<nat>>, klocked: set<nat>, assprc: map<nat, Mask>)

  predicate Sized(s: Sched) {
    |s.ctx| == TK_MAX_CORE && |s.pub| == TK_MAX_CORE
  }

  function Affinity(s: Sched, t: nat): Mask {
    if t in s.assprc then s.assprc[t] else NO_CORE
  }

  /** Processors task t may be placed on now (knl_task_core_mask). */
  function MaskOf(s: Sched, t: nat): Mask
    requires Sized(s)
  {
    var enabled := ALL_CORES.And(s.online);
    if s.ctx[0] == Task(t) then Only(0).And(enabled)
    else if s.ctx[1] == Task(t) then Only(1).And(enabled)
    else if s.pub[0] == Some(t) then Only(0).And(enabled)
    else if s.pub[1] == Some(t) then Only(1).And(enabled)
    else Affinity(s, t).And(enabled.Without(s.masked)).And(ALL_CORES)
  }

  // ----- The order of the scan: object-lock holders first, then priority, then FIFO

  function Flat(q: seq<seq<nat>>): seq<nat> {
    if q == [] then [] else q[0] + Flat(q[1..])
  }

  function Filter(l: seq<nat>, k: set<nat>, locked: bool): seq<nat> {
    if l == [] then []
    else if (l[0] in k) == locked then [l[0]] + Filter(l[1..], k, locked)
    else Filter(l[1..], k, locked)
  }

  function Order(s: Sched): seq<nat> {
    Filter(Flat(s.queue), s.klocked, true) + Filter(Flat(s.queue), s.klocked, false)
  }

  /** Position of t in the scan; smaller is more urgent. */
  function Rank(l: seq<nat>, t: nat): (r: nat)
    ensures r <= |l|
    ensures r < |l| <==> t in l
    ensures r < |l| ==> l[r] == t
    ensures forall i :: 0 <= i < r ==> l[i] != t
  {
    if l == [] || l[0] == t then 0 else 1 + Rank(l[1..], t)
  }

  // ----- Choosing

  /** Hall's condition for two processors (knl_candidate_feasible). */
  predicate Feasible(s: Sched, chosen: seq<nat>, t: nat)
    requires Sized(s) && |chosen| < TK_MAX_CORE
  {
    && MaskOf(s, t) != NO_CORE
    && (chosen == [] || MaskOf(s, chosen[0]).Or(MaskOf(s, t)).Count() >= 2)
  }

  /** Continue the scan over l with the tasks chosen so far. */
  function Pick(s: Sched, l: seq<nat>, chosen: seq<nat>): (p: seq<nat>)
    requires Sized(s) && |chosen| <= TK_MAX_CORE
    ensures |p| <= TK_MAX_CORE
    decreases l
  {
    if l == [] || |chosen| == TK_MAX_CORE then chosen
    else if l[0] !in chosen && Feasible(s, chosen, l[0]) then Pick(s, l[1..], chosen + [l[0]])
    else Pick(s, l[1..], chosen)
  }

  function Chosen(s: Sched): seq<nat>
    requires Sized(s)
  {
    Pick(s, Order(s), [])
  }

  // ----- Placing

  /** Processors for one task: the one it runs on if that is allowed, else the first allowed. */
  function Seat(s: Sched, t: nat): nat
    requires Sized(s)
  {
    var m := MaskOf(s, t);
    if m.Has(0) && s.ctx[0] == Task(t) then 0
    else if m.Has(1) && s.ctx[1] == Task(t) then 1
    else if m.Has(0) then 0 else 1
  }

  function Place(c: nat, t: nat, other: Option<nat>): seq<Option<nat>> {
    if c == 0 then [Some(t), other] else [other, Some(t)]
  }

  /** The placement knl_assign_cores arrives at: a pinned task first, then the rest around it. */
  function Assign(s: Sched, chosen: seq<nat>): (out: seq<Option<nat>>)
    requires Sized(s) && |chosen| <= TK_MAX_CORE
    ensures |out| == TK_MAX_CORE
  {
    if |chosen| == 0 then [None, None]
    else if |chosen| == 1 then Place(Seat(s, chosen[0]), chosen[0], None)
    else
      var a, b := chosen[0], chosen[1];
      if MaskOf(s, a).Count() == 1 then Place(if MaskOf(s, a).Has(0) then 0 else 1, a, Some(b))
      else if MaskOf(s, b).Count() == 1 then Place(if MaskOf(s, b).Has(0) then 0 else 1, b, Some(a))
      else if s.ctx[1] == Task(a) then [Some(b), Some(a)]
      else if s.ctx[0] == Task(b) then [Some(b), Some(a)]
      else [Some(a), Some(b)]
  }

  // ----- What a choice may be

  /** A set of at most two tasks that can run at the same time, each on an allowed processor. */
  ghost predicate Placeable(s: Sched, ts: seq<nat>)
    requires Sized(s)
  {
    && |ts| <= TK_MAX_CORE
    && (forall i :: 0 <= i < |ts| ==> MaskOf(s, ts[i]) != NO_CORE)
    && (|ts| == 2 ==> ts[0] != ts[1])
    && (|ts| == 2 ==> (MaskOf(s, ts[0]).Has(0) && MaskOf(s, ts[1]).Has(1)) || (MaskOf(s, ts[0]).Has(1) && MaskOf(s, ts[1]).Has(0)))
  }

  /** out puts exactly the tasks of ts on processors, each once and on one its mask allows. */
  ghost predicate Seats(s: Sched, ts: seq<nat>, out: seq<Option<nat>>)
    requires Sized(s)
  {
    && |out| == TK_MAX_CORE
    && (forall c: nat :: c < |out| && out[c].Some? ==> out[c].value in ts && MaskOf(s, out[c].value).Has(c))
    && (forall t :: t in ts ==> Some(t) in out)
    && (out[0].Some? ==> out[0] != out[1])
  }

  lemma PlaceableIffHall(s: Sched, a: nat, b: nat)
    requires Sized(s) && a != b && MaskOf(s, a) != NO_CORE
    ensures Feasible(s, [a], b) <==> Placeable(s, [a, b])
  {
  }

  /** Every placement of tasks on distinct allowed processors is a placeable set, and back. */
  lemma PlaceableIffSeats(s: Sched, ts: seq<nat>)
    requires Sized(s) && (forall i, j :: 0 <= i < j < |ts| ==> ts[i] != ts[j])
    ensures Placeable(s, ts) <==> exists out :: Seats(s, ts, out)
  {
    if Placeable(s, ts) {
      if |ts| == 0 {
        assert Seats(s, ts, [None, None]);
      } else if |ts| == 1 {
        var out := if MaskOf(s, ts[0]).Has(0) then [Some(ts[0]), None] else [None, Some(ts[0])];
        assert Seats(s, ts, out);
      } else {
        var out := if MaskOf(s, ts[0]).Has(0) && MaskOf(s, ts[1]).Has(1) then [Some(ts[0]), Some(ts[1])] else [Some(ts[1]), Some(ts[0])];
        assert ts == [ts[0], ts[1]];
        assert Seats(s, ts, out);
      }
    }
    if out :| Seats(s, ts, out) {
      SeatsPlaceable(s, ts, out);
    }
  }

  lemma TwoSeats(x: Option<nat>, y: Option<nat>, z: Option<nat>, out: seq<Option<nat>>)
    requires |out| == 2 && x in out && y in out && z in out
    ensures x == y || y == z || x == z
  {
  }

  lemma SeatsPlaceable(s: Sched, ts: seq<nat>, out: seq<Option<nat>>)
    requires Sized(s) && (forall i, j :: 0 <= i < j < |ts| ==> ts[i] != ts[j]) && Seats(s, ts, out)
    ensures Placeable(s, ts)
  {
    forall i | 0 <= i < |ts| ensures Some(ts[i]) in out { assert ts[i] in ts; }
    if |ts| > 2 { TwoSeats(Some(ts[0]), Some(ts[1]), Some(ts[2]), out); }
  }

  // ----- The placement is right

  lemma AssignSeats(s: Sched, chosen: seq<nat>)
    requires Sized(s) && Placeable(s, chosen)
    ensures Seats(s, chosen, Assign(s, chosen))
  {
    if |chosen| == 2 {
      assert chosen == [chosen[0], chosen[1]];
    }
  }

  // ----- The choice is the best one

  lemma {:induction false} PickPlaceable(s: Sched, l: seq<nat>, chosen: seq<nat>)
    requires Sized(s) && Placeable(s, chosen)
    ensures Placeable(s, Pick(s, l, chosen)) && chosen <= Pick(s, l, chosen)
    ensures forall t :: t in Pick(s, l, chosen) ==> t in chosen || t in l
    decreases l
  {
    if l != [] && |chosen| < TK_MAX_CORE {
      if l[0] !in chosen && Feasible(s, chosen, l[0]) {
        if chosen != [] { PlaceableIffHall(s, chosen[0], l[0]); assert chosen == [chosen[0]]; }
        assert Placeable(s, chosen + [l[0]]);
        PickPlaceable(s, l[1..], chosen + [l[0]]);
      } else {
        PickPlaceable(s, l[1..], chosen);
      }
    }
  }

  /** The first task chosen is the first one with an allowed processor. */
  lemma {:induction false} PickFirst(s: Sched, l: seq<nat>)
    requires Sized(s)
    ensures var p := Pick(s, l, []);
      && (p == [] <==> forall i :: 0 <= i < |l| ==> MaskOf(s, l[i]) == NO_CORE)
      && (p != [] ==> p[0] in l && MaskOf(s, p[0]) != NO_CORE)
      && (p != [] ==> forall i :: 0 <= i < Rank(l, p[0]) ==> MaskOf(s, l[i]) == NO_CORE)
      && (p != [] ==> p == Pick(s, l[Rank(l, p[0]) + 1..], [p[0]]))
  {
    if l != [] {
      if MaskOf(s, l[0]) != NO_CORE {
        assert Pick(s, l, []) == Pick(s, l[1..], [] + [l[0]]);
        assert [] + [l[0]] == [l[0]];
        PickExtends(s, l[1..], [l[0]]);
      } else {
        PickFirst(s, l[1..]);
        var p := Pick(s, l, []);
        assert p == Pick(s, l[1..], []);
        if p != [] {
          var r := Rank(l[1..], p[0]);
          assert p[0] != l[0] && Rank(l, p[0]) == 1 + r;
          assert l[1..][r + 1..] == l[r + 2..];
          assert forall i :: 0 <= i < |l| ==> (i == 0 || l[i] == l[1..][i - 1]);
        } else {
          assert forall i :: 0 <= i < |l| ==> (i == 0 || l[i] == l[1..][i - 1]);
        }
      }
    }
  }

  lemma {:induction false} PickExtends(s: Sched, l: seq<nat>, chosen: seq<nat>)
    requires Sized(s) && |chosen| <= TK_MAX_CORE
    ensures chosen <= Pick(s, l, chosen) && |Pick(s, l, chosen)| <= TK_MAX_CORE
    decreases l
  {
    if l != [] && |chosen| < TK_MAX_CORE {
      if l[0] !in chosen && Feasible(s, chosen, l[0]) { PickExtends(s, l[1..], chosen + [l[0]]); }
      else { PickExtends(s, l[1..], chosen); }
    }
  }

  /** The second task chosen is the first one after that can run beside the first. */
  lemma {:induction false} PickSecond(s: Sched, l: seq<nat>, a: nat)
    requires Sized(s)
    ensures var p := Pick(s, l, [a]);
      && (|p| == 1 <==> forall i :: 0 <= i < |l| ==> l[i] == a || !Feasible(s, [a], l[i]))
      && (|p| == 2 ==> p == [a, p[1]] && p[1] in l && p[1] != a && Feasible(s, [a], p[1]))
      && (|p| == 2 ==> forall i :: 0 <= i < Rank(l, p[1]) ==> l[i] == a || !Feasible(s, [a], l[i]))
      && (|p| == 1 || |p| == 2)
  {
    if l != [] {
      assert forall i :: 0 <= i < |l| ==> (i == 0 || l[i] == l[1..][i - 1]);
      if l[0] != a && Feasible(s, [a], l[0]) {
        assert Pick(s, l, [a]) == Pick(s, l[1..], [a] + [l[0]]) == [a, l[0]];
      } else {
        PickSecond(s, l[1..], a);
        var p := Pick(s, l, [a]);
        assert p == Pick(s, l[1..], [a]);
        if |p| == 2 { assert p[1] != l[0] && Rank(l, p[1]) == 1 + Rank(l[1..], p[1]); }
      }
    }
  }

  lemma RankShift(l: seq<nat>, k: nat, t: nat)
    requires k <= |l| && t !in l[..k]
    ensures Rank(l, t) == k + Rank(l[k..], t)
  {
    var r, r' := Rank(l, t), Rank(l[k..], t);
    assert r >= k;
    if r < |l| { assert l[k..][r - k] == t; }
    if r' < |l| - k { assert l[k + r'] == t; }
  }

  /** Nothing ranked before the second choice can share the processors with anything else there. */
  lemma RejectedTogether(s: Sched, l: seq<nat>, t: nat)
    requires Sized(s) && t in l && MaskOf(s, t) != NO_CORE
    requires var p := Pick(s, l, []); p != [] && t !in p && (|p| == 2 ==> Rank(l, t) < Rank(l, p[1]))
    ensures MaskOf(s, t) == MaskOf(s, Pick(s, l, [])[0]) && MaskOf(s, t).Count() == 1
    ensures Rank(l, Pick(s, l, [])[0]) < Rank(l, t)
  {
    PickFirst(s, l);
    var p := Pick(s, l, []);
    var a := p[0];
    var k := Rank(l, a) + 1;
    assert Rank(l, t) >= k;
    PickSecond(s, l[k..], a);
    var i := Rank(l, t) - k;
    assert l[k..][i] == t;
    if |p| == 2 {
      assert p[1] !in l[..k];
      RankShift(l, k, p[1]);
    }
    assert !Feasible(s, [a], t);
  }

  /** For every placeable set ts of ready tasks, listed by rank: the scheduler chose at least as
      many tasks, and its k-th choice ranks no later than the k-th of ts. */
  lemma ChoiceDominates(s: Sched, l: seq<nat>, ts: seq<nat>)
    requires Sized(s) && Placeable(s, ts) && (forall i :: 0 <= i < |ts| ==> ts[i] in l)
    requires |ts| == 2 ==> Rank(l, ts[0]) < Rank(l, ts[1])
    ensures |ts| <= |Pick(s, l, [])|
    ensures forall k :: 0 <= k < |ts| ==> Rank(l, Pick(s, l, [])[k]) <= Rank(l, ts[k])
  {
    var p := Pick(s, l, []);
    if |ts| > 0 { FirstDominates(s, l, ts[0]); }
    if |ts| == 2 { SecondDominates(s, l, ts[0], ts[1]); }
    forall k | 0 <= k < |ts| ensures k < |p| && Rank(l, p[k]) <= Rank(l, ts[k]) {
      assert k == 0 || k == 1;
    }
  }

  lemma FirstDominates(s: Sched, l: seq<nat>, t: nat)
    requires Sized(s) && t in l && MaskOf(s, t) != NO_CORE
    ensures Pick(s, l, []) != [] && Rank(l, Pick(s, l, [])[0]) <= Rank(l, t)
  {
    PickFirst(s, l);
    assert l[Rank(l, t)] == t;
  }

  lemma SecondDominates(s: Sched, l: seq<nat>, t: nat, u: nat)
    requires Sized(s) && t in l && u in l && Placeable(s, [t, u]) && Rank(l, t) < Rank(l, u)
    ensures |Pick(s, l, [])| == 2 && Rank(l, Pick(s, l, [])[1]) <= Rank(l, u)
  {
    assert MaskOf(s, [t, u][0]) != NO_CORE && MaskOf(s, [t, u][1]) != NO_CORE;
    FirstDominates(s, l, t);
    var p := Pick(s, l, []);
    if |p| == 1 || Rank(l, u) < Rank(l, p[1]) {
      SameSeat(s, l, t);
      SameSeat(s, l, u);
    }
  }

  /** Every ready task ranked before the second choice competes for the one seat of the first. */
  lemma SameSeat(s: Sched, l: seq<nat>, t: nat)
    requires Sized(s) && t in l && MaskOf(s, t) != NO_CORE
    requires var p := Pick(s, l, []); |p| == 1 || (|p| == 2 && Rank(l, t) < Rank(l, p[1]))
    ensures MaskOf(s, t) == MaskOf(s, Pick(s, l, [])[0])
    ensures t != Pick(s, l, [])[0] ==> MaskOf(s, t).Count() == 1
  {
    var p := Pick(s, l, []);
    if t != p[0] {
      assert t !in p;
      RejectedTogether(s, l, t);
    }
  }

  /** A ready task that was not chosen has no allowed processor that is left idle or given to
      a task ranked after it. */
  lemma NoneOvertaken(s: Sched, t: nat, c: nat)
    requires Sized(s) && t in Order(s) && t !in Chosen(s) && c < TK_MAX_CORE && MaskOf(s, t).Has(c)
    ensures var out := Assign(s, Chosen(s)); out[c].Some? && Rank(Order(s), out[c].value) < Rank(Order(s), t)
  {
    var l, p := Order(s), Chosen(s);
    PickPlaceable(s, l, []);
    AssignSeats(s, p);
    var out := Assign(s, p);
    ChoiceDominates(s, l, [t]);
    assert p[0] in p && Some(p[0]) in out;
    if |p| == 2 && Rank(l, p[1]) <= Rank(l, t) {
      assert p[1] in p && Some(p[1]) in out && p == [p[0], p[1]];
      ChoiceOrdered(s, l);
      assert out[c].Some?;
      assert Rank(l, p[1]) != Rank(l, t);
    } else {
      RejectedTogether(s, l, t);
      assert MaskOf(s, p[0]) == MaskOf(s, t);
      assert out[c] == Some(p[0]);
    }
  }

  /** The tasks are chosen in rank order. */
  lemma ChoiceOrdered(s: Sched, l: seq<nat>)
    requires Sized(s)
    ensures var p := Pick(s, l, []); |p| == 2 ==> p[0] != p[1] && Rank(l, p[0]) < Rank(l, p[1]) < |l|
  {
    PickFirst(s, l);
    PickPlaceable(s, l, []);
    var p := Pick(s, l, []);
    if |p| == 2 {
      assert p[1] in p;
      assert l[Rank(l, p[1])] == p[1];
    }
  }
}
