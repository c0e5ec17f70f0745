/** What the priority equation means: transitive inheritance, deadlocks, and runs. */
module MutexTheory {
  import opened Options
  import opened Lists
  import opened MutexState
  import opened MutexSteps
  import opened MutexRounds
  import opened MutexWaves

  // ----- The equation is transitive inheritance

  /** Nobody runs below a task it keeps waiting, however long the chain; deadlocked or not. */
  lemma InheritsAlongChains(T: seq<Tcb>, M: seq<Mtx>, u: nat, t: nat)
    requires Inv(T, M) && u < |T| && t < |T| && Reaches(T, M, u, t)
    ensures T[t].pri <= T[u].pri
  {
    var S := set w: nat | w < |T| && T[w].pri <= T[u].pri;
    forall w: nat, o: nat | w in S && Blocks(T, M, w, o) ensures o in S {
      var m := T[w].status.m;
      assert TaskOk(T, M, WHOLE, w) && MutexOk(T, M, WHOLE, m);
      assert Effective(T, M, NoPledge, o, T[o].pri);
      assert m in T[o].held && w in M[m].queue;
    }
    assert Closed(T, M, S);
  }

  /** t's priority is exactly the highest of the base priorities and ceilings of the tasks
      that wait for it, directly or through others (itself included). */
  ghost predicate TransitiveMinimum(T: seq<Tcb>, M: seq<Mtx>, t: nat)
    requires t < |T|
  {
    && (forall u: nat, p: int :: u < |T| && Reaches(T, M, u, t) && OwnSource(T, M, NoPledge, u, p) ==> T[t].pri <= p)
    && (exists u: nat :: u < |T| && Reaches(T, M, u, t) && OwnSource(T, M, NoPledge, u, T[t].pri))
  }

  lemma OwnSourceBound(T: seq<Tcb>, M: seq<Mtx>, u: nat, p: int)
    requires Inv(T, M) && u < |T| && OwnSource(T, M, NoPledge, u, p)
    ensures T[u].pri <= p
  {
    assert Effective(T, M, NoPledge, u, T[u].pri);
  }

  /** No deadlocked task waits, in the end, for t. */
  ghost predicate FreeOfDeadlock(T: seq<Tcb>, M: seq<Mtx>, t: nat) {
    forall u: nat :: u < |T| && Reaches(T, M, u, t) ==> !OnCycle(T, M, u)
  }

  /** A deadlocked task waits, in the end, for deadlocked tasks only. */
  lemma DeadlockTraps(T: seq<Tcb>, M: seq<Mtx>, u: nat, t: nat)
    requires Wf(T, M, WHOLE) && u < |T| && Reaches(T, M, u, t) && OnCycle(T, M, u)
    ensures OnCycle(T, M, t)
  {
    DeadlockReturns(T, M, u, t);
    if t != u {
      var o := NextOn(T, M, t, u);
      StepOn(T, M, t, o, u);
      ReachesTrans(T, M, o, u, t);
    }
  }

  /** Whom a deadlocked task reaches, reaches it. */
  lemma DeadlockReturns(T: seq<Tcb>, M: seq<Mtx>, u: nat, t: nat)
    requires Wf(T, M, WHOLE) && u < |T| && Reaches(T, M, u, t) && OnCycle(T, M, u)
    ensures t < |T| && Reaches(T, M, t, u)
  {
    var back := set x: nat | x < |T| && Reaches(T, M, x, u);
    forall x: nat, y: nat | x in back && Blocks(T, M, x, y) ensures y in back {
      BackAgain(T, M, u, x, y);
    }
    assert Closed(T, M, back) && t in back;
  }

  /** The way to another task leads through the one waited for. */
  lemma StepOn(T: seq<Tcb>, M: seq<Mtx>, x: nat, y: nat, t: nat)
    requires Reaches(T, M, x, t) && x != t && Blocks(T, M, x, y)
    ensures Reaches(T, M, y, t)
  {
    forall S: set<nat> | y in S && Closed(T, M, S) ensures t in S {
      forall w: nat, o: nat | w in S + {x} && Blocks(T, M, w, o) ensures o in S + {x} {
        if w == x { BlocksOne(T, M, x, y, o); }
      }
      assert Closed(T, M, S + {x});
    }
  }

  lemma BackAgain(T: seq<Tcb>, M: seq<Mtx>, u: nat, x: nat, y: nat)
    requires Wf(T, M, WHOLE) && u < |T| && OnCycle(T, M, u) && Reaches(T, M, x, u) && Blocks(T, M, x, y)
    ensures y < |T| && Reaches(T, M, y, u)
  {
    assert TaskOk(T, M, WHOLE, x) && MutexOk(T, M, WHOLE, T[x].status.m);
    if x == u {
      var o: nat :| Blocks(T, M, u, o) && Reaches(T, M, o, u);
      BlocksOne(T, M, u, o, y);
    } else {
      StepOn(T, M, x, y, u);
    }
  }

  /** Who reaches another task, waits for somebody. */
  lemma NextOn(T: seq<Tcb>, M: seq<Mtx>, t: nat, u: nat) returns (o: nat)
    requires Reaches(T, M, t, u) && t != u
    ensures Blocks(T, M, t, o)
  {
    assert !Closed(T, M, {t});
    o :| Blocks(T, M, t, o);
  }

  /** For a task that is not deadlocked itself, the local equations, kept by local updates, are
      transitive inheritance. */
  lemma TransitiveInheritance(T: seq<Tcb>, M: seq<Mtx>, t: nat)
    requires Inv(T, M) && t < |T| && !OnCycle(T, M, t)
    ensures TransitiveMinimum(T, M, t)
  {
    forall u: nat | u < |T| && Reaches(T, M, u, t) ensures !OnCycle(T, M, u) {
      if OnCycle(T, M, u) { DeadlockTraps(T, M, u, t); }
    }
    BoundedBelow(T, M, t);
    var u := SourceOf(T, M, t, t, {});
  }

  lemma BoundedBelow(T: seq<Tcb>, M: seq<Mtx>, t: nat)
    requires Inv(T, M) && t < |T|
    ensures forall u: nat, p: int :: u < |T| && Reaches(T, M, u, t) && OwnSource(T, M, NoPledge, u, p) ==> T[t].pri <= p
  {
    forall u: nat, p: int | u < |T| && Reaches(T, M, u, t) && OwnSource(T, M, NoPledge, u, p) ensures T[t].pri <= p {
      InheritsAlongChains(T, M, u, t);
      OwnSourceBound(T, M, u, p);
    }
  }

  /** The task whose own priority x runs at. The visited tasks are all reached from x. */
  lemma SourceOf(T: seq<Tcb>, M: seq<Mtx>, t: nat, x: nat, visited: set<nat>) returns (u: nat)
    requires Inv(T, M) && FreeOfDeadlock(T, M, t) && t < |T| && x < |T| && T[x].pri == T[t].pri && Reaches(T, M, x, t)
    requires forall w :: w in visited ==> w < |T| && Reaches(T, M, x, w)
    requires x !in visited
    ensures u < |T| && Reaches(T, M, u, t) && OwnSource(T, M, NoPledge, u, T[t].pri)
    decreases (set w: nat {:trigger w in visited} | w < |T| && w !in visited)
  {
    assert Effective(T, M, NoPledge, x, T[x].pri);
    if OwnSource(T, M, NoPledge, x, T[x].pri) {
      u := x;
    } else {
      var m: nat, w: nat :| m in T[x].held && m < |M| && M[m].proto == Inherit && w in M[m].queue && w < |T| && T[x].pri == T[w].pri;
      assert TaskOk(T, M, WHOLE, x) && MutexOk(T, M, WHOLE, m);
      assert Blocks(T, M, w, x);
      StepReaches(T, M, w, x, t);
      forall y | y in visited + {x} ensures y < |T| && Reaches(T, M, w, y) {
        StepReaches(T, M, w, x, y);
      }
      assert w in visited + {x} ==> Reaches(T, M, x, w);
      assert Reaches(T, M, x, w) ==> OnCycle(T, M, w);
      ghost var rest := set y: nat {:trigger y in visited} | y < |T| && y !in visited;
      assert x in rest;
      u := SourceOf(T, M, t, w, visited + {x});
    }
  }

  lemma StepReaches(T: seq<Tcb>, M: seq<Mtx>, w: nat, x: nat, y: nat)
    requires Blocks(T, M, w, x) && Reaches(T, M, x, y)
    ensures Reaches(T, M, w, y)
  {
    forall S: set<nat> | w in S && Closed(T, M, S) ensures y in S {
      assert x in S;
    }
  }

  // ----- The place of a task whose priority was changed

  /** Nothing but priorities, t's base priority and the order of queues differs. */
  ghost predicate SameTies(T: seq<Tcb>, M: seq<Mtx>, T': seq<Tcb>, M': seq<Mtx>, t: nat) {
    && |T'| == |T| && |M'| == |M|
    && (forall u :: 0 <= u < |T| ==> T'[u].status == T[u].status && T'[u].held == T[u].held && (u != t ==> T'[u].bpri == T[u].bpri))
    && (forall m :: 0 <= m < |M| ==> M'[m] == M[m].(queue := M'[m].queue))
  }

  lemma SameReach(T: seq<Tcb>, M: seq<Mtx>, T': seq<Tcb>, M': seq<Mtx>, t: nat, a: nat, b: nat)
    requires SameTies(T, M, T', M', t) && Reaches(T, M, a, b)
    ensures Reaches(T', M', a, b)
  {
    forall S: set<nat> | a in S && Closed(T', M', S) ensures b in S {
      forall w: nat, o: nat | w in S && Blocks(T, M, w, o) ensures o in S { assert Blocks(T', M', w, o); }
      assert Closed(T, M, S);
    }
  }

  lemma SameTiesBack(T: seq<Tcb>, M: seq<Mtx>, T': seq<Tcb>, M': seq<Mtx>, t: nat)
    requires SameTies(T, M, T', M', t)
    ensures SameTies(T', M', T, M, t)
  {
  }

  lemma SameCycle(T: seq<Tcb>, M: seq<Mtx>, T': seq<Tcb>, M': seq<Mtx>, t: nat, w: nat)
    requires SameTies(T, M, T', M', t) && OnCycle(T', M', w)
    ensures OnCycle(T, M, w)
  {
    SameTiesBack(T, M, T', M', t);
    var o: nat :| Blocks(T', M', w, o) && Reaches(T', M', o, w);
    SameReach(T', M', T, M, t, o, w);
    assert Blocks(T, M, w, o);
  }

  /** A task whom t does not reach is bounded by the same sources. */
  lemma SourceKept(T: seq<Tcb>, M: seq<Mtx>, T': seq<Tcb>, M': seq<Mtx>, t: nat, w: nat)
    requires Inv(T, M) && Inv(T', M') && SameTies(T, M, T', M', t) && w < |T|
    requires !OnCycle(T, M, w) && !Reaches(T, M, t, w)
    ensures T'[w].pri <= T[w].pri
  {
    TransitiveInheritance(T, M, w);
    var u: nat :| u < |T| && Reaches(T, M, u, w) && OwnSource(T, M, NoPledge, u, T[w].pri);
    SameReach(T, M, T', M', t, u, w);
    assert OwnSource(T', M', NoPledge, u, T[w].pri);
    BoundedBelow(T', M', w);
  }

  /** Two tasks waiting for the same mutex: outside a deadlock neither waits, in the end, for the other. */
  lemma FellowsApart(T: seq<Tcb>, M: seq<Mtx>, m: nat, t: nat, w: nat)
    requires Wf(T, M, WHOLE) && m < |M| && t in M[m].queue && w in M[m].queue && t != w && !OnCycle(T, M, w)
    ensures !Reaches(T, M, t, w)
  {
    assert MutexOk(T, M, WHOLE, m);
    if Reaches(T, M, t, w) {
      var o := NextOn(T, M, t, w);
      StepOn(T, M, t, o, w);
      assert Blocks(T, M, w, o);
    }
  }

  lemma FellowUnshifted(T: seq<Tcb>, M: seq<Mtx>, T': seq<Tcb>, M': seq<Mtx>, t: nat, w: nat, m: nat)
    requires Inv(T, M) && Inv(T', M') && SameTies(T, M, T', M', t)
    requires m < |M| && t in M[m].queue && w in M[m].queue && t != w && !OnCycle(T, M, w)
    ensures w < |T| && T'[w].pri == T[w].pri
  {
    assert MutexOk(T, M, WHOLE, m);
    FellowsApart(T, M, m, t, w);
    SourceKept(T, M, T', M', t, w);
    SameTiesBack(T, M, T', M', t);
    if OnCycle(T', M', w) { SameCycle(T, M, T', M', t, w); }
    if Reaches(T', M', t, w) { SameReach(T', M', T, M, t, t, w); }
    SourceKept(T', M', T, M, t, w);
  }

  /** In its queue t stands behind everybody of its new priority; only a deadlocked waiter, which may
      have been moved once more after it, can be behind t with the same. */
  ghost predicate BehindFellows(T: seq<Tcb>, M: seq<Mtx>, T': seq<Tcb>, M': seq<Mtx>, t: nat) {
    forall m: nat, w: nat :: m < |M'| && M'[m].proto != Fifo && Before(M'[m].queue, t, w) && t < |T'| && w < |T'| ==>
      T'[t].pri < T'[w].pri || OnCycle(T, M, w)
  }

  lemma FellowsBehind(T: seq<Tcb>, M: seq<Mtx>, T1: seq<Tcb>, T': seq<Tcb>, M': seq<Mtx>, t: nat, bpri: int,
                      up: bool)
    requires Inv(T, M) && Inv(T', M') && t < |T| && T1 == T[t := T[t].(bpri := bpri)]
    requires PriOnly(T1, M, T', M', t, up) && BehindEqualsIn(T1, T', M', t)
    ensures BehindFellows(T, M, T', M', t)
  {
    assert SameTies(T, M, T', M', t);
    forall m: nat, w: nat | m < |M'| && M'[m].proto != Fifo && Before(M'[m].queue, t, w) && w < |T'| && !OnCycle(T, M, w)
      ensures T'[t].pri < T'[w].pri
    {
      assert MutexOk(T', M', WHOLE, m) && MutexOk(T, M, WHOLE, m);
      assert t in multiset(M'[m].queue) && w in multiset(M'[m].queue);
      FellowUnshifted(T, M, T', M', t, w, m);
      assert Behind(T1, T', M'[m].queue, t) && Unshifted(T1, T', w);
    }
  }

  // ----- Deadlocks break both halves: two examples

  function DeadlockTcb(): seq<Tcb> {
    [Tcb(5, 10, 5, WaitMutex(1), [0]), Tcb(5, 7, 7, WaitMutex(0), [1])]
  }

  function DeadlockMtx(): seq<Mtx> {
    [Mtx(true, Inherit, 0, Some(0), [1]), Mtx(true, Inherit, 0, Some(1), [0])]
  }

  lemma DeadlockTask(t: nat)
    requires t < 2
    ensures TaskOk(DeadlockTcb(), DeadlockMtx(), WHOLE, t)
  {
    assert DeadlockTcb()[0].held == [0] && DeadlockTcb()[1].held == [1];
    assert 1 in DeadlockMtx()[0].queue && 0 in DeadlockMtx()[1].queue;
  }

  lemma DeadlockMutex(m: nat)
    requires m < 2
    ensures MutexOk(DeadlockTcb(), DeadlockMtx(), WHOLE, m)
  {
    assert 0 in DeadlockTcb()[0].held && 1 in DeadlockTcb()[1].held;
  }

  lemma DeadlockEffective(t: nat)
    requires t < 2
    ensures Effective(DeadlockTcb(), DeadlockMtx(), NoPledge, t, 5)
  {
    var T, M := DeadlockTcb(), DeadlockMtx();
    assert t in T[t].held && 1 - t in M[t].queue && T[1 - t].pri == 5;
    assert DonatedSource(T, M, t, 5);
  }

  /** In a deadlock the equations can hold with a priority that no task in the cycle has of
      its own: the two tasks keep each other at 5 although their bases are 10 and 7. */
  lemma DeadlockKeepsStalePriority()
    ensures Inv(DeadlockTcb(), DeadlockMtx()) && OnCycle(DeadlockTcb(), DeadlockMtx(), 0)
    ensures !TransitiveMinimum(DeadlockTcb(), DeadlockMtx(), 0)
  {
    var T, M := DeadlockTcb(), DeadlockMtx();
    forall t | 0 <= t < |T| ensures TaskOk(T, M, WHOLE, t) && Effective(T, M, NoPledge, t, T[t].pri) {
      DeadlockTask(t);
      DeadlockEffective(t);
    }
    forall m | 0 <= m < |M| ensures MutexOk(T, M, WHOLE, m) {
      DeadlockMutex(m);
    }
    assert Blocks(T, M, 0, 1) && Blocks(T, M, 1, 0);
    StepReaches(T, M, 1, 0, 0);
    NoOwnFive();
  }

  lemma NoOwnFive()
    ensures forall u: nat :: u < 2 ==> !OwnSource(DeadlockTcb(), DeadlockMtx(), NoPledge, u, 5)
  {
  }

  // ----- When deletion and termination come round

  /** Without m its holder falls, the fall runs along the waits to a waiter of m, and this one
      falls less far than the holder. */
  ghost predicate DeletionComesRound(T: seq<Tcb>, M: seq<Mtx>, m: nat) {
    && m < |M| && M[m].live && M[m].owner.Some? && M[m].owner.value < |T|
    && var o := M[m].owner.value;
    exists low: int, path: seq<nat> ::
      Effective(Detached(T, o, m), M, NoPledge, o, low) && Round(Detached(T, o, m), M, Exempt(Some(m), None), o, low, path)
  }

  /** When t leaves its queue the holder falls, and the fall runs along the waits to t. */
  ghost predicate TerminationComesRound(T: seq<Tcb>, M: seq<Mtx>, t: nat) {
    && Inherits(T, M, t) && M[T[t].status.m].owner.Some? && M[T[t].status.m].owner.value < |T|
    && var m := T[t].status.m;
    var o := M[m].owner.value;
    exists low: int, path: seq<nat> ::
      Effective(T, LeftMtx(M, t, m), NoPledge, o, low) && Round(T, LeftMtx(M, t, m), Exempt(None, Some(t)), o, low, path)
  }

  /** w waits for a mutex u holds, and nothing but w holds u at its priority. */
  ghost predicate Leans(T: seq<Tcb>, M: seq<Mtx>, u: nat, w: nat) {
    Blocks(T, M, w, u) && Loose(T, M, u, w)
  }

  /** t is on a cycle of waits whose tasks are held at their priority by each other alone. */
  ghost predicate HeldByCycle(T: seq<Tcb>, M: seq<Mtx>, t: nat) {
    exists path: seq<nat> :: CycleOf(T, M, t, path)
  }

  ghost predicate CycleOf(T: seq<Tcb>, M: seq<Mtx>, t: nat, path: seq<nat>) {
    && path != [] && path[|path| - 1] == t && Distinct(path) && Within(path, |T|)
    && Leans(T, M, path[0], t)
    && (forall i: nat :: i + 1 < |path| ==> Leans(T, M, path[i + 1], path[i]))
  }

  lemma DeletionReturns(T: seq<Tcb>, M: seq<Mtx>, m: nat, o: nat, low: int)
    requires m < |M| && M[m].live && M[m].owner == Some(o) && o < |T| && Effective(Detached(T, o, m), M, NoPledge, o, low)
    ensures DeletionComesRound(T, M, m) <==> Returns(Fall(Detached(T, o, m), M, Exempt(Some(m), None), o, low, []), o)
  {
    var f := Fall(Detached(T, o, m), M, Exempt(Some(m), None), o, low, []);
    if DeletionComesRound(T, M, m) {
      var l: int, path: seq<nat> :| Effective(f.T, M, NoPledge, o, l) && Round(f.T, M, f.x, o, l, path);
      EffectiveUnique(f.T, M, NoPledge, o, l, low);
      assert f.path + [o] <= path;
    }
  }

  lemma TerminationReturns(T: seq<Tcb>, M: seq<Mtx>, t: nat, m: nat, o: nat, low: int)
    requires Inherits(T, M, t) && T[t].status.m == m && M[m].owner == Some(o) && o < |T| && Effective(T, LeftMtx(M, t, m), NoPledge, o, low)
    ensures TerminationComesRound(T, M, t) <==> Returns(Fall(T, LeftMtx(M, t, m), Exempt(None, Some(t)), o, low, []), o)
  {
    var f := Fall(T, LeftMtx(M, t, m), Exempt(None, Some(t)), o, low, []);
    if TerminationComesRound(T, M, t) {
      var l: int, path: seq<nat> :| Effective(T, f.M, NoPledge, o, l) && Round(T, f.M, f.x, o, l, path);
      EffectiveUnique(T, f.M, NoPledge, o, l, low);
      assert f.path + [o] <= path;
    }
  }

  /** What leaving m's queue takes away from whom. */
  lemma LeftFeeds(T: seq<Tcb>, M: seq<Mtx>, t: nat, m: nat, v: nat, u: nat)
    requires Wf(T, M, WHOLE) && t < |T| && m < |M| && T[t].status == WaitMutex(m)
    ensures Feeds(T, LeftMtx(M, t, m), v, u) <==> Feeds(T, M, v, u) && v != t
    ensures Blocks(T, LeftMtx(M, t, m), v, u) <==> Blocks(T, M, v, u)
  {
  }

  /** For a task t does not wait for, t's departure changes nothing. */
  lemma LeftLoose(T: seq<Tcb>, M: seq<Mtx>, t: nat, m: nat, u: nat, w: nat)
    requires Wf(T, M, WHOLE) && t < |T| && m < |M| && T[t].status == WaitMutex(m) && M[m].owner != Some(u)
    ensures Loose(T, LeftMtx(M, t, m), u, w) <==> Loose(T, M, u, w)
  {
    var M1 := LeftMtx(M, t, m);
    forall v: nat ensures Feeds(T, M1, v, u) <==> Feeds(T, M, v, u) {
      LeftFeeds(T, M, t, m, v, u);
      if Feeds(T, M, t, u) { FeedsBlocks(T, M, WHOLE, t, u); }
    }
    if u < |T| {
      assert forall p :: OwnSource(T, M1, NoPledge, u, p) <==> OwnSource(T, M, NoPledge, u, p);
    }
  }

  /** The holder falls exactly when nothing but t holds it up. */
  lemma LeftFalls(T: seq<Tcb>, M: seq<Mtx>, t: nat, m: nat, o: nat, low: int)
    requires Inv(T, M) && t < |T| && m < |M| && T[t].status == WaitMutex(m) && M[m].owner == Some(o) && o < |T|
    requires Effective(T, LeftMtx(M, t, m), NoPledge, o, low)
    ensures T[o].pri < low <==> Loose(T, M, o, t)
  {
    var M1 := LeftMtx(M, t, m);
    assert Effective(T, M, NoPledge, o, T[o].pri);
    assert forall p :: OwnSource(T, M1, NoPledge, o, p) <==> OwnSource(T, M, NoPledge, o, p);
    if DonatedSource(T, M1, o, low) {
      var v := DonorLeft(T, M, t, m, o, low);
    }
    forall v: nat | Feeds(T, M, v, o) && v != t ensures low <= T[v].pri {
      LeftFeeds(T, M, t, m, v, o);
      FedBound(T, M1, v, o, low);
    }
    if OwnSource(T, M, NoPledge, o, T[o].pri) { OwnLeast(T, M1, o, T[o].pri, low); }
    if OwnSource(T, M, NoPledge, o, low) { OwnLeast(T, M, o, low, T[o].pri); }
  }

  lemma OwnLeast(T: seq<Tcb>, M: seq<Mtx>, u: nat, p: int, q: int)
    requires u < |T| && OwnSource(T, M, NoPledge, u, p) && AtMost(T, M, NoPledge, u, q)
    ensures q <= p
  {
  }

  lemma DonorLeft(T: seq<Tcb>, M: seq<Mtx>, t: nat, m: nat, o: nat, p: int) returns (v: nat)
    requires Inv(T, M) && t < |T| && m < |M| && T[t].status == WaitMutex(m) && o < |T| && DonatedSource(T, LeftMtx(M, t, m), o, p)
    ensures v != t && Feeds(T, M, v, o) && T[v].pri == p && T[o].pri <= p
  {
    var M1 := LeftMtx(M, t, m);
    var n: nat, w: nat :| n in T[o].held && n < |M1| && M1[n].proto == Inherit && w in M1[n].queue && w < |T| && p == T[w].pri;
    assert MutexOk(T, M, WHOLE, n) && w in M[n].queue;
    v := w;
    LeftFeeds(T, M, t, m, v, o);
    assert Effective(T, M, NoPledge, o, T[o].pri);
    FedBound(T, M, v, o, T[o].pri);
    NotQueuedBut(T, M, t, m, n);
  }

  lemma NotQueuedBut(T: seq<Tcb>, M: seq<Mtx>, t: nat, m: nat, n: nat)
    requires Wf(T, M, WHOLE) && t < |T| && m < |M| && n < |M| && T[t].status == WaitMutex(m)
    ensures t !in LeftMtx(M, t, m)[n].queue
  {
    assert MutexOk(T, M, WHOLE, n);
  }

  lemma LinkLeans(T: seq<Tcb>, M: seq<Mtx>, t: nat, m: nat, o: nat, w: nat, u: nat)
    requires Wf(T, M, WHOLE) && t < |T| && m < |M| && T[t].status == WaitMutex(m) && M[m].owner == Some(o) && u != o
    ensures Link(T, LeftMtx(M, t, m), Exempt(None, Some(t)), w, u) <==> Leans(T, M, u, w) && w != t
  {
    LeftFeeds(T, M, t, m, w, u);
    LeftLoose(T, M, t, m, u, w);
  }

  /** A fall comes round to a terminated task exactly when a cycle of waits holds itself up. */
  lemma TerminationHeld(T: seq<Tcb>, M: seq<Mtx>, t: nat)
    requires Inv(T, M) && t < |T|
    ensures TerminationComesRound(T, M, t) <==> HeldByCycle(T, M, t)
  {
    if TerminationComesRound(T, M, t) {
      var m := T[t].status.m;
      var o := M[m].owner.value;
      var low: int, path: seq<nat> :| Effective(T, LeftMtx(M, t, m), NoPledge, o, low) &&
          Round(T, LeftMtx(M, t, m), Exempt(None, Some(t)), o, low, path);
      RoundCycle(T, M, t, m, o, low, path);
    }
    if HeldByCycle(T, M, t) {
      var path: seq<nat> :| CycleOf(T, M, t, path);
      var m := T[t].status.m;
      var low := LeftLow(T, M, t, m, path[0]);
      CycleRound(T, M, t, m, path[0], low, path);
    }
  }

  lemma LeftLow(T: seq<Tcb>, M: seq<Mtx>, t: nat, m: nat, o: nat) returns (low: int)
    requires Inv(T, M) && t < |T| && m < |M| && T[t].status == WaitMutex(m) && o < |T|
    ensures Effective(T, LeftMtx(M, t, m), NoPledge, o, low)
  {
    LeaveWf(T, M, t, m, T[t].status);
    assert T[t := T[t].(status := T[t].status)] == T;
    low := LowNow(T, LeftMtx(M, t, m), Exempt(None, Some(t)), o);
  }

  lemma RoundCycle(T: seq<Tcb>, M: seq<Mtx>, t: nat, m: nat, o: nat, low: int, path: seq<nat>)
    requires Inv(T, M) && t < |T| && m < |M| && T[t].status == WaitMutex(m) && M[m].proto == Inherit && M[m].owner == Some(o) && o < |T|
    requires Effective(T, LeftMtx(M, t, m), NoPledge, o, low) && Round(T, LeftMtx(M, t, m), Exempt(None, Some(t)), o, low, path)
    ensures CycleOf(T, M, t, path)
  {
    LeftFalls(T, M, t, m, o, low);
    assert Blocks(T, M, t, o);
    forall i: nat | i + 1 < |path| ensures Leans(T, M, path[i + 1], path[i]) {
      assert Link(T, LeftMtx(M, t, m), Exempt(None, Some(t)), path[i], path[i + 1]);
      LinkLeans(T, M, t, m, o, path[i], path[i + 1]);
    }
  }

  lemma CycleRound(T: seq<Tcb>, M: seq<Mtx>, t: nat, m: nat, o: nat, low: int, path: seq<nat>)
    requires Inv(T, M) && t < |T| && m < |M| && T[t].status == WaitMutex(m) && o < |T|
    requires Effective(T, LeftMtx(M, t, m), NoPledge, o, low) && CycleOf(T, M, t, path) && path[0] == o
    ensures TerminationComesRound(T, M, t)
  {
    LeftFalls(T, M, t, m, o, low);
    forall i: nat | i + 1 < |path| ensures Link(T, LeftMtx(M, t, m), Exempt(None, Some(t)), path[i], path[i + 1]) {
      assert Leans(T, M, path[i + 1], path[i]);
      LinkLeans(T, M, t, m, o, path[i], path[i + 1]);
    }
    assert Round(T, LeftMtx(M, t, m), Exempt(None, Some(t)), o, low, path);
  }

  /** Along a path of waits everything before reaches what comes after. */
  lemma {:induction false} PathReaches(T: seq<Tcb>, M: seq<Mtx>, path: seq<nat>, i: nat)
    requires i < |path| && forall j: nat :: j + 1 < |path| ==> Blocks(T, M, path[j], path[j + 1])
    ensures Reaches(T, M, path[i], path[|path| - 1])
    decreases |path| - i
  {
    if i + 1 < |path| {
      PathReaches(T, M, path, i + 1);
      StepReaches(T, M, path[i], path[i + 1], path[|path| - 1]);
    }
  }

  /** Only a deadlocked task's termination can come round. */
  lemma HeldOnCycle(T: seq<Tcb>, M: seq<Mtx>, t: nat)
    requires HeldByCycle(T, M, t)
    ensures OnCycle(T, M, t)
  {
    var path: seq<nat> :| CycleOf(T, M, t, path);
    forall j: nat | j + 1 < |path| ensures Blocks(T, M, path[j], path[j + 1]) {
      assert Leans(T, M, path[j + 1], path[j]);
    }
    PathReaches(T, M, path, 0);
    assert Blocks(T, M, t, path[0]);
  }

  // ----- Inside a deadlock: transitive, unless the cycle holds itself up

  /** Whoever leans on a task has its priority. */
  lemma LeansSame(T: seq<Tcb>, M: seq<Mtx>, u: nat, w: nat)
    requires Inv(T, M) && Leans(T, M, u, w)
    ensures w < |T| && T[w].pri == T[u].pri
  {
    assert Effective(T, M, NoPledge, u, T[u].pri);
    var v := Donor(T, M, WHOLE, u, T[u].pri);
  }

  lemma {:induction false} CyclePri(T: seq<Tcb>, M: seq<Mtx>, t: nat, path: seq<nat>, i: nat)
    requires Inv(T, M) && CycleOf(T, M, t, path) && i < |path|
    ensures t < |T| && path[i] < |T| && T[path[i]].pri == T[t].pri
  {
    LeansSame(T, M, path[0], t);
    if i > 0 {
      CyclePri(T, M, t, path, i - 1);
      assert Leans(T, M, path[i - 1 + 1], path[i - 1]);
      LeansSame(T, M, path[i], path[i - 1]);
    }
  }

  /** The one task on the cycle that a task of it leans on, and only that one feeds it at its priority. */
  lemma CycleFed(T: seq<Tcb>, M: seq<Mtx>, t: nat, path: seq<nat>, c: nat, v: nat)
    requires Inv(T, M) && CycleOf(T, M, t, path) && c in path && Feeds(T, M, v, c) && T[v].pri == T[c].pri
    ensures v in path
  {
    var i: nat :| i < |path| && path[i] == c;
    if i == 0 {
      assert Leans(T, M, path[0], t) && path[|path| - 1] == t;
    } else {
      assert Leans(T, M, path[i - 1 + 1], path[i - 1]);
    }
  }

  /** Nobody outside a cycle that holds itself up reaches it with as high a priority. */
  lemma CycleAbove(T: seq<Tcb>, M: seq<Mtx>, t: nat, path: seq<nat>, u: nat)
    requires Inv(T, M) && CycleOf(T, M, t, path) && u < |T| && u !in path && Reaches(T, M, u, t)
    ensures t < |T| && T[t].pri < T[u].pri
  {
    CyclePri(T, M, t, path, |path| - 1);
    var low := set x: nat | x < |T| && x !in path && T[x].pri <= T[t].pri;
    forall x: nat, y: nat | x in low && Blocks(T, M, x, y) ensures y in low {
      BlocksFeeds(T, M, WHOLE, x, y);
      assert Effective(T, M, NoPledge, y, T[y].pri);
      FedBound(T, M, x, y, T[y].pri);
      if y in path {
        var i: nat :| i < |path| && path[i] == y;
        CyclePri(T, M, t, path, i);
        CycleFed(T, M, t, path, y, x);
      }
    }
    assert Closed(T, M, low) && t !in low;
  }

  /** A way along waits to a task that is reached, with nobody on it twice. */
  lemma {:induction false} PathTo(T: seq<Tcb>, M: seq<Mtx>, x: nat, t: nat, visited: set<nat>) returns (path: seq<nat>)
    requires Wf(T, M, WHOLE) && x < |T| && Reaches(T, M, x, t) && t !in visited && x !in visited
    requires forall v: nat, y: nat :: v in visited && Blocks(T, M, v, y) ==> y in visited || y == x
    ensures path != [] && path[0] == x && path[|path| - 1] == t && Distinct(path) && Within(path, |T|)
    ensures (forall w :: w in path ==> w !in visited) && (forall i: nat :: i + 1 < |path| ==> Blocks(T, M, path[i], path[i + 1]))
    decreases (set w: nat {:trigger w in visited} | w < |T| && w !in visited)
  {
    if x == t {
      path := [t];
    } else {
      var y := NextOn(T, M, x, t);
      assert TaskOk(T, M, WHOLE, x) && MutexOk(T, M, WHOLE, T[x].status.m);
      StepOn(T, M, x, y, t);
      NotBack(T, M, x, y, t, visited);
      ghost var left := set w: nat {:trigger w in visited} | w < |T| && w !in visited;
      assert x in left;
      var rest := PathTo(T, M, y, t, visited + {x});
      path := [x] + rest;
      assert x !in rest;
      forall i: nat | i + 1 < |path| ensures Blocks(T, M, path[i], path[i + 1]) {
        if i > 0 { assert Blocks(T, M, rest[i - 1], rest[i - 1 + 1]); }
      }
    }
  }

  lemma NotBack(T: seq<Tcb>, M: seq<Mtx>, x: nat, y: nat, t: nat, visited: set<nat>)
    requires Blocks(T, M, x, y) && Reaches(T, M, y, t) && t !in visited + {x}
    requires forall v: nat, z: nat :: v in visited && Blocks(T, M, v, z) ==> z in visited || z == x
    ensures y !in visited + {x}
    ensures forall v: nat, z: nat :: v in visited + {x} && Blocks(T, M, v, z) ==> z in visited + {x} || z == y
  {
    forall v: nat, z: nat | v in visited + {x} && Blocks(T, M, v, z) ensures z in visited + {x} || z == y {
      if v == x { BlocksOne(T, M, x, y, z); }
    }
    if y in visited + {x} { assert Closed(T, M, visited + {x}); }
  }

  /** Nobody who reaches t has t's priority by himself. */
  ghost predicate Unfounded(T: seq<Tcb>, M: seq<Mtx>, t: nat)
    requires t < |T|
  {
    forall u: nat :: u < |T| && Reaches(T, M, u, t) ==> !OwnSource(T, M, NoPledge, u, T[t].pri)
  }

  /** A task that is not deadlocked passes on a priority somebody has by himself. */
  lemma Founded(T: seq<Tcb>, M: seq<Mtx>, v: nat, t: nat)
    requires Inv(T, M) && v < |T| && t < |T| && !OnCycle(T, M, v) && Reaches(T, M, v, t) && T[v].pri == T[t].pri
    ensures !Unfounded(T, M, t)
  {
    TransitiveInheritance(T, M, v);
    var u: nat :| u < |T| && Reaches(T, M, u, v) && OwnSource(T, M, NoPledge, u, T[v].pri);
    ReachesTrans(T, M, u, v, t);
  }

  /** Where nobody who reaches a deadlocked task has its priority by himself, whoever holds a task of
      its cycle at that priority is the task before it on the cycle. */
  lemma FeederBefore(T: seq<Tcb>, M: seq<Mtx>, t: nat, path: seq<nat>, c: nat, v: nat)
    requires Inv(T, M) && t < |T| && OnCycle(T, M, t) && Unfounded(T, M, t)
    requires c < |T| && Reaches(T, M, c, t) && T[c].pri == T[t].pri && Feeds(T, M, v, c) && T[v].pri == T[c].pri
    requires t in path && Closed(T, M, set w | w in path)
    ensures v in path && Blocks(T, M, v, c)
  {
    FeedsBlocks(T, M, WHOLE, v, c);
    StepReaches(T, M, v, c, t);
    if !OnCycle(T, M, v) { Founded(T, M, v, t); }
    DeadlockReturns(T, M, v, t);
    assert t in (set w | w in path);
  }

  /** The tasks of a cycle of waits, in turn. */
  ghost predicate Circle(T: seq<Tcb>, M: seq<Mtx>, t: nat, path: seq<nat>) {
    && path != [] && path[|path| - 1] == t && Distinct(path) && Within(path, |T|) && Blocks(T, M, t, path[0])
    && (forall i: nat :: i + 1 < |path| ==> Blocks(T, M, path[i], path[i + 1]))
  }

  lemma CircleOf(T: seq<Tcb>, M: seq<Mtx>, t: nat) returns (path: seq<nat>)
    requires Wf(T, M, WHOLE) && t < |T| && OnCycle(T, M, t)
    ensures Circle(T, M, t, path)
  {
    var o: nat :| Blocks(T, M, t, o) && Reaches(T, M, o, t);
    assert TaskOk(T, M, WHOLE, t) && MutexOk(T, M, WHOLE, T[t].status.m);
    path := PathTo(T, M, o, t, {});
  }

  /** Who on the circle blocks one of its tasks is the one before it. */
  lemma CircleBefore(T: seq<Tcb>, M: seq<Mtx>, t: nat, path: seq<nat>, i: nat, v: nat)
    requires Circle(T, M, t, path) && i < |path| && v in path && Blocks(T, M, v, path[i])
    ensures v == if i == 0 then t else path[i - 1]
  {
    var j: nat :| j < |path| && path[j] == v;
    if j + 1 < |path| {
      BlocksOne(T, M, v, path[i], path[j + 1]);
      assert i == j + 1;
    } else {
      BlocksOne(T, M, v, path[i], path[0]);
      assert i == 0;
    }
  }

  lemma CircleClosed(T: seq<Tcb>, M: seq<Mtx>, t: nat, path: seq<nat>)
    requires Circle(T, M, t, path)
    ensures Closed(T, M, set w | w in path)
  {
    forall w: nat, o: nat | w in path && Blocks(T, M, w, o) ensures o in path {
      var j: nat :| j < |path| && path[j] == w;
      if j + 1 < |path| { BlocksOne(T, M, w, o, path[j + 1]); } else { BlocksOne(T, M, w, o, path[0]); }
    }
  }

  /** Such a circle holds itself up. */
  lemma UnfoundedCycle(T: seq<Tcb>, M: seq<Mtx>, t: nat, path: seq<nat>)
    requires Inv(T, M) && t < |T| && OnCycle(T, M, t) && Unfounded(T, M, t) && Circle(T, M, t, path)
    ensures CycleOf(T, M, t, path)
  {
    CircleClosed(T, M, t, path);
    CircleLoose(T, M, t, path, 0);
    forall i: nat | i + 1 < |path| ensures Leans(T, M, path[i + 1], path[i]) {
      CircleLoose(T, M, t, path, i + 1);
    }
  }

  lemma CircleLoose(T: seq<Tcb>, M: seq<Mtx>, t: nat, path: seq<nat>, i: nat)
    requires Inv(T, M) && t < |T| && OnCycle(T, M, t) && Unfounded(T, M, t) && Circle(T, M, t, path) && i < |path|
    requires Closed(T, M, set w | w in path)
    ensures Loose(T, M, path[i], if i == 0 then t else path[i - 1])
  {
    var c := path[i];
    PathReaches(T, M, path, i);
    InheritsAlongChains(T, M, c, t);
    PathReaches(T, M, path, 0);
    StepReaches(T, M, t, path[0], t);
    CircleReached(T, M, t, path, i);
    InheritsAlongChains(T, M, t, c);
    forall v: nat | Feeds(T, M, v, c) && T[v].pri == T[c].pri ensures v == if i == 0 then t else path[i - 1] {
      FeederBefore(T, M, t, path, c, v);
      CircleBefore(T, M, t, path, i, v);
    }
  }

  lemma {:induction false} CircleReached(T: seq<Tcb>, M: seq<Mtx>, t: nat, path: seq<nat>, i: nat)
    requires Circle(T, M, t, path) && i < |path|
    ensures Reaches(T, M, t, path[i])
  {
    if i == 0 {
      StepReaches(T, M, t, path[0], path[0]);
    } else {
      CircleReached(T, M, t, path, i - 1);
      StepReaches(T, M, path[i - 1], path[i], path[i]);
      ReachesTrans(T, M, t, path[i - 1], path[i]);
    }
  }

  /** In every state between calls, t has the highest priority among the tasks that wait for it if
      and only if it is not on a cycle of waits that holds itself up: the same condition under
      which its termination goes wrong. */
  lemma TransitiveUnlessHeld(T: seq<Tcb>, M: seq<Mtx>, t: nat)
    requires Inv(T, M) && t < |T|
    ensures TransitiveMinimum(T, M, t) <==> !HeldByCycle(T, M, t)
  {
    if HeldByCycle(T, M, t) {
      var path: seq<nat> :| CycleOf(T, M, t, path);
      forall u: nat | u < |T| && Reaches(T, M, u, t) ensures !OwnSource(T, M, NoPledge, u, T[t].pri) {
        HeldUnfounded(T, M, t, path, u);
      }
    } else if !OnCycle(T, M, t) {
      TransitiveInheritance(T, M, t);
    } else {
      BoundedBelow(T, M, t);
      var path := CircleOf(T, M, t);
      if Unfounded(T, M, t) { UnfoundedCycle(T, M, t, path); }
    }
  }

  lemma HeldUnfounded(T: seq<Tcb>, M: seq<Mtx>, t: nat, path: seq<nat>, u: nat)
    requires Inv(T, M) && t < |T| && CycleOf(T, M, t, path) && u < |T| && Reaches(T, M, u, t)
    ensures !OwnSource(T, M, NoPledge, u, T[t].pri)
  {
    if u in path {
      var i: nat :| i < |path| && path[i] == u;
      CyclePri(T, M, t, path, i);
      if i > 0 { assert Leans(T, M, path[i - 1 + 1], path[i - 1]); }
    } else {
      CycleAbove(T, M, t, path, u);
      assert Effective(T, M, NoPledge, u, T[u].pri);
    }
  }

  /** Only the deletion of a mutex whose holder is deadlocked can come round. */
  lemma DeletionOnCycle(T: seq<Tcb>, M: seq<Mtx>, m: nat)
    requires DeletionComesRound(T, M, m)
    ensures OnCycle(T, M, M[m].owner.value)
  {
    var o := M[m].owner.value;
    var D := Detached(T, o, m);
    var low: int, path: seq<nat> :| Effective(D, M, NoPledge, o, low) && Round(D, M, Exempt(Some(m), None), o, low, path);
    forall j: nat | j + 1 < |path| ensures Blocks(T, M, path[j], path[j + 1]) {
      assert Link(D, M, Exempt(Some(m), None), path[j], path[j + 1]);
    }
    var last := path[|path| - 1];
    assert Blocks(T, M, last, o);
    if |path| > 1 {
      PathReaches(T, M, path, 1);
      StepReaches(T, M, last, o, o);
      ReachesTrans(T, M, path[1], last, o);
      assert Blocks(T, M, path[0], path[1]);
    }
  }

  /** The deadlock above comes round in both ways. */
  lemma DeadlockComesRound()
    ensures DeletionComesRound(DeadlockTcb(), DeadlockMtx(), 0) && HeldByCycle(DeadlockTcb(), DeadlockMtx(), 1)
  {
    var T, M := DeadlockTcb(), DeadlockMtx();
    var D := Detached(T, 0, 0);
    assert Without([0], 0) == [];
    assert D[0].held == [] && D[1] == T[1];
    DeadlockLeans(T, M, 0);
    DeadlockLeans(T, M, 1);
    assert Loose(D, M, 1, 0) && Blocks(D, M, 0, 1);
    assert AskedBelow(D, M, 1, 0, 10) by { assert OwnSource(D, M, NoPledge, 1, 7); }
    assert SinksAt(D, M, [0, 1], 10, 0);
    assert Link(D, M, Exempt(Some(0), None), 0, 1);
    assert Round(D, M, Exempt(Some(0), None), 0, 10, [0, 1]);
    assert Effective(D, M, NoPledge, 0, 10);
    assert CycleOf(T, M, 1, [0, 1]);
  }

  lemma DeadlockLeans(T: seq<Tcb>, M: seq<Mtx>, u: nat)
    requires T == DeadlockTcb() && M == DeadlockMtx() && u < 2
    ensures Leans(T, M, u, 1 - u)
  {
    NoOwnFive();
  }

  // ----- Which calls can create a deadlock

  /** Fewer waits, no new cycle. */
  lemma AcyclicFewer(T: seq<Tcb>, M: seq<Mtx>, T': seq<Tcb>, M': seq<Mtx>)
    requires Acyclic(T, M) && |T'| == |T| && forall w: nat, o: nat :: Blocks(T', M', w, o) ==> Blocks(T, M, w, o)
    ensures Acyclic(T', M')
  {
    forall t | 0 <= t < |T'| ensures !OnCycle(T', M', t) {
      forall o: nat | Blocks(T', M', t, o) ensures !Reaches(T', M', o, t) {
        assert !OnCycle(T, M, t);
        var S: set<nat> :| o in S && Closed(T, M, S) && t !in S;
        assert Closed(T', M', S);
      }
    }
  }

  /** Task u does not wait for a mutex. */
  predicate Idle(T: seq<Tcb>, u: nat) {
    u < |T| && !T[u].status.WaitMutex?
  }

  /** Nobody starts to wait, and any new holder somebody waits for does not wait itself. */
  ghost predicate Tamer(T: seq<Tcb>, M: seq<Mtx>, T': seq<Tcb>, M': seq<Mtx>) {
    && |T'| == |T|
    && (forall u: nat :: Idle(T, u) ==> Idle(T', u))
    && (forall w: nat, o: nat :: Blocks(T', M', w, o) ==> Blocks(T, M, w, o) || Idle(T', o))
  }

  lemma TamerTrans(T: seq<Tcb>, M: seq<Mtx>, T1: seq<Tcb>, M1: seq<Mtx>, T2: seq<Tcb>, M2: seq<Mtx>)
    requires Tamer(T, M, T1, M1) && Tamer(T1, M1, T2, M2)
    ensures Tamer(T, M, T2, M2)
  {
  }

  /** Such a step makes no deadlock. */
  lemma TamerAcyclic(T: seq<Tcb>, M: seq<Mtx>, T': seq<Tcb>, M': seq<Mtx>)
    requires Acyclic(T, M) && Tamer(T, M, T', M')
    ensures Acyclic(T', M')
  {
    var rest := set u: nat | u < |T'| && !T'[u].status.WaitMutex?;
    forall t | 0 <= t < |T'| ensures !OnCycle(T', M', t) {
      forall o: nat | Blocks(T', M', t, o) ensures !Reaches(T', M', o, t) {
        if Blocks(T, M, t, o) {
          assert !OnCycle(T, M, t);
          var S: set<nat> :| o in S && Closed(T, M, S) && t !in S;
          assert Closed(T', M', S + rest);
        } else {
          assert Closed(T', M', rest);
        }
      }
    }
  }

  ghost function ReachSet(T: seq<Tcb>, M: seq<Mtx>, x: nat): set<nat> {
    set u: nat | u < |T| && Reaches(T, M, x, u)
  }

  lemma ReachSetClosed(T: seq<Tcb>, M: seq<Mtx>, x: nat)
    requires Wf(T, M, WHOLE)
    ensures Closed(T, M, ReachSet(T, M, x))
  {
    forall w: nat, o: nat | w in ReachSet(T, M, x) && Blocks(T, M, w, o) ensures o in ReachSet(T, M, x) {
      assert TaskOk(T, M, WHOLE, w) && MutexOk(T, M, WHOLE, T[w].status.m);
      forall S: set<nat> | x in S && Closed(T, M, S) ensures o in S {
        assert w in S;
      }
    }
  }

  lemma ReachesTrans(T: seq<Tcb>, M: seq<Mtx>, a: nat, b: nat, c: nat)
    requires Reaches(T, M, a, b) && Reaches(T, M, b, c)
    ensures Reaches(T, M, a, c)
  {
  }

  /** Blocking ctx behind holder o deadlocks exactly when o already waits, in the end, for ctx. */
  lemma JoinAcyclic(T: seq<Tcb>, M: seq<Mtx>, T': seq<Tcb>, M': seq<Mtx>, ctx: nat, o: nat)
    requires Wf(T, M, WHOLE) && Acyclic(T, M) && |T'| == |T| && ctx < |T| && o < |T|
    requires forall w: nat, h: nat :: Blocks(T', M', w, h) <==> Blocks(T, M, w, h) || (w == ctx && h == o)
    requires !T[ctx].status.WaitMutex?
    ensures Acyclic(T', M') <==> !Reaches(T, M, o, ctx)
  {
    if Reaches(T, M, o, ctx) {
      forall S: set<nat> | o in S && Closed(T', M', S) ensures ctx in S {
        assert Closed(T, M, S);
      }
      assert Blocks(T', M', ctx, o) && OnCycle(T', M', ctx);
    } else {
      forall t | 0 <= t < |T'| ensures !OnCycle(T', M', t) {
        forall h: nat | Blocks(T', M', t, h) ensures !Reaches(T', M', h, t) {
          JoinAcyclicAt(T, M, T', M', ctx, o, t, h);
        }
      }
    }
  }

  lemma JoinAcyclicAt(T: seq<Tcb>, M: seq<Mtx>, T': seq<Tcb>, M': seq<Mtx>, ctx: nat, o: nat, t: nat, h: nat)
    requires Wf(T, M, WHOLE) && Acyclic(T, M) && |T'| == |T| && ctx < |T| && o < |T| && t < |T|
    requires forall w: nat, h: nat :: Blocks(T', M', w, h) <==> Blocks(T, M, w, h) || (w == ctx && h == o)
    requires !T[ctx].status.WaitMutex? && !Reaches(T, M, o, ctx) && Blocks(T', M', t, h)
    ensures !Reaches(T', M', h, t)
  {
    ReachSetClosed(T, M, o);
    var R := ReachSet(T, M, o);
    assert ctx !in R && o in R;
    if t == ctx {
      assert Closed(T', M', R);
    } else {
      assert Blocks(T, M, t, h) && !OnCycle(T, M, t);
      assert TaskOk(T, M, WHOLE, t) && MutexOk(T, M, WHOLE, T[t].status.m);
      ReachSetClosed(T, M, h);
      var H := ReachSet(T, M, h);
      assert h in H && t !in H;
      if ctx !in H {
        assert Closed(T', M', H);
      } else {
        if t in R {
          StepReaches(T, M, t, h, ctx);
          ReachesTrans(T, M, o, t, ctx);
        }
        assert Closed(T', M', H + R);
      }
    }
  }
}
