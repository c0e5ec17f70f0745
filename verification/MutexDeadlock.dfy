/** A deadlock made by the mutex calls, and what deletion and termination do in it. */
module MutexDeadlock {
  import opened Options
  import opened Lists
  import opened MutexState
  import opened MutexSteps
  import opened MutexTheory
  import opened MutexCalls

  /** Two tasks, each holding one inheritance mutex, made from nothing. */
  method TwoTasks() returns (k: MutexKernel)
    ensures fresh(k) && Inv(k.tcb, k.mtx) && Pooled(k.mtx, k.free)
    ensures k.tcb == Locked() && k.mtx == Mutexes([], [])
  {
    k := new MutexKernel(2, 2);
    assert k.free == [0, 1];
    TwoMutexes(k);
    var _ := k.CreTsk(0, 5);
    var _ := k.CreTsk(1, 7);
    var _ := k.StaTsk(0, false);
    var _ := k.StaTsk(1, false);
    assert k.tcb == [Tcb(5, 5, 5, Runnable, []), Tcb(7, 7, 7, Runnable, [])];
    LockFirst(k);
  }

  method TwoMutexes(k: MutexKernel)
    requires Inv(k.tcb, k.mtx) && Pooled(k.mtx, k.free) && k.free == [0, 1] && |k.mtx| == 2
    modifies k
    ensures Inv(k.tcb, k.mtx) && Pooled(k.mtx, k.free) && k.tcb == old(k.tcb)
    ensures k.mtx == [Mtx(true, Inherit, 0, None, []), Mtx(true, Inherit, 0, None, [])]
  {
    var _, _ := k.CreMtx(Inherit, 0);
    assert k.free == [1];
    var _, _ := k.CreMtx(Inherit, 0);
    assert k.free == [];
  }

  method LockFirst(k: MutexKernel)
    requires Inv(k.tcb, k.mtx) && Pooled(k.mtx, k.free)
    requires k.tcb == [Tcb(5, 5, 5, Runnable, []), Tcb(7, 7, 7, Runnable, [])]
    requires k.mtx == [Mtx(true, Inherit, 0, None, []), Mtx(true, Inherit, 0, None, [])]
    modifies k
    ensures Inv(k.tcb, k.mtx) && Pooled(k.mtx, k.free)
    ensures k.tcb == Locked() && k.mtx == Mutexes([], [])
  {
    var T, M := k.tcb, k.mtx;
    var _ := k.LocMtx(0, 0, false);
    LockedFree(T, M, k.tcb, k.mtx, 0, 0);
    T, M := k.tcb, k.mtx;
    var _ := k.LocMtx(1, 1, false);
    LockedFree(T, M, k.tcb, k.mtx, 1, 1);
  }

  /** A task with a free mutex that nobody waits for stays at its base priority. */
  lemma LockedFree(T: seq<Tcb>, M: seq<Mtx>, T': seq<Tcb>, M': seq<Mtx>, t: nat, m: nat)
    requires Inv(T', M') && t < |T| && m < |M| && |T'| == |T| && T[t].held == [] && M[m].queue == [] && M[m].proto == Inherit
    requires M' == GivenMtx(M, t, m) && Strip(T') == Strip(GivenTcb(T, t, m)) && T[t].status.Runnable? && T[t].pri == T[t].bpri
    requires forall u :: 0 <= u < |T| && u != t ==> T'[u] == T[u]
    ensures T' == T[t := T[t].(held := [m])]
  {
    assert Strip(T')[t] == T'[t].(pri := 0) && Strip(GivenTcb(T, t, m))[t] == GivenTcb(T, t, m)[t].(pri := 0);
    assert T'[t].held == [m];
    assert Effective(T', M', NoPledge, t, T'[t].pri);
  }

  function Locked(): seq<Tcb> {
    [Tcb(5, 5, 5, Runnable, [0]), Tcb(7, 7, 7, Runnable, [1])]
  }

  function Mutexes(first: seq<nat>, second: seq<nat>): seq<Mtx> {
    [Mtx(true, Inherit, 0, Some(0), first), Mtx(true, Inherit, 0, Some(1), second)]
  }

  /** ctx is the only waiter of m; the other queue is as it was. */
  lemma WaitsAlone(T: seq<Tcb>, M: seq<Mtx>, T': seq<Tcb>, M': seq<Mtx>, ctx: nat, m: nat)
    requires Inv(T', M') && Joined(T, M, T', M', ctx, m) && M[m].queue == [] && M[m].proto == Inherit
    ensures M'[m] == M[m].(queue := [ctx])
    ensures forall n :: 0 <= n < |M| && n != m && |M[n].queue| <= 1 ==> M'[n] == M[n]
  {
    var N := M'[m := M'[m].(queue := Without(M'[m].queue, ctx))];
    assert N[m] == M[m].(queue := N[m].queue) && multiset(N[m].queue) == multiset([]);
    SameOne([], N[m].queue);
    assert MutexOk(T', M', WHOLE, m);
    OneMember(M'[m].queue, ctx);
    forall n | 0 <= n < |M| && n != m && |M[n].queue| <= 1 ensures M'[n] == M[n] {
      assert N[n] == M[n].(queue := N[n].queue);
      SameOne(M[n].queue, N[n].queue);
    }
  }

  lemma SameOne(q: seq<nat>, r: seq<nat>)
    requires |q| <= 1 && multiset(r) == multiset(q)
    ensures r == q
  {
    assert |r| == |multiset(r)|;
    if q != [] { assert q == [q[0]] && r[0] in multiset(r); }
  }

  lemma OneMember(q: seq<nat>, t: nat)
    requires Distinct(q) && t in q && Without(q, t) == []
    ensures q == [t]
  {
    forall w | w in q ensures w == t { assert w in Without(q, t) <==> w != t; }
    assert forall i :: 0 <= i < |q| ==> q[i] in q;
  }

  lemma FirstWaits(T: seq<Tcb>, M: seq<Mtx>, T': seq<Tcb>, M': seq<Mtx>)
    requires T == Locked() && M == Mutexes([], []) && Inv(T', M') && Joined(T, M, T', M', 0, 1)
    ensures T' == [Tcb(5, 5, 5, WaitMutex(1), [0]), Tcb(5, 7, 7, Runnable, [1])] && M' == Mutexes([], [0])
  {
    WaitsAlone(T, M, T', M', 0, 1);
    assert T'[0 := T[0]][1] == T[1].(pri := T'[1].pri);
    assert Effective(T', M', NoPledge, 1, T'[1].pri);
    assert 1 in T'[1].held && 0 in M'[1].queue && T'[0].pri == 5;
  }

  lemma SecondWaits(T: seq<Tcb>, M: seq<Mtx>, T': seq<Tcb>, M': seq<Mtx>)
    requires T == [Tcb(5, 5, 5, WaitMutex(1), [0]), Tcb(5, 7, 7, Runnable, [1])] && M == Mutexes([], [0])
    requires Inv(T', M') && Joined(T, M, T', M', 1, 0)
    ensures T' == [Tcb(5, 5, 5, WaitMutex(1), [0]), Tcb(5, 7, 7, WaitMutex(0), [1])] && M' == DeadlockMtx()
  {
    WaitsAlone(T, M, T', M', 1, 0);
    assert T'[1 := T[1]][0] == T[0].(pri := T'[0].pri);
  }

  /** The new base priority is legal, and the effective priority stays 5. */
  lemma CanRebase(T: seq<Tcb>, M: seq<Mtx>)
    requires T == [Tcb(5, 5, 5, WaitMutex(1), [0]), Tcb(5, 7, 7, WaitMutex(0), [1])] && M == DeadlockMtx()
    ensures !AboveCeiling(T, M, 0, 10) && T[0 := T[0].(bpri := 10)] == DeadlockTcb()
    ensures Effective(DeadlockTcb(), M, NoPledge, 0, 5)
  {
    DeadlockEffective(0);
  }

  /** Single waiters cannot be reordered. */
  lemma SameQueues(T: seq<Tcb>, M: seq<Mtx>, T': seq<Tcb>, M': seq<Mtx>, t: nat)
    requires (PriOnly(T, M, T', M', t, true) || PriOnly(T, M, T', M', t, false)) && forall m :: 0 <= m < |M| ==> |M[m].queue| <= 1
    ensures M' == M
  {
    forall m | 0 <= m < |M| ensures M'[m] == M[m] {
      SameOne(M[m].queue, M'[m].queue);
    }
  }

  /** The deadlock of the theory is reached from power-up: each task waits for the other's
      mutex, then the base priority of the first is lowered. */
  method Deadlock() returns (k: MutexKernel)
    ensures fresh(k) && Inv(k.tcb, k.mtx) && Pooled(k.mtx, k.free)
    ensures k.tcb == DeadlockTcb() && k.mtx == DeadlockMtx()
  {
    k := TwoTasks();
    var T, M := k.tcb, k.mtx;
    WaitIn(k, 0, 1);
    FirstWaits(T, M, k.tcb, k.mtx);
    T, M := k.tcb, k.mtx;
    WaitIn(k, 1, 0);
    SecondWaits(T, M, k.tcb, k.mtx);
    LowerBase(k);
  }

  /** A task locks a mutex somebody else holds. */
  method WaitIn(k: MutexKernel, ctx: nat, m: nat)
    requires Inv(k.tcb, k.mtx) && Pooled(k.mtx, k.free) && ctx < |k.tcb| && m < |k.mtx| && k.tcb[ctx].status.Runnable?
    requires k.mtx[m].live && k.mtx[m].proto == Inherit && k.mtx[m].owner.Some? && k.mtx[m].owner != Some(ctx)
    modifies k
    ensures Inv(k.tcb, k.mtx) && Pooled(k.mtx, k.free) && Joined(old(k.tcb), old(k.mtx), k.tcb, k.mtx, ctx, m)
  {
    var _ := k.LocMtx(ctx, m, false);
  }

  method LowerBase(k: MutexKernel)
    requires Inv(k.tcb, k.mtx) && Pooled(k.mtx, k.free)
    requires k.tcb == [Tcb(5, 5, 5, WaitMutex(1), [0]), Tcb(5, 7, 7, WaitMutex(0), [1])] && k.mtx == DeadlockMtx()
    modifies k
    ensures Inv(k.tcb, k.mtx) && Pooled(k.mtx, k.free)
    ensures k.tcb == DeadlockTcb() && k.mtx == DeadlockMtx()
  {
    var M := k.mtx;
    var T := k.tcb;
    CanRebase(T, M);
    Rebase(k, 0, 10);
    Rebased(T, M, k.tcb, k.mtx);
  }

  /** A legal change of a base priority: only priorities and orders may follow. */
  method Rebase(k: MutexKernel, t: nat, priority: int)
    requires Inv(k.tcb, k.mtx) && Pooled(k.mtx, k.free) && t < |k.tcb| && 0 <= priority < NUM_TSKPRI
    requires !k.tcb[t].status.NonExistent? && !AboveCeiling(k.tcb, k.mtx, t, priority)
    modifies k
    ensures Inv(k.tcb, k.mtx) && Pooled(k.mtx, k.free)
    ensures var R := old(k.tcb)[t := old(k.tcb[t]).(bpri := priority)];
      && (PriOnly(R, old(k.mtx), k.tcb, k.mtx, t, true) || PriOnly(R, old(k.mtx), k.tcb, k.mtx, t, false))
      && (Effective(R, old(k.mtx), NoPledge, t, R[t].pri) ==> k.tcb == R)
  {
    var _ := k.ChgPri(t, priority);
  }

  /** Only the base priority changed. */
  lemma Rebased(T: seq<Tcb>, M: seq<Mtx>, T': seq<Tcb>, M': seq<Mtx>)
    requires T == [Tcb(5, 5, 5, WaitMutex(1), [0]), Tcb(5, 7, 7, WaitMutex(0), [1])] && M == DeadlockMtx()
    requires var R := T[0 := T[0].(bpri := 10)];
      (PriOnly(R, M, T', M', 0, true) || PriOnly(R, M, T', M', 0, false)) && (Effective(R, M, NoPledge, 0, R[0].pri) ==> T' == R)
    ensures T' == DeadlockTcb() && M' == M
  {
    CanRebase(T, M);
    SameQueues(DeadlockTcb(), M, T', M', 0);
  }

  /** Deleting the first mutex in the deadlock: its former holder, with a base priority of 10
      and no mutex, is left at a higher priority. */
  method DeleteInDeadlock() returns (k: MutexKernel)
    ensures !Inv(k.tcb, k.mtx) && |k.tcb| == 2
    ensures k.tcb[0].held == [] && k.tcb[0].bpri == 10 && k.tcb[0].pri < 10
  {
    k := Deadlock();
    var T, M := k.tcb, k.mtx;
    DeadlockComesRound();
    var _ := k.DelMtx(0);
    assert Without([0], 0) == [];
    NothingHeld(k.tcb, k.mtx, 0);
  }

  /** Without mutexes the equation asks for the base priority. */
  lemma NothingHeld(T: seq<Tcb>, M: seq<Mtx>, t: nat)
    requires LeftTooHigh(T, M, t) && T[t].held == []
    ensures T[t].pri < T[t].bpri
  {
  }

  /** Terminating the second task in the deadlock: it is dormant and waits for the first mutex. */
  method TerminateInDeadlock() returns (k: MutexKernel)
    ensures !Inv(k.tcb, k.mtx) && |k.tcb| == |k.mtx| == 2
    ensures k.tcb[1].status.Dormant? && 1 in k.mtx[0].queue
  {
    k := Deadlock();
    DeadlockComesRound();
    var _ := k.TerTsk(1);
  }
}
