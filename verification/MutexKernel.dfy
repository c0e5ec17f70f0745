/** The mutex calls of kernel/tkernel/mutex.c, in place on the control-block tables. */
module MutexCalls {
  import opened Options
  import opened Lists
  import opened MutexState
  import opened MutexSteps
  import opened MutexTheory
  import opened MutexRounds
  import opened MutexWaves

  datatype Ercd = E_OK | E_NOEXS | E_ILUSE | E_OBJ | E_TMOUT | E_PAR | E_LIMIT

  /** What knl_chg_pri_mutex returns: a priority or E_ILUSE. */
  datatype Limit = Priority(pri: int) | Illegal

  /** Everything of a task but its current priority. */
  function Strip(T: seq<Tcb>): (r: seq<Tcb>)
    ensures |r| == |T|
    ensures forall t :: 0 <= t < |T| ==> r[t] == T[t].(pri := 0)
  {
    seq(|T|, t requires 0 <= t < |T| => T[t].(pri := 0))
  }

  /** Bound on the number of priority changes left, for changes in one direction. */
  ghost function Measure(T: seq<Tcb>, up: bool): int {
    if up then SumPri(T) else NUM_TSKPRI * |T| - SumPri(T)
  }

  function AllBlocks(n: nat): seq<nat> {
    seq(n, i => i)
  }

  lemma AllPooled(M: seq<Mtx>)
    requires forall m :: 0 <= m < |M| ==> !M[m].live
    ensures Pooled(M, AllBlocks(|M|))
  {
    forall m: nat | m < |M| ensures m in AllBlocks(|M|) { assert AllBlocks(|M|)[m] == m; }
  }

  /** The control blocks on the free list are exactly those in no use. */
  predicate Pooled(M: seq<Mtx>, free: seq<nat>) {
    Distinct(free) && Within(free, |M|) && forall m: nat :: m < |M| ==> (m in free <==> !M[m].live)
  }

  class MutexKernel {
    var tcb: seq<Tcb>
    var mtx: seq<Mtx>
    var free: seq<nat>

    /** knl_mutex_initialize: no task and no mutex exists yet. */
    constructor (tasks: nat, mutexes: nat)
      ensures Inv(tcb, mtx) && Acyclic(tcb, mtx) && Pooled(mtx, free)
      ensures |tcb| == tasks && |mtx| == mutexes && free == AllBlocks(mutexes)
      ensures forall t :: 0 <= t < tasks ==> tcb[t] == Tcb(0, 0, 0, NonExistent, [])
      ensures forall m :: 0 <= m < mutexes ==> mtx[m] == Mtx(false, Fifo, 0, None, [])
    {
      tcb := seq(tasks, t => Tcb(0, 0, 0, NonExistent, []));
      mtx := seq(mutexes, m => Mtx(false, Fifo, 0, None, []));
      free := [];
      new;
      while |free| < mutexes
        invariant tcb == seq(tasks, t => Tcb(0, 0, 0, NonExistent, [])) && mtx == seq(mutexes, m => Mtx(false, Fifo, 0, None, []))
        invariant |free| <= mutexes && free == AllBlocks(|free|)
      {
        free := free + [|free|];
      }
      AllPooled(mtx);
    }

    // ----- Creation (task_manage.c, mutex.c)

    /** tk_cre_tsk on the block t just taken off the list of free task blocks. */
    method CreTsk(t: nat, pri: int) returns (r: Ercd)
      requires Inv(tcb, mtx) && t < |tcb| && tcb[t].status.NonExistent?
      modifies this`tcb
      ensures r == if 0 <= pri < NUM_TSKPRI then E_OK else E_PAR
      ensures tcb == if r == E_OK then old(tcb)[t := Tcb(pri, pri, pri, Dormant, [])] else old(tcb)
      ensures Inv(tcb, mtx) && (Acyclic(old(tcb), mtx) ==> Acyclic(tcb, mtx))
    {
      if !(0 <= pri < NUM_TSKPRI) { return E_PAR; }
      ghost var T := tcb;
      tcb := tcb[t := Tcb(pri, pri, pri, Dormant, [])];
      AsideInv(T, mtx, tcb, t);
      KeepAcyclic(T, mtx, tcb, mtx);
      return E_OK;
    }

    /** tk_sta_tsk; loaded says that a processor still has t's old context. */
    method StaTsk(t: nat, loaded: bool) returns (r: Ercd)
      requires Inv(tcb, mtx) && t < |tcb|
      modifies this`tcb
      ensures r == if old(tcb[t].status).NonExistent? then E_NOEXS else if !old(tcb[t].status).Dormant? || loaded then E_OBJ else E_OK
      ensures tcb == if r == E_OK then old(tcb)[t := old(tcb[t]).(status := Runnable)] else old(tcb)
      ensures Inv(tcb, mtx) && (Acyclic(old(tcb), mtx) ==> Acyclic(tcb, mtx))
    {
      if !tcb[t].status.Dormant? {
        return if tcb[t].status.NonExistent? then E_NOEXS else E_OBJ;
      }
      if loaded { return E_OBJ; }
      ghost var T := tcb;
      assert TaskOk(T, mtx, WHOLE, t);
      tcb := tcb[t := tcb[t].(status := Runnable)];
      WokenInv(T, mtx, t);
      KeepAcyclic(T, mtx, tcb, mtx);
      return E_OK;
    }

    /** tk_cre_mtx: the first free control block, or E_LIMIT. */
    method CreMtx(proto: Protocol, ceil: int) returns (r: Ercd, m: nat)
      requires Inv(tcb, mtx) && Pooled(mtx, free)
      modifies this`mtx, this`free
      ensures r == if proto == Ceiling && !(0 <= ceil < NUM_TSKPRI) then E_PAR else if old(free) == [] then E_LIMIT else E_OK
      ensures r != E_OK ==> mtx == old(mtx) && free == old(free)
      ensures r == E_OK ==> m == old(free)[0] < |mtx| && free == old(free)[1..]
      ensures r == E_OK ==> mtx == old(mtx)[m := Mtx(true, proto, if proto == Ceiling then ceil else 0, None, [])]
      ensures Inv(tcb, mtx) && Pooled(mtx, free) && (Acyclic(tcb, old(mtx)) ==> Acyclic(tcb, mtx))
    {
      m := 0;
      if proto == Ceiling && !(0 <= ceil < NUM_TSKPRI) { return E_PAR, m; }
      if free == [] { return E_LIMIT, m; }
      ghost var M, old_free := mtx, free;
      m := free[0];
      free := free[1..];
      mtx := mtx[m := Mtx(true, proto, if proto == Ceiling then ceil else 0, None, [])];
      assert m in old_free;
      CreatedInv(tcb, M, mtx, m);
      CreatedPooled(M, mtx, old_free, m);
      return E_OK, m;
    }

    // ----- Priority-ordered insertion and reordering (wait.h, wait.c)

    /** knl_queue_insert_tpri: t goes in front of the first waiter of lower priority. */
    method QueueInsertTpri(m: nat, t: nat)
      requires m < |mtx| && t < |tcb| && Within(mtx[m].queue, |tcb|)
      modifies this`mtx
      ensures mtx == old(mtx)[m := old(mtx[m]).(queue := InsertAt(old(mtx[m].queue), Place(tcb, old(mtx[m].queue), tcb[t].pri), t))]
    {
      var q := mtx[m].queue;
      var k := 0;
      while k < |q|
        invariant 0 <= k <= |q|
        invariant Within(q[k..], |tcb|)
        invariant Place(tcb, q, tcb[t].pri) == k + Place(tcb, q[k..], tcb[t].pri)
      {
        if tcb[q[k]].pri > tcb[t].pri { break; }
        assert q[k..][1..] == q[k + 1..];
        k := k + 1;
      }
      mtx := mtx[m := mtx[m].(queue := InsertAt(q, k, t))];
    }

    /** knl_gcb_change_priority: take t out of m's queue and put it back by priority. */
    method GcbChangePriority(m: nat, t: nat)
      requires m < |mtx| && t < |tcb| && Within(mtx[m].queue, |tcb|)
      modifies this`mtx
      ensures mtx == old(mtx)[m := old(mtx[m]).(queue := Moved(tcb, old(mtx[m].queue), t))]
    {
      var r := Without(mtx[m].queue, t);
      forall i | 0 <= i < |r| ensures r[i] < |tcb| { assert r[i] in mtx[m].queue; }
      mtx := mtx[m := mtx[m].(queue := r)];
      QueueInsertTpri(m, t);
    }

    // ----- The recursion: knl_change_task_priority, mtx_chg_pri, knl_release_mutex

    /** Give t the priority p, which its equation asks for, and pass the change on to
        whoever holds what t waits for, until every equation holds again; 'back' when the
        change comes round to what x exempts. */
    method ChangeTaskPriority(t: nat, p: int, ghost x: Exempt, ghost v: Pledge, ghost f: Fall) returns (ghost back: bool)
      requires Heading(tcb, mtx, x, v, f, t, p)
      modifies this`tcb, this`mtx
      ensures Landed(old(tcb), old(mtx), tcb, mtx, x, v, f, t, p, back)
      ensures !old(tcb[t].status).WaitMutex? ==> mtx == old(mtx) && tcb == old(tcb)[t := old(tcb[t]).(pri := p)]
      decreases if p < tcb[t].pri then 0 else 1, Measure(tcb, p < tcb[t].pri), if p == tcb[t].pri then 4 else 0
    {
      ghost var T, M := tcb, mtx;
      var oldpri := tcb[t].pri;
      assert TaskOk(T, M, x, t);
      MeasureStep(T, M, x, t, p);
      tcb := tcb[t := tcb[t].(pri := p)];
      if tcb[t].status.WaitMutex? && mtx[tcb[t].status.m].proto != Fifo {
        back := MtxChgPri(t, oldpri, T, x, v, f);
      } else {
        back := false;
        ChangeEnds(T, M, x, v, f, t, p, tcb, mtx);
      }
    }

    static lemma MeasureStep(T: seq<Tcb>, M: seq<Mtx>, x: Exempt, t: nat, p: int)
      requires Wf(T, M, x) && t < |T| && 0 <= p < NUM_TSKPRI
      ensures var T', up := T[t := T[t].(pri := p)], p < T[t].pri;
        0 <= Measure(T', up) <= Measure(T, up) && (p != T[t].pri ==> Measure(T', up) < Measure(T, up))
    {
      forall u | 0 <= u < |T| ensures 0 <= T[u].pri < NUM_TSKPRI { assert TaskOk(T, M, x, u); }
      SumPriUpdate(T, t, T[t].(pri := p));
      SumPriBounds(T[t := T[t].(pri := p)]);
      SumPriBounds(T);
    }

    /** The hook of a task waiting for a mutex whose priority was just changed from oldpri. */
    method MtxChgPri(t: nat, oldpri: int, ghost T0: seq<Tcb>, ghost x: Exempt, ghost v: Pledge, ghost f: Fall) returns (ghost back: bool)
      requires t < |T0| && |tcb| == |T0| && oldpri == T0[t].pri && Heading(T0, mtx, x, v, f, t, tcb[t].pri)
      requires tcb == T0[t := T0[t].(pri := tcb[t].pri)] && Requeues(T0, mtx, t)
      modifies this`tcb, this`mtx
      ensures Landed(T0, old(mtx), tcb, mtx, x, v, f, t, old(tcb[t].pri), back)
      decreases if tcb[t].pri < oldpri then 0 else 1, Measure(tcb, tcb[t].pri < oldpri), 3
    {
      ghost var M := mtx;
      ghost var p := tcb[t].pri;
      var m := tcb[t].status.m;
      assert TaskOk(T0, M, x, t) && MutexOk(T0, M, x, m);
      GcbChangePriority(m, t);
      assert RepriStep(T0, M, t, p, tcb, mtx);
      if mtx[m].proto == Inherit {
        back := PassToHolder(mtx[m].owner.value, t, oldpri, T0, M, x, v, f);
      } else {
        back := false;
        ChangeEnds(T0, M, x, v, f, t, p, tcb, mtx);
      }
    }

    /** The second half of mtx_chg_pri: raise the holder to its new waiter priority, or
        recompute it when its old priority may have come from this waiter. */
    method PassToHolder(o: nat, t: nat, oldpri: int, ghost T0: seq<Tcb>, ghost M0: seq<Mtx>, ghost x: Exempt, ghost v: Pledge,
                        ghost f: Fall) returns (ghost back: bool)
      requires t < |T0| && |tcb| == |T0| && oldpri == T0[t].pri && Heading(T0, M0, x, v, f, t, tcb[t].pri)
      requires RepriStep(T0, M0, t, tcb[t].pri, tcb, mtx) && Blocks(T0, M0, t, o)
      modifies this`tcb, this`mtx
      ensures Landed(T0, M0, tcb, mtx, x, v, f, t, old(tcb[t].pri), back)
      decreases if tcb[t].pri < oldpri then 0 else 1, Measure(tcb, tcb[t].pri < oldpri), 2
    {
      ghost var T1, M1 := tcb, mtx;
      ghost var p := tcb[t].pri;
      ghost var way := WayOf(T0, x, t, p);
      HolderReady(T0, M0, x, v, f, t, p, o, T1, M1, way);
      ghost var x1, v1, f1 := ExemptOn(x, way), PledgeOn(v, way, o, p), FallOn(f, way, t);
      if tcb[o].pri > tcb[t].pri {
        ghost var b := ChangeTaskPriority(o, tcb[t].pri, x1, v1, f1);
        back := !way.Up?;
        RaisedLands(T0, M0, x, v, f, t, p, o, T1, M1, tcb, mtx, way, b);
      } else if tcb[o].pri == oldpri {
        ghost var b := ReleaseMutex(o, None, x1, f1);
        back := b || way.ToTask?;
        LoweredLands(T0, M0, x, v, f, t, p, o, T1, M1, tcb, mtx, way, b);
      } else {
        back := way.ToTask?;
      }
    }

    /** knl_release_mutex: drop rel (if any) from t's list and lower t to the highest of its
        base priority, the ceilings it still holds and the waiters it still blocks. */
    method ReleaseMutex(t: nat, rel: Option<nat>, ghost x: Exempt, ghost f: Fall) returns (ghost back: bool)
      requires Releasing(tcb, mtx, x, f, t, rel)
      modifies this`tcb, this`mtx
      ensures Released(Dropped(old(tcb), t, rel), old(mtx), tcb, mtx, Apart(x, rel), f, t, back)
      ensures !old(tcb[t].status).WaitMutex? ==> mtx == old(mtx) && forall u :: 0 <= u < |tcb| && u != t ==> tcb[u] == old(tcb[u])
      decreases 1, Measure(tcb, false), 1
    {
      ghost var T, M := tcb, mtx;
      assert TaskOk(T, M, x, t);
      var newpri := EffectiveOf(t, rel, x);
      ghost var x' := Apart(x, rel);
      ReleaseDrops(T, M, x, f, t, rel);
      if rel.Some? {
        tcb := Detached(tcb, t, rel.value);
      }
      ghost var T1 := tcb;
      assert T1[t].pri <= newpri;
      if newpri != tcb[t].pri {
        ReleaseHeads(T1, M, x', f, t, newpri);
        back := ChangeTaskPriority(t, newpri, x', NoPledge, f);
        ReleaseLands(T1, M, tcb, mtx, x', f, t, newpri, back);
      } else {
        back := false;
        ReleaseStays(T1, M, x', f, t);
      }
    }

    /** The loop of knl_release_mutex: the priority t should have once rel is gone. */
    method EffectiveOf(t: nat, rel: Option<nat>, ghost x: Exempt) returns (newpri: int)
      requires Wf(tcb, mtx, x) && t < |tcb|
      ensures 0 <= newpri < NUM_TSKPRI
      ensures Effective(Dropped(tcb, t, rel), mtx, NoPledge, t, newpri)
    {
      HeldOk(tcb, mtx, x, t);
      newpri := ScanKept(tcb, mtx, tcb[t].held, rel, tcb[t].bpri);
      KeptEffective(tcb, mtx, t, rel);
    }

    static method ScanKept(T: seq<Tcb>, M: seq<Mtx>, list: seq<nat>, rel: Option<nat>, base: int) returns (newpri: int)
      requires ListOk(T, M, list) && 0 <= base < NUM_TSKPRI
      ensures 0 <= newpri < NUM_TSKPRI && ListOk(T, M, Kept(list, rel)) && newpri == Lowest(T, M, Kept(list, rel), base)
    {
      newpri := base;
      var pri := newpri;
      var i := 0;
      assert Kept(list[..0], rel) == [];
      while i < |list|
        invariant 0 <= i <= |list| && 0 <= newpri <= pri < NUM_TSKPRI
        invariant ListOk(T, M, Kept(list[..i], rel)) && newpri == Lowest(T, M, Kept(list[..i], rel), base)
      {
        var m := list[i];
        assert list[..i + 1] == list[..i] + [m];
        KeptStep(T, M, list[..i], m, rel, base, newpri, pri);
        if rel != Some(m) {
          pri := Offered(T, M, m, pri);
          if newpri > pri { newpri := pri; }
        }
        i := i + 1;
      }
      assert list[..i] == list;
    }

    static lemma KeptStep(T: seq<Tcb>, M: seq<Mtx>, l: seq<nat>, m: nat, rel: Option<nat>, base: int, newpri: int, pri: int)
      requires OfferOk(T, M, m) && ListOk(T, M, Kept(l, rel)) && newpri == Lowest(T, M, Kept(l, rel), base) && 0 <= newpri <= pri < NUM_TSKPRI
      ensures 0 <= Offered(T, M, m, pri) < NUM_TSKPRI && ListOk(T, M, Kept(l + [m], rel))
      ensures Lowest(T, M, Kept(l + [m], rel), base) == if rel != Some(m) && Offered(T, M, m, pri) < newpri then Offered(T, M, m, pri) else newpri
    {
      KeptSnoc(l, m, rel);
      LowestSnoc(T, M, Kept(l, rel), m, base, pri);
    }

    // ----- Handing a mutex over

    /** Make w the holder of m: it leaves the queue if it waited, and a ceiling raises it. */
    method Give(w: nat, m: nat, ghost x: Exempt, ghost e: set<nat>)
      requires Wf(tcb, mtx, x) && CanGive(tcb, mtx, x, w, m) && Balanced(tcb, mtx, NoPledge, e) && w !in e
      modifies this`tcb, this`mtx
      ensures Wf(tcb, mtx, x.(mutex := None)) && Balanced(tcb, mtx, NoPledge, e)
      ensures mtx == GivenMtx(old(mtx), w, m)
      ensures Strip(tcb) == Strip(GivenTcb(old(tcb), w, m)) && tcb[w].pri <= old(tcb[w].pri)
      ensures forall u :: 0 <= u < |tcb| && u != w ==> tcb[u] == old(tcb[u])
      ensures Tamer(old(tcb), old(mtx), tcb, mtx)
    {
      ghost var T, M := tcb, mtx;
      if mtx[m].queue != [] {
        mtx := mtx[m := mtx[m].(queue := mtx[m].queue[1..])];
        tcb := tcb[w := tcb[w].(status := Runnable)];
      }
      mtx := mtx[m := mtx[m].(owner := Some(w))];
      tcb := tcb[w := tcb[w].(held := [m] + tcb[w].held)];
      assert mtx == GivenMtx(M, w, m) && tcb == GivenTcb(T, w, m);
      GiveWf(T, M, x, w, m);
      GiveOthers(T, M, x, NoPledge, w, m, e);
      GiveHolder(T, M, x, w, m);
      if mtx[m].proto == Ceiling && tcb[w].pri > mtx[m].ceil {
        CeilingInRange(T, M, x, m);
        ChangeRunnable(w, mtx[m].ceil, x.(mutex := None), e);
      } else {
        BalancedHolder(tcb, mtx, w, e);
      }
      GivenTamer(T, M, tcb, mtx, w, m);
    }

    /** knl_change_task_priority on a task that is not waiting: no hook runs. */
    method ChangeRunnable(w: nat, p: int, ghost x: Exempt, ghost e: set<nat>)
      requires Wf(tcb, mtx, x) && w < |tcb| && tcb[w].status.Runnable? && 0 <= p < NUM_TSKPRI && w !in e && x.task != Some(w)
      requires Balanced(tcb, mtx, NoPledge, e + {w}) && Effective(tcb, mtx, NoPledge, w, p)
      modifies this`tcb, this`mtx
      ensures Wf(tcb, mtx, x) && Balanced(tcb, mtx, NoPledge, e)
      ensures mtx == old(mtx) && tcb == old(tcb)[w := old(tcb[w]).(pri := p)]
    {
      ghost var T := tcb;
      tcb := tcb[w := tcb[w].(pri := p)];
      assert RepriStep(T, mtx, w, p, tcb, mtx);
      RepriWf(T, mtx, x, w, p, tcb, mtx);
      forall u | 0 <= u < |T| && u !in e ensures Effective(tcb, mtx, NoPledge, u, tcb[u].pri) {
        RepriLocal(T, mtx, x, NoPledge, w, p, tcb, mtx, u, tcb[u].pri);
      }
    }

    /** Lock m for the running task ctx (tk_loc_mtx); poll is a timeout of TMO_POL. */
    method LocMtx(ctx: nat, m: nat, poll: bool) returns (r: Ercd)
      requires Inv(tcb, mtx) && ctx < |tcb| && m < |mtx| && tcb[ctx].status.Runnable?
      modifies this`tcb, this`mtx
      ensures Inv(tcb, mtx)
      ensures var M := old(mtx[m]);
        r == if !M.live then E_NOEXS
             else if M.owner == Some(ctx) || (M.proto == Ceiling && old(tcb[ctx].bpri) < M.ceil) then E_ILUSE
             else if M.owner.None? then E_OK else E_TMOUT
      ensures r == E_OK ==> mtx == GivenMtx(old(mtx), ctx, m) && Strip(tcb) == Strip(GivenTcb(old(tcb), ctx, m))
      ensures r == E_OK ==> mtx == old(mtx)[m := old(mtx[m]).(owner := Some(ctx))]
      ensures r == E_OK ==> tcb == old(tcb)[ctx := old(tcb[ctx]).(held := [m] + old(tcb[ctx].held), pri := tcb[ctx].pri)]
      ensures r != E_OK && (r != E_TMOUT || poll) ==> tcb == old(tcb) && mtx == old(mtx)
      ensures r == E_TMOUT && !poll ==> Joined(old(tcb), old(mtx), tcb, mtx, ctx, m)
      ensures Acyclic(old(tcb), old(mtx)) ==>
        (Acyclic(tcb, mtx) <==> !(r == E_TMOUT && !poll && Deadlocks(old(tcb), old(mtx), ctx, m)))
    {
      assert MutexOk(tcb, mtx, WHOLE, m);
      if !mtx[m].live { return E_NOEXS; }
      if mtx[m].owner == Some(ctx) { return E_ILUSE; }
      if mtx[m].proto == Ceiling && tcb[ctx].bpri < mtx[m].ceil { return E_ILUSE; }
      if mtx[m].owner.None? {
        Give(ctx, m, WHOLE, {});
        KeepAcyclic(old(tcb), old(mtx), tcb, mtx);
        return E_OK;
      }
      r := E_TMOUT;
      if !poll {
        WaitFor(ctx, m);
        JoinedAcyclic(old(tcb), old(mtx), tcb, mtx, ctx, m);
      }
    }

    /** The blocking half of tk_loc_mtx: raise the holder if need be, then queue up. */
    method WaitFor(ctx: nat, m: nat)
      requires Inv(tcb, mtx) && CanJoin(tcb, mtx, ctx, m)
      modifies this`tcb, this`mtx
      ensures Inv(tcb, mtx)
      ensures Joined(old(tcb), old(mtx), tcb, mtx, ctx, m)
    {
      ghost var T, M := tcb, mtx;
      ghost var v := RaiseHolder(ctx, m);
      ghost var T1, M1 := tcb, mtx;
      mtx := JoinedMtx(tcb, mtx, ctx, m);
      tcb := JoinedTcb(tcb, ctx, m);
      JoinWf(T1, M1, ctx, m);
      JoinBalanced(T1, M1, v, ctx, m);
      JoinedIntro(T, M, T1, M1, tcb, mtx, ctx, m, M[m].owner.value);
    }

    /** Lift the holder of an inheritance mutex to the priority of the task about to wait. */
    method RaiseHolder(ctx: nat, m: nat) returns (ghost v: Pledge)
      requires Inv(tcb, mtx) && CanJoin(tcb, mtx, ctx, m)
      modifies this`tcb, this`mtx
      ensures Wf(tcb, mtx, WHOLE) && Balanced(tcb, mtx, v, {}) && CanJoin(tcb, mtx, ctx, m)
      ensures PriOnly(old(tcb), old(mtx), tcb, mtx, old(mtx[m].owner.value), true) && tcb[ctx] == old(tcb[ctx])
      ensures v.Pledge? ==> mtx[m].proto == Inherit && mtx[m].owner == Some(v.task) && v.pri == tcb[ctx].pri
      ensures v.NoPledge? ==> tcb == old(tcb) && mtx == old(mtx)
      ensures v.NoPledge? && mtx[m].proto == Inherit ==> mtx[m].owner.value < |tcb| && tcb[mtx[m].owner.value].pri <= tcb[ctx].pri
      ensures forall u :: 0 <= u < |tcb| && tcb[u].pri != old(tcb[u].pri) ==> tcb[u].pri == old(tcb[ctx].pri)
    {
      ghost var T, M := tcb, mtx;
      assert MutexOk(T, M, WHOLE, m) && TaskOk(T, M, WHOLE, ctx);
      var o := mtx[m].owner.value;
      v := NoPledge;
      if mtx[m].proto == Inherit && tcb[o].pri > tcb[ctx].pri {
        v := Pledge(o, tcb[ctx].pri);
        PledgeMade(T, M, o, T[ctx].pri);
        ghost var _ := ChangeTaskPriority(o, tcb[ctx].pri, WHOLE, v, NO_FALL);
        assert MutexOk(tcb, mtx, WHOLE, m);
      }
    }

    /** Unlock m for the running task ctx (tk_unl_mtx). */
    method UnlMtx(ctx: nat, m: nat) returns (r: Ercd)
      requires Inv(tcb, mtx) && ctx < |tcb| && m < |mtx| && tcb[ctx].status.Runnable?
      modifies this`tcb, this`mtx
      ensures Inv(tcb, mtx)
      ensures r == if !old(mtx[m].live) then E_NOEXS else if old(mtx[m].owner) != Some(ctx) then E_ILUSE else E_OK
      ensures r != E_OK ==> tcb == old(tcb) && mtx == old(mtx)
      ensures r == E_OK ==> Passed(old(tcb), old(mtx), tcb, mtx, ctx, m)
      ensures r == E_OK ==> var q := old(mtx[m].queue);
        mtx == old(mtx)[m := old(mtx[m]).(owner := if q == [] then None else Some(q[0]), queue := if q == [] then [] else q[1..])]
      ensures Acyclic(old(tcb), old(mtx)) ==> Acyclic(tcb, mtx)
    {
      if !mtx[m].live { return E_NOEXS; }
      if mtx[m].owner != Some(ctx) { return E_ILUSE; }
      assert MutexOk(tcb, mtx, WHOLE, m);
      ghost var f := ReleaseReady(tcb, mtx, ctx, m);
      ghost var back := ReleaseMutex(ctx, Some(m), WHOLE, f);
      EndsHere(f, ctx);
      ghost var T1, M1 := tcb, mtx;
      UnlockedHolder(old(tcb), old(mtx), T1, M1, ctx, m, f, back);
      PassOn(m, {}, None);
      PassedIntro(old(tcb), old(mtx), T1, tcb, mtx, ctx, m);
      PassedTamer(old(tcb), old(mtx), tcb, mtx, ctx, m);
      KeepAcyclic(old(tcb), old(mtx), tcb, mtx);
      return E_OK;
    }

    /** Which priority a change to 'priority' may give task t (knl_chg_pri_mutex). */
    method ChgPriMutex(t: nat, priority: int) returns (r: Limit)
      requires Wf(tcb, mtx, WHOLE) && t < |tcb| && 0 <= priority < NUM_TSKPRI
      ensures r.Illegal? <==> AboveCeiling(tcb, mtx, t, priority)
      ensures r.Priority? ==> 0 <= r.pri < NUM_TSKPRI && Effective(tcb[t := tcb[t].(bpri := priority)], mtx, NoPledge, t, r.pri)
    {
      var low := 0;
      assert TaskOk(tcb, mtx, WHOLE, t);
      if tcb[t].status.WaitMutex? && mtx[tcb[t].status.m].proto == Ceiling {
        assert MutexOk(tcb, mtx, WHOLE, tcb[t].status.m);
        if mtx[tcb[t].status.m].ceil > low { low := mtx[tcb[t].status.m].ceil; }
      }
      ghost var awaited := low;
      var hi;
      HeldOk(tcb, mtx, WHOLE, t);
      hi, low := ScanHeld(tcb, mtx, tcb[t].held, priority, low);
      RebasedLowest(tcb, mtx, t, priority);
      CeilingBound(tcb, mtx, t, priority, low, awaited);
      if priority < low { return Illegal; }
      return Priority(hi);
    }

    /** The loop of knl_chg_pri_mutex over the mutexes t holds. */
    static method ScanHeld(T: seq<Tcb>, M: seq<Mtx>, list: seq<nat>, priority: int, awaited: int) returns (hi: int, low: int)
      requires ListOk(T, M, list) && 0 <= priority < NUM_TSKPRI
      ensures 0 <= hi < NUM_TSKPRI && hi == Lowest(T, M, list, priority)
      ensures LowestCeiling(M, list, awaited, low)
    {
      hi, low := priority, awaited;
      var pri := hi;
      var i := 0;
      while i < |list|
        invariant 0 <= i <= |list| && 0 <= hi <= pri < NUM_TSKPRI
        invariant ListOk(T, M, list[..i]) && hi == Lowest(T, M, list[..i], priority)
        invariant LowestCeiling(M, list[..i], awaited, low)
      {
        var m := list[i];
        assert list[..i + 1] == list[..i] + [m];
        HeldStep(T, M, list[..i], m, priority, awaited, hi, low, pri);
        pri := Offered(T, M, m, pri);
        if M[m].proto == Ceiling && pri > low { low := pri; }
        if pri < hi { hi := pri; }
        i := i + 1;
      }
      assert list[..i] == list;
    }

    static lemma HeldStep(T: seq<Tcb>, M: seq<Mtx>, l: seq<nat>, m: nat, priority: int, awaited: int, hi: int, low: int, pri: int)
      requires OfferOk(T, M, m) && ListOk(T, M, l) && hi == Lowest(T, M, l, priority) && 0 <= hi <= pri < NUM_TSKPRI &&
          LowestCeiling(M, l, awaited, low)
      ensures var q := Offered(T, M, m, pri);
        && 0 <= q < NUM_TSKPRI && ListOk(T, M, l + [m]) && Lowest(T, M, l + [m], priority) == (if q < hi then q else hi)
        && LowestCeiling(M, l + [m], awaited, if M[m].proto == Ceiling && q > low then q else low)
    {
      LowestSnoc(T, M, l, m, priority, pri);
      LowestCeilingStep(M, l, m, awaited, low, if M[m].proto == Ceiling && M[m].ceil > low then M[m].ceil else low);
    }

    /** Change the base priority of t (tk_chg_pri). */
    method ChgPri(t: nat, priority: int) returns (r: Ercd)
      requires Inv(tcb, mtx) && t < |tcb| && 0 <= priority < NUM_TSKPRI
      modifies this`tcb, this`mtx
      ensures Inv(tcb, mtx)
      ensures r == if old(tcb[t].status).NonExistent? then E_NOEXS
                   else if AboveCeiling(old(tcb), old(mtx), t, priority) then E_ILUSE else E_OK
      ensures r != E_OK ==> tcb == old(tcb) && mtx == old(mtx)
      ensures r == E_OK ==>
        var T := old(tcb)[t := old(tcb[t]).(bpri := priority)];
        && (PriOnly(T, old(mtx), tcb, mtx, t, true) || PriOnly(T, old(mtx), tcb, mtx, t, false))
        && (Effective(T, old(mtx), NoPledge, t, T[t].pri) ==> tcb == T)
        && BehindEqualsIn(T, tcb, mtx, t)
      ensures r == E_OK ==> BehindFellows(old(tcb), old(mtx), tcb, mtx, t)
      ensures Acyclic(old(tcb), old(mtx)) ==> Acyclic(tcb, mtx)
    {
      if tcb[t].status.NonExistent? { return E_NOEXS; }
      var lim := ChgPriMutex(t, priority);
      if lim.Illegal? { return E_ILUSE; }
      ghost var T, M := tcb, mtx;
      tcb := tcb[t := tcb[t].(bpri := priority)];
      RebaseInv(T, M, t, priority);
      ghost var T1 := tcb;
      ghost var _ := ChangeTaskPriority(t, lim.pri, WHOLE, NoPledge, NO_FALL);
      assert PriOnly(T1, M, tcb, mtx, t, lim.pri < T1[t].pri);
      if Effective(T1, M, NoPledge, t, T1[t].pri) { EffectiveUnique(T1, M, NoPledge, t, T1[t].pri, lim.pri); }
      KeepAcyclic(T, M, tcb, mtx);
      FellowsBehind(T, M, T1, tcb, mtx, t, priority, lim.pri < T1[t].pri);
      return E_OK;
    }

    /** End the wait of t from outside (tk_rel_wai, or a timeout). */
    method RelWai(t: nat) returns (r: Ercd)
      requires Inv(tcb, mtx) && t < |tcb|
      modifies this`tcb, this`mtx
      ensures Inv(tcb, mtx)
      ensures var s := old(tcb[t].status); r == if s.WaitMutex? || s.WaitOther? then E_OK else if s.NonExistent? then E_NOEXS else E_OBJ
      ensures r != E_OK ==> tcb == old(tcb) && mtx == old(mtx)
      ensures r == E_OK ==> PriOnly(old(tcb)[t := old(tcb[t]).(status := Runnable)],
                                    if old(tcb[t].status).WaitMutex? &&
                                        old(tcb[t].status).m < |old(mtx)| then LeftMtx(old(mtx), t, old(tcb[t].status).m) else old(mtx),
                                    tcb, mtx, HolderOf(old(tcb), old(mtx), t), false)
      ensures Acyclic(old(tcb), old(mtx)) ==> Acyclic(tcb, mtx)
    {
      ghost var T, M := tcb, mtx;
      match tcb[t].status {
        case NonExistent => return E_NOEXS;
        case Dormant => return E_OBJ;
        case Runnable => return E_OBJ;
        case WaitOther =>
          tcb := tcb[t := tcb[t].(status := Runnable)];
          WokenInv(T, M, t);
          KeepAcyclic(T, M, tcb, mtx);
          return E_OK;
        case WaitMutex(m) =>
          assert TaskOk(T, M, WHOLE, t);
          LeaveQueue(t, m);
          KeepAcyclic(T, M, tcb, mtx);
          return E_OK;
      }
    }

    /** knl_wait_release_ng on a task waiting for mutex m: off the queue, runnable, then the hook. */
    method LeaveQueue(t: nat, m: nat)
      requires Inv(tcb, mtx) && t < |tcb| && m < |mtx| && tcb[t].status == WaitMutex(m)
      modifies this`tcb, this`mtx
      ensures Inv(tcb, mtx)
      ensures PriOnly(old(tcb)[t := old(tcb[t]).(status := Runnable)], LeftMtx(old(mtx), t, m), tcb, mtx, HolderOf(old(tcb), old(mtx), t), false)
    {
      ghost var T, M := tcb, mtx;
      assert TaskOk(T, M, WHOLE, t) && MutexOk(T, M, WHOLE, m);
      mtx := LeftMtx(mtx, t, m);
      tcb := tcb[t := tcb[t].(status := Runnable)];
      LeaveWf(T, M, t, m, Runnable);
      if mtx[m].proto == Inherit {
        var o := mtx[m].owner.value;
        LeaveOthers(T, M, t, m, Runnable, {o});
        LeaveHolder(T, M, t, m, Runnable, o);
        ghost var _ := MtxRelWai(t, o, WHOLE, NO_FALL);
      } else {
        LeaveOthers(T, M, t, m, Runnable, {});
      }
    }

    /** mtx_rel_wai: t no longer waits on o's mutex; recompute o if its priority may have come from t. */
    method MtxRelWai(t: nat, o: nat, ghost x: Exempt, ghost f: Fall) returns (ghost back: bool)
      requires t < |tcb| && Releasing(tcb, mtx, x, f, o, None)
      requires tcb[o].pri != tcb[t].pri ==> Effective(tcb, mtx, NoPledge, o, tcb[o].pri)
      modifies this`tcb, this`mtx
      ensures Released(old(tcb), old(mtx), tcb, mtx, x, f, o, back)
    {
      if tcb[o].pri == tcb[t].pri {
        back := ReleaseMutex(o, None, x, f);
      } else {
        back := false;
        assert Balanced(tcb, mtx, NoPledge, {});
        if x != WHOLE { ArriveStays(f, tcb, mtx, x, o); }
      }
    }

    /** Delete m: its holder loses it, its waiters are released with E_DLT (tk_del_mtx). The
        invariant survives exactly when the fall of the holder does not come round; when it does,
        that task, and no other, keeps a priority above what its equation asks. */
    method DelMtx(m: nat) returns (r: Ercd)
      requires Inv(tcb, mtx) && m < |mtx| && Pooled(mtx, free)
      modifies this
      ensures Inv(tcb, mtx) <==> !DeletionComesRound(old(tcb), old(mtx), m)
      ensures DeletionComesRound(old(tcb), old(mtx), m) ==> LeftTooHigh(tcb, mtx, old(mtx[m].owner.value))
      ensures Pooled(mtx, free)
      ensures r == if old(mtx[m].live) then E_OK else E_NOEXS
      ensures r == E_NOEXS ==> tcb == old(tcb) && mtx == old(mtx) && free == old(free)
      ensures r == E_OK ==> Deleted(old(tcb), old(mtx), tcb, mtx, m) && free == old(free) + [m]
      ensures Acyclic(old(tcb), old(mtx)) ==> Acyclic(tcb, mtx)
    {
      if !mtx[m].live { return E_NOEXS; }
      ghost var T, M := tcb, mtx;
      if M[m].owner.Some? { OwnerKnown(T, M, m); }
      ghost var x, f, back := WHOLE, NO_FALL, false;
      if mtx[m].owner.Some? {
        f, back := DropHolder(mtx[m].owner.value, m);
        x := Exempt(Some(m), None);
      }
      ghost var T1, M1 := tcb, mtx;
      Discard(m, x, f, back);
      DeletedIntro(T, M, T1, M1, tcb, mtx, m, old(free));
      return E_OK;
    }

    /** What is left of tk_del_mtx once m is off its holder's list: the waiters are released, and the
        control block goes back to the free list. */
    method Discard(m: nat, ghost x: Exempt, ghost f: Fall, ghost back: bool)
      requires m < |mtx| && Wf(tcb, mtx, x) && mtx[m].live
      requires x == Exempt(Some(m), None) || (x == WHOLE && mtx[m].owner.None?)
      requires if back then Astray(tcb, mtx, f) else Balanced(tcb, mtx, NoPledge, {})
      modifies this
      ensures (Inv(tcb, mtx) <==> !back) && (back ==> LeftTooHigh(tcb, mtx, f.start))
      ensures free == old(free) + [m] && mtx == old(mtx)[m := old(mtx[m]).(queue := [], live := false)]
      ensures |tcb| == |old(tcb)|
      ensures forall u :: 0 <= u < |tcb| ==> tcb[u] == if u in old(mtx[m].queue) then old(tcb[u]).(status := Runnable) else old(tcb[u])
    {
      ghost var T1, M1 := tcb, mtx;
      ReleaseAll(m, x);
      ghost var M2 := mtx;
      mtx := mtx[m := mtx[m].(live := false)];
      free := free + [m];
      DeletionLands(T1, M1, tcb, M2, mtx, m, x, f, back);
    }

    /** The release of a mutex about to be deleted. */
    method DropHolder(o: nat, m: nat) returns (ghost f: Fall, ghost back: bool)
      requires Inv(tcb, mtx) && m < |mtx| && mtx[m].live && mtx[m].owner == Some(o) && o < |tcb|
      modifies this`tcb, this`mtx
      ensures back <==> DeletionComesRound(old(tcb), old(mtx), m)
      ensures Wf(tcb, mtx, Exempt(Some(m), None)) && SameBut(Detached(old(tcb), o, m), old(mtx), tcb, mtx, None)
      ensures if back then Astray(tcb, mtx, f) && f.start == o else Balanced(tcb, mtx, NoPledge, {})
      ensures forall n :: 0 <= n < |mtx| ==> Distinct(mtx[n].queue)
    {
      ghost var T, M := tcb, mtx;
      f := ReleaseReady(T, M, o, m);
      back := ReleaseMutex(o, Some(m), WHOLE, f);
      DeletionReturns(T, M, m, o, f.low);
      HolderDropped(T, M, tcb, mtx, f, o, m, back);
    }

    /** knl_wait_delete on m's queue. */
    method ReleaseAll(m: nat, ghost x: Exempt)
      requires m < |mtx| && Wf(tcb, mtx, x) && x.task.None?
      requires mtx[m].live && (x.mutex == Some(m) || (x == WHOLE && mtx[m].owner.None?))
      modifies this`tcb, this`mtx
      ensures Wf(tcb, mtx, x) && KeepsAsked(old(tcb), old(mtx), tcb, mtx)
      ensures mtx == old(mtx)[m := old(mtx[m]).(queue := [])]
      ensures |tcb| == |old(tcb)|
      ensures forall u :: 0 <= u < |tcb| ==> tcb[u] == if u in old(mtx[m].queue) then old(tcb[u]).(status := Runnable) else old(tcb[u])
    {
      ghost var q := mtx[m].queue;
      ghost var k := 0;
      while mtx[m].queue != []
        invariant m < |mtx| && Wf(tcb, mtx, x) && KeepsAsked(old(tcb), old(mtx), tcb, mtx)
        invariant mtx[m].live && (x.mutex == Some(m) || (x == WHOLE && mtx[m].owner.None?))
        invariant mtx == old(mtx)[m := old(mtx[m]).(queue := mtx[m].queue)]
        invariant |tcb| == |old(tcb)|
        invariant 0 <= k <= |q| && mtx[m].queue == q[k..]
        invariant forall u :: 0 <= u < |tcb| ==> tcb[u] == if u in q[..k] then old(tcb[u]).(status := Runnable) else old(tcb[u])
        decreases |mtx[m].queue|
      {
        ghost var T, M := tcb, mtx;
        var w := mtx[m].queue[0];
        assert MutexOk(T, M, x, m) && w in mtx[m].queue;
        mtx := mtx[m := mtx[m].(queue := mtx[m].queue[1..])];
        tcb := tcb[w := tcb[w].(status := Runnable)];
        DropHead(T, M, x, m);
        assert q[..k + 1] == q[..k] + [w];
        k := k + 1;
        assert mtx[m].queue == q[k..];
      }
      assert mtx[m].queue == [];
      assert q[..k] == q;
    }

    /** Terminate task t (tk_ter_tsk): end its wait, pass its mutexes on, make it dormant. The
        invariant survives exactly when t is not on a cycle of waits whose tasks hold each other
        up; when it is, the fall of the holder comes round and the dormant task is queued again. */
    method TerTsk(t: nat) returns (r: Ercd)
      requires Inv(tcb, mtx) && t < |tcb|
      modifies this`tcb, this`mtx
      ensures Inv(tcb, mtx) <==> !HeldByCycle(old(tcb), old(mtx), t)
      ensures var s := old(tcb[t].status); r == if s.NonExistent? then E_NOEXS else if s.Dormant? then E_OBJ else E_OK
      ensures r != E_OK ==> tcb == old(tcb) && mtx == old(mtx)
      ensures r == E_OK ==> Terminated(old(tcb), old(mtx), tcb, mtx, t, HeldByCycle(old(tcb), old(mtx), t))
      ensures Acyclic(old(tcb), old(mtx)) ==> Acyclic(tcb, mtx)
    {
      TerminationHeld(tcb, mtx, t);
      if tcb[t].status.NonExistent? { return E_NOEXS; }
      if tcb[t].status.Dormant? { return E_OBJ; }
      ghost var T, M := tcb, mtx;
      ghost var back := false;
      ghost var gone: Option<nat> := None;
      if tcb[t].status.WaitMutex? {
        back := CancelWait(t);
        gone := if back then None else Some(t);
      } else {
        assert TaskOk(T, M, WHOLE, t);
        NotQueued(T, M, t);
        NotCancelled(T, M, t);
      }
      ghost var T0, M1 := tcb, mtx;
      SignalAll(t, gone);
      ghost var T1, M2 := tcb, mtx;
      tcb := tcb[t := Tcb(tcb[t].ipri, tcb[t].ipri, tcb[t].ipri, Dormant, [])];
      TerminationLands(T, M, T0, M1, T1, M2, tcb, t, gone, back);
      TerminatedAcyclic(T, M, T0, M1, T1, mtx, tcb, t);
      return E_OK;
    }

    /** knl_wait_cancel and the release hook: t leaves its queue while still marked as waiting. */
    method CancelWait(t: nat) returns (ghost back: bool)
      requires Inv(tcb, mtx) && t < |tcb| && tcb[t].status.WaitMutex?
      modifies this`tcb, this`mtx
      ensures back <==> TerminationComesRound(old(tcb), old(mtx), t)
      ensures Wf(tcb, mtx, Exempt(None, if back then None else Some(t))) && Balanced(tcb, mtx, NoPledge, {})
      ensures Cancelled(old(tcb), old(mtx), tcb, mtx, t, back)
    {
      ghost var T, M := tcb, mtx;
      var m := tcb[t].status.m;
      assert TaskOk(T, M, WHOLE, t) && MutexOk(T, M, WHOLE, m);
      mtx := LeftMtx(mtx, t, m);
      ghost var M1 := mtx;
      LeaveWf(T, M, t, m, T[t].status);
      assert T[t := T[t].(status := T[t].status)] == T;
      LeftCancelled(T, M, t, m);
      if mtx[m].proto == Inherit {
        var o := mtx[m].owner.value;
        LeaveOthers(T, M, t, m, T[t].status, {o});
        LeaveHolder(T, M, t, m, T[t].status, o);
        ghost var f := CancelReady(T, M, M1, t, m, o);
        back := MtxRelWai(t, o, f.x, f);
        TerminationReturns(T, M, t, m, o, f.low);
        CancelLands(T, M, M1, tcb, mtx, t, f, o, back);
      } else {
        back := false;
        LeaveOthers(T, M, t, m, T[t].status, {});
      }
    }

    /** knl_signal_all_mutex: every mutex t holds goes to its first waiter or becomes free. */
    method SignalAll(t: nat, ghost gone: Option<nat>)
      requires t < |tcb| && Wf(tcb, mtx, Exempt(None, gone)) && Balanced(tcb, mtx, NoPledge, {t})
      requires gone.None? || gone == Some(t)
      modifies this`tcb, this`mtx
      ensures Wf(tcb, mtx, Exempt(None, gone)) && Balanced(tcb, mtx, NoPledge, {t})
      ensures Signalled(old(tcb), old(mtx), tcb, mtx, t) && tcb[t].held == []
    {
      ghost var T, M := tcb, mtx;
      assert TaskOk(T, M, Exempt(None, gone), t);
      SignalledNone(T, M, t);
      while tcb[t].held != []
        invariant t < |tcb| && Wf(tcb, mtx, Exempt(None, gone)) && Balanced(tcb, mtx, NoPledge, {t})
        invariant Signalled(T, M, tcb, mtx, t)
        decreases |tcb[t].held|
      {
        ghost var T1, M1 := tcb, mtx;
        SignalFirst(t, gone);
        SignalledOne(T, M, T1, M1, tcb, mtx, t, gone);
      }
    }

    /** One round of knl_signal_all_mutex: the first mutex on t's list. */
    method SignalFirst(t: nat, ghost gone: Option<nat>)
      requires t < |tcb| && Wf(tcb, mtx, Exempt(None, gone)) && Balanced(tcb, mtx, NoPledge, {t})
      requires gone.None? || gone == Some(t)
      requires tcb[t].held != []
      modifies this`tcb, this`mtx
      ensures Wf(tcb, mtx, Exempt(None, gone)) && Balanced(tcb, mtx, NoPledge, {t})
      ensures OneSignalled(old(tcb), old(mtx), tcb, mtx, t)
      ensures Tamer(old(tcb), old(mtx), tcb, mtx)
    {
      ghost var T, M := tcb, mtx;
      var m := tcb[t].held[0];
      FirstDetached(T, M, t, gone, m);
      tcb := Detached(tcb, t, m);
      ghost var T1 := tcb;
      PassOn(m, {t}, gone);
      FirstPassed(T, M, T1, tcb, mtx, t, m);
    }

    /** Give a mutex just taken off a list to its first waiter, or set it free. */
    method PassOn(m: nat, ghost e: set<nat>, ghost gone: Option<nat>)
      requires m < |mtx| && mtx[m].live && Wf(tcb, mtx, Exempt(Some(m), gone)) && Balanced(tcb, mtx, NoPledge, e)
      requires mtx[m].queue != [] ==> mtx[m].queue[0] !in e && gone != Some(mtx[m].queue[0])
      modifies this`tcb, this`mtx
      ensures Wf(tcb, mtx, Exempt(None, gone)) && Balanced(tcb, mtx, NoPledge, e)
      ensures if old(mtx[m].queue) == [] then tcb == old(tcb) && mtx == old(mtx)[m := old(mtx[m]).(owner := None)]
              else
                var w := old(mtx[m].queue)[0];
                && w < |old(tcb)| && mtx == GivenMtx(old(mtx), w, m) && Strip(tcb) == Strip(GivenTcb(old(tcb), w, m))
                && tcb[w].pri <= old(tcb[w].pri)
                && forall u :: 0 <= u < |tcb| && u != w ==> tcb[u] == old(tcb[u])
      ensures Tamer(old(tcb), old(mtx), tcb, mtx)
    {
      assert MutexOk(tcb, mtx, Exempt(Some(m), gone), m);
      if mtx[m].queue != [] {
        var w := mtx[m].queue[0];
        assert w in mtx[m].queue;
        Give(w, m, Exempt(Some(m), gone), e);
      } else {
        FreeWf(tcb, mtx, Exempt(Some(m), gone), m);
        OwnerBalanced(tcb, mtx, NoPledge, m, None, e);
        mtx := mtx[m := mtx[m].(owner := None)];
      }
    }
  }

  // ----- What the calls did, as relations between the tables before and after

  /** ctx was queued on m; apart from that only priorities rose, along the chain of holders. */
  ghost predicate Joined(T: seq<Tcb>, M: seq<Mtx>, T': seq<Tcb>, M': seq<Mtx>, ctx: nat, m: nat) {
    && ctx < |T'| == |T| && m < |M'| == |M|
    && T'[ctx] == T[ctx].(status := WaitMutex(m))
    && M'[m].owner.Some?
    && PriOnly(T, M, T'[ctx := T[ctx]], M'[m := M'[m].(queue := Without(M'[m].queue, ctx))], M'[m].owner.value, true)
    && (forall u :: 0 <= u < |T| && T'[u].pri != T[u].pri ==> T'[u].pri == T[ctx].pri)
    && (M[m].proto == Fifo ==> M'[m].queue == M[m].queue + [ctx])
    && (M[m].proto != Inherit ==> forall u :: 0 <= u < |T| && u != ctx ==> T'[u] == T[u])
    && (M[m].proto != Fifo ==> ctx in M'[m].queue && forall w: nat :: w < |T| && Before(M'[m].queue, ctx, w) ==> T'[ctx].pri < T'[w].pri)
  }

  /** ctx gave m up, to its first waiter if there was one; its own priority may have dropped. */
  ghost predicate Passed(T: seq<Tcb>, M: seq<Mtx>, T': seq<Tcb>, M': seq<Mtx>, ctx: nat, m: nat) {
    && ctx < |T'| == |T| && m < |M'| == |M| && T[ctx].pri <= T'[ctx].pri
    && if M[m].queue == [] then
         && M' == M[m := M[m].(owner := None)]
         && Strip(T') == Strip(Detached(T, ctx, m))
         && (forall u :: 0 <= u < |T| && u != ctx ==> T'[u] == T[u])
       else
         var w := M[m].queue[0];
         && w < |T| && M' == GivenMtx(M, w, m)
         && Strip(T') == Strip(GivenTcb(Detached(T, ctx, m), w, m))
         && (forall u :: 0 <= u < |T| && u != ctx && u != w ==> T'[u] == T[u])
  }

  /** ctx would wait for a task that, in the end, waits for ctx. */
  ghost predicate Deadlocks(T: seq<Tcb>, M: seq<Mtx>, ctx: nat, m: nat) {
    m < |M| && M[m].proto == Inherit && M[m].owner.Some? && Reaches(T, M, M[m].owner.value, ctx)
  }

  lemma KeepAcyclic(T: seq<Tcb>, M: seq<Mtx>, T': seq<Tcb>, M': seq<Mtx>)
    requires Tamer(T, M, T', M')
    ensures Acyclic(T, M) ==> Acyclic(T', M')
  {
    if Acyclic(T, M) { TamerAcyclic(T, M, T', M'); }
  }

  lemma CeilingInRange(T: seq<Tcb>, M: seq<Mtx>, x: Exempt, m: nat)
    requires Wf(T, M, x) && m < |M|
    ensures 0 <= M[m].ceil < NUM_TSKPRI
  {
    assert MutexOk(T, M, x, m);
  }

  lemma BalancedHolder(T: seq<Tcb>, M: seq<Mtx>, w: nat, e: set<nat>)
    requires w < |T| && Balanced(T, M, NoPledge, e + {w}) && Effective(T, M, NoPledge, w, T[w].pri)
    ensures Balanced(T, M, NoPledge, e)
  {
  }

  lemma GivenTamer(T: seq<Tcb>, M: seq<Mtx>, T': seq<Tcb>, M': seq<Mtx>, w: nat, m: nat)
    requires w < |T| && m < |M| && M' == GivenMtx(M, w, m) && |T'| == |T| && T'[w].status.Runnable?
    requires forall u :: 0 <= u < |T| && u != w ==> T'[u] == T[u]
    ensures Tamer(T, M, T', M')
  {
  }

  lemma UnlockedHolder(T: seq<Tcb>, M: seq<Mtx>, T1: seq<Tcb>, M1: seq<Mtx>, ctx: nat, m: nat, f: Fall, back: bool)
    requires Inv(T, M) && ctx < |T| && m < |M| && T[ctx].status.Runnable? && M[m].live && M[m].owner == Some(ctx) && M1 == M
    requires Released(Detached(T, ctx, m), M, T1, M1, Exempt(Some(m), None), f, ctx, back) && !Returns(f, ctx)
    requires |T1| == |T| && forall u :: 0 <= u < |T| && u != ctx ==> T1[u] == T[u]
    ensures Wf(T1, M1, Exempt(Some(m), None)) && Balanced(T1, M1, NoPledge, {})
    ensures T1[ctx] == Detached(T, ctx, m)[ctx].(pri := T1[ctx].pri) && T[ctx].pri <= T1[ctx].pri
    ensures M[m].queue != [] ==> M[m].queue[0] != ctx
  {
    assert MutexOk(T, M, WHOLE, m);
    if M[m].queue != [] { assert M[m].queue[0] in M[m].queue; }
  }

  lemma PassedIntro(T: seq<Tcb>, M: seq<Mtx>, T1: seq<Tcb>, T2: seq<Tcb>, M2: seq<Mtx>, ctx: nat, m: nat)
    requires ctx < |T| && m < |M| && |T1| == |T| && (forall u :: 0 <= u < |T| && u != ctx ==> T1[u] == T[u])
    requires T1[ctx] == Detached(T, ctx, m)[ctx].(pri := T1[ctx].pri) && T[ctx].pri <= T1[ctx].pri
    requires M[m].queue != [] ==> M[m].queue[0] != ctx
    requires if M[m].queue == [] then T2 == T1 && M2 == M[m := M[m].(owner := None)]
             else
               var w := M[m].queue[0];
               w < |T1| && M2 == GivenMtx(M, w, m) && Strip(T2) == Strip(GivenTcb(T1, w, m)) && forall u :: 0 <= u < |T2| && u != w ==> T2[u] == T1[u]
    ensures Passed(T, M, T2, M2, ctx, m)
  {
    var D := Detached(T, ctx, m);
    assert Strip(T1) == Strip(D);
    if M[m].queue == [] {
    } else {
      var w := M[m].queue[0];
      assert |Strip(T2)| == |T2|;
      assert GivenTcb(T1, w, m)[w].(pri := 0) == GivenTcb(D, w, m)[w].(pri := 0);
      assert Strip(GivenTcb(T1, w, m)) == Strip(GivenTcb(D, w, m));
    }
  }

  lemma PassedTamer(T: seq<Tcb>, M: seq<Mtx>, T': seq<Tcb>, M': seq<Mtx>, ctx: nat, m: nat)
    requires Passed(T, M, T', M', ctx, m) && T[ctx].status.Runnable?
    ensures Tamer(T, M, T', M')
  {
    assert Strip(T')[ctx].status == T'[ctx].status;
    if M[m].queue != [] {
      var w := M[m].queue[0];
      assert Strip(T')[w].status == T'[w].status;
    }
  }

  lemma JoinedAcyclic(T: seq<Tcb>, M: seq<Mtx>, T': seq<Tcb>, M': seq<Mtx>, ctx: nat, m: nat)
    requires Inv(T, M) && CanJoin(T, M, ctx, m) && Joined(T, M, T', M', ctx, m)
    ensures Acyclic(T, M) ==> (Acyclic(T', M') <==> !Deadlocks(T, M, ctx, m))
  {
    assert MutexOk(T, M, WHOLE, m);
    if Acyclic(T, M) {
      if M[m].proto == Inherit {
        JoinAcyclic(T, M, T', M', ctx, M[m].owner.value);
      } else {
        AcyclicFewer(T, M, T', M');
      }
    }
  }

  lemma TerminatedAcyclic(T: seq<Tcb>, M: seq<Mtx>, T0: seq<Tcb>, M0: seq<Mtx>, T1: seq<Tcb>, M1: seq<Mtx>, T2: seq<Tcb>, t: nat)
    requires |T0| == |T| && |M0| == |M| && t < |T|
    requires forall u :: 0 <= u < |T| ==> T0[u].status == T[u].status
    requires forall m :: 0 <= m < |M| ==> M0[m].proto == M[m].proto && M0[m].owner == M[m].owner
    requires Tamer(T0, M0, T1, M1) && |T2| == |T1| && T2 == T1[t := T2[t]] && T2[t].status.Dormant?
    ensures Acyclic(T, M) ==> Acyclic(T2, M1)
  {
    assert Tamer(T, M, T0, M0);
    TamerTrans(T, M, T0, M0, T1, M1);
    assert Tamer(T1, M1, T2, M1);
    TamerTrans(T, M, T1, M1, T2, M1);
    KeepAcyclic(T, M, T2, M1);
  }

  /** Base priority p would be above a ceiling t holds or waits for. */
  ghost predicate AboveCeiling(T: seq<Tcb>, M: seq<Mtx>, t: nat, p: int)
    requires t < |T|
  {
    exists m: nat :: m < |M| && M[m].proto == Ceiling && (m in T[t].held || T[t].status == WaitMutex(m)) && p < M[m].ceil
  }

  /** low is the largest of 'awaited' and the ceilings of the mutexes in l. */
  ghost predicate LowestCeiling(M: seq<Mtx>, l: seq<nat>, awaited: int, low: int) {
    && awaited <= low
    && (forall m: nat :: m in l && m < |M| && M[m].proto == Ceiling ==> M[m].ceil <= low)
    && (low == awaited || exists m: nat :: m in l && m < |M| && M[m].proto == Ceiling && M[m].ceil == low)
  }

  lemma LowestCeilingStep(M: seq<Mtx>, l: seq<nat>, m: nat, awaited: int, before: int, low: int)
    requires m < |M| && LowestCeiling(M, l, awaited, before)
    requires low == if M[m].proto == Ceiling && M[m].ceil > before then M[m].ceil else before
    ensures LowestCeiling(M, l + [m], awaited, low)
  {
    assert forall n :: n in l + [m] <==> n in l || n == m;
    if low == before && low != awaited {
      var n: nat :| n in l && n < |M| && M[n].proto == Ceiling && M[n].ceil == low;
      assert n in l + [m];
    }
  }

  /** What the scan of ceilings decides: the new base priority is illegal exactly when it is above one. */
  lemma CeilingBound(T: seq<Tcb>, M: seq<Mtx>, t: nat, priority: int, low: int, awaited: int)
    requires t < |T| && 0 <= priority && LowestCeiling(M, T[t].held, awaited, low)
    requires awaited == if T[t].status.WaitMutex? && T[t].status.m < |M| && M[T[t].status.m].proto == Ceiling &&
        M[T[t].status.m].ceil > 0 then M[T[t].status.m].ceil else 0
    ensures priority < low <==> AboveCeiling(T, M, t, priority)
  {
    if priority < low && low != awaited {
      var m: nat :| m in T[t].held && m < |M| && M[m].proto == Ceiling && M[m].ceil == low;
      assert AboveCeiling(T, M, t, priority);
    }
  }

  /** The holder of the mutex t waits for (t itself when there is none). */
  function HolderOf(T: seq<Tcb>, M: seq<Mtx>, t: nat): nat
    requires t < |T|
  {
    if T[t].status.WaitMutex? && T[t].status.m < |M| && M[T[t].status.m].owner.Some? then M[T[t].status.m].owner.value else t
  }

  lemma {:induction false} LowestSamePri(T: seq<Tcb>, T': seq<Tcb>, M: seq<Mtx>, l: seq<nat>, base: int)
    requires |T'| == |T| && ListOk(T, M, l) && forall u :: 0 <= u < |T| ==> T'[u].pri == T[u].pri
    ensures ListOk(T', M, l) && Lowest(T', M, l, base) == Lowest(T, M, l, base)
  {
    if l != [] { LowestSamePri(T, T', M, l[..|l| - 1], base); }
  }

  lemma RebasedLowest(T: seq<Tcb>, M: seq<Mtx>, t: nat, base: int)
    requires t < |T| && ListOk(T, M, T[t].held)
    ensures Effective(T[t := T[t].(bpri := base)], M, NoPledge, t, Lowest(T, M, T[t].held, base))
  {
    var T' := T[t := T[t].(bpri := base)];
    LowestSamePri(T, T', M, T[t].held, base);
    LowestEffective(T', M, t, T[t].held);
    assert Listed(T', t, T[t].held) == T';
  }

  lemma RebaseInv(T: seq<Tcb>, M: seq<Mtx>, t: nat, p: int)
    requires Inv(T, M) && t < |T| && 0 <= p < NUM_TSKPRI && !AboveCeiling(T, M, t, p)
    ensures Wf(T[t := T[t].(bpri := p)], M, WHOLE) && Balanced(T[t := T[t].(bpri := p)], M, NoPledge, {t})
  {
    var T' := T[t := T[t].(bpri := p)];
    forall u | 0 <= u < |T| ensures TaskOk(T', M, WHOLE, u) {
      assert TaskOk(T, M, WHOLE, u);
    }
    forall m | 0 <= m < |M| ensures MutexOk(T', M, WHOLE, m) {
      assert MutexOk(T, M, WHOLE, m);
      if M[m].proto != Fifo { SortedSamePri(T, T', M[m].queue); }
    }
    forall u | 0 <= u < |T| && u != t ensures Effective(T', M, NoPledge, u, T'[u].pri) {
      SameSources(T, M, NoPledge, T', M, u, T[u].pri);
    }
  }

  /** A task that neither holds nor waits, before and after. */
  lemma AsideInv(T: seq<Tcb>, M: seq<Mtx>, T': seq<Tcb>, t: nat)
    requires Inv(T, M) && t < |T| && |T'| == |T| && T' == T[t := T'[t]] && T[t].status.NonExistent?
    requires T'[t] == Tcb(T'[t].bpri, T'[t].bpri, T'[t].ipri, Dormant, []) && 0 <= T'[t].bpri < NUM_TSKPRI && 0 <= T'[t].ipri < NUM_TSKPRI
    ensures Inv(T', M)
  {
    NotQueued(T, M, t);
    assert TaskOk(T, M, WHOLE, t);
    forall u | 0 <= u < |T| ensures TaskOk(T', M, WHOLE, u) && Effective(T', M, NoPledge, u, T'[u].pri) {
      assert TaskOk(T, M, WHOLE, u);
      if u != t { QuietSources(T, M, T', u, t); }
    }
    forall m | 0 <= m < |M| ensures MutexOk(T', M, WHOLE, m) {
      assert MutexOk(T, M, WHOLE, m);
      if M[m].proto != Fifo {
        forall i | 0 <= i < |M[m].queue| ensures T'[M[m].queue[i]].pri == T[M[m].queue[i]].pri { assert M[m].queue[i] in M[m].queue; }
        SortedSamePri(T, T', M[m].queue);
      }
    }
  }

  lemma CreatedInv(T: seq<Tcb>, M: seq<Mtx>, M': seq<Mtx>, m: nat)
    requires Inv(T, M) && m < |M| && !M[m].live && |M'| == |M| && M' == M[m := M'[m]]
    requires M'[m].owner.None? && M'[m].queue == [] && 0 <= M'[m].ceil < NUM_TSKPRI
    ensures Inv(T, M') && (Acyclic(T, M) ==> Acyclic(T, M'))
  {
    forall u | 0 <= u < |T| ensures TaskOk(T, M', WHOLE, u) && Effective(T, M', NoPledge, u, T[u].pri) {
      assert TaskOk(T, M, WHOLE, u) && Effective(T, M, NoPledge, u, T[u].pri);
      NobodyWaits(T, M, m, u);
      SameSources(T, M, NoPledge, T, M', u, T[u].pri);
    }
    forall n | 0 <= n < |M| ensures MutexOk(T, M', WHOLE, n) {
      assert MutexOk(T, M, WHOLE, n);
    }
    KeepAcyclic(T, M, T, M');
  }

  lemma NobodyWaits(T: seq<Tcb>, M: seq<Mtx>, m: nat, u: nat)
    requires Wf(T, M, WHOLE) && m < |M| && !M[m].live && u < |T|
    ensures m !in T[u].held && T[u].status != WaitMutex(m)
  {
    assert TaskOk(T, M, WHOLE, u) && MutexOk(T, M, WHOLE, m);
  }

  lemma CreatedPooled(M: seq<Mtx>, M': seq<Mtx>, free: seq<nat>, m: nat)
    requires Pooled(M, free) && free != [] && m == free[0] && |M'| == |M| && M' == M[m := M'[m]] && M'[m].live
    ensures Pooled(M', free[1..])
  {
    assert free == [m] + free[1..];
  }

  lemma WokenInv(T: seq<Tcb>, M: seq<Mtx>, t: nat)
    requires Inv(T, M) && t < |T| && !T[t].status.WaitMutex?
    ensures Inv(T[t := T[t].(status := Runnable)], M)
  {
    var T' := T[t := T[t].(status := Runnable)];
    forall u | 0 <= u < |T| ensures TaskOk(T', M, WHOLE, u) && Effective(T', M, NoPledge, u, T'[u].pri) {
      assert TaskOk(T, M, WHOLE, u);
      SameSources(T, M, NoPledge, T', M, u, T[u].pri);
    }
    forall m | 0 <= m < |M| ensures MutexOk(T', M, WHOLE, m) {
      assert MutexOk(T, M, WHOLE, m);
      if M[m].proto != Fifo { SortedSamePri(T, T', M[m].queue); }
    }
  }

  /** The first mutex on t's list was handed on. */
  ghost predicate OneSignalled(T: seq<Tcb>, M: seq<Mtx>, T': seq<Tcb>, M': seq<Mtx>, t: nat) {
    && t < |T| && |T'| == |T| && T[t].held != [] && T'[t] == T[t].(held := T[t].held[1..])
    && var m := T[t].held[0];
    && m < |M| && M' == M[m := Handed(M[m])] && m !in T'[t].held
    && (forall u :: 0 <= u < |T| && u != t ==> T'[u].pri <= T[u].pri && (M[m].queue == [] || u != M[m].queue[0] ==> T'[u] == T[u]))
  }

  /** Some of t's mutexes were handed on; only their new holders may have been raised. */
  ghost predicate Signalled(T: seq<Tcb>, M: seq<Mtx>, T': seq<Tcb>, M': seq<Mtx>, t: nat) {
    && t < |T| && |T'| == |T| && |M'| == |M| && Tamer(T, M, T', M')
    && T'[t] == T[t].(held := T'[t].held) && (forall m :: m in T'[t].held ==> m in T[t].held)
    && (forall m :: 0 <= m < |M| ==> M'[m] == if m in T[t].held && m !in T'[t].held then Handed(M[m]) else M[m])
    && (forall u :: 0 <= u < |T| ==> T'[u].pri <= T[u].pri)
    && (forall m: nat, u: nat :: m < |M| && u in M[m].queue && u < |T| && u != M[m].queue[0] ==> T'[u].pri == T[u].pri)
  }

  lemma SignalledNone(T: seq<Tcb>, M: seq<Mtx>, t: nat)
    requires t < |T|
    ensures Signalled(T, M, T, M, t)
  {
  }

  lemma FirstDetached(T: seq<Tcb>, M: seq<Mtx>, t: nat, gone: Option<nat>, m: nat)
    requires t < |T| && Wf(T, M, Exempt(None, gone)) && Balanced(T, M, NoPledge, {t}) && (gone.None? || gone == Some(t))
    requires T[t].held != [] && m == T[t].held[0]
    ensures m < |M| && M[m].live && Wf(Detached(T, t, m), M, Exempt(Some(m), gone)) && Balanced(Detached(T, t, m), M, NoPledge, {t})
    ensures M[m].queue != [] ==> M[m].queue[0] !in {t} && gone != Some(M[m].queue[0])
    ensures Without(T[t].held, m) == T[t].held[1..] && m !in T[t].held[1..]
  {
    assert m in T[t].held && TaskOk(T, M, Exempt(None, gone), t) && MutexOk(T, M, Exempt(None, gone), m);
    DetachWf(T, M, Exempt(None, gone), t, m);
    DetachBalanced(T, M, NoPledge, t, m, {t});
    WithoutIndex(T[t].held, m, 0);
    assert T[t].held[..0] + T[t].held[1..] == T[t].held[1..];
    if M[m].queue != [] { assert M[m].queue[0] in M[m].queue; }
  }

  lemma FirstPassed(T: seq<Tcb>, M: seq<Mtx>, T1: seq<Tcb>, T2: seq<Tcb>, M2: seq<Mtx>, t: nat, m: nat)
    requires t < |T| && T[t].held != [] && m == T[t].held[0] && m < |M| && T1 == Detached(T, t, m)
    requires Without(T[t].held, m) == T[t].held[1..] && m !in T[t].held[1..] && (M[m].queue != [] ==> M[m].queue[0] != t)
    requires if M[m].queue == [] then T2 == T1 && M2 == M[m := M[m].(owner := None)]
             else
               var w := M[m].queue[0];
               w < |T1| && M2 == GivenMtx(M, w, m) && |T2| == |T1| && T2[w].pri <= T1[w].pri && forall u :: 0 <= u < |T2| && u != w ==> T2[u] == T1[u]
    requires Tamer(T1, M, T2, M2)
    ensures OneSignalled(T, M, T2, M2, t) && Tamer(T, M, T2, M2)
  {
    assert Tamer(T, M, T1, M);
    TamerTrans(T, M, T1, M, T2, M2);
  }

  /** The first waiter of one mutex waits for no other. */
  lemma HeadElsewhere(T: seq<Tcb>, M: seq<Mtx>, x: Exempt, m: nat, n: nat, u: nat)
    requires Wf(T, M, x) && m < |M| && n < |M| && u in M[n].queue
    ensures M[m].queue != [] && n != m ==> u != M[m].queue[0]
  {
    assert MutexOk(T, M, x, n) && MutexOk(T, M, x, m);
    if M[m].queue != [] { assert M[m].queue[0] in M[m].queue; }
  }

  lemma SignalledOne(T: seq<Tcb>, M: seq<Mtx>, T1: seq<Tcb>, M1: seq<Mtx>, T2: seq<Tcb>, M2: seq<Mtx>, t: nat, gone: Option<nat>)
    requires Signalled(T, M, T1, M1, t) && OneSignalled(T1, M1, T2, M2, t) && Tamer(T1, M1, T2, M2)
    requires Wf(T, M, Exempt(None, gone))
    ensures Signalled(T, M, T2, M2, t)
  {
    TamerTrans(T, M, T1, M1, T2, M2);
    var m := T1[t].held[0];
    assert m in T1[t].held && forall n :: n in T1[t].held <==> n == m || n in T2[t].held;
    assert M1[m] == M[m];
    forall n: nat, u: nat | n < |M| && u in M[n].queue && u < |T| && u != M[n].queue[0] ensures T2[u].pri == T[u].pri {
      assert T1[u].pri == T[u].pri;
      HeadElsewhere(T, M, Exempt(None, gone), m, n, u);
    }
  }

  /** A mutex after its holder left: with its first waiter, or free. */
  function Handed(m: Mtx): Mtx {
    if m.queue == [] then m.(owner := None) else m.(owner := Some(m.queue[0]), queue := m.queue[1..])
  }

  lemma OwnerKnown(T: seq<Tcb>, M: seq<Mtx>, m: nat)
    requires Wf(T, M, WHOLE) && m < |M| && M[m].live && M[m].owner.Some?
    ensures M[m].owner.value < |T|
  {
    assert MutexOk(T, M, WHOLE, m);
  }

  /** A task without m on its list, and runnable if it waited for m. */
  function Bereft(b: Tcb, m: nat, waited: bool): Tcb {
    b.(held := Without(b.held, m), status := if waited then Runnable else b.status)
  }

  /** m is gone: nobody lists or waits for it, and its waiters run again. */
  ghost predicate Deleted(T: seq<Tcb>, M: seq<Mtx>, T': seq<Tcb>, M': seq<Mtx>, m: nat) {
    && |T'| == |T| && m < |M'| == |M|
    && M'[m] == M[m].(live := false, queue := [])
    && (forall n :: 0 <= n < |M| && n != m ==> M'[n] == M[n].(queue := M'[n].queue) && multiset(M'[n].queue) == multiset(M[n].queue))
    && (forall u :: 0 <= u < |T| ==> T'[u] == Bereft(T[u], m, u in M[m].queue).(pri := T'[u].pri))
  }

  lemma DeletedIntro(T: seq<Tcb>, M: seq<Mtx>, T1: seq<Tcb>, M1: seq<Mtx>, T2: seq<Tcb>, M2: seq<Mtx>, m: nat, free: seq<nat>)
    requires m < |M| && Wf(T, M, WHOLE) && M[m].live && Pooled(M, free)
    requires if M[m].owner.Some? then M[m].owner.value < |T| && M[m].live && SameBut(Detached(T, M[m].owner.value, m), M, T1, M1, None) &&
        (forall n :: 0 <= n < |M| ==> Distinct(M1[n].queue)) else T1 == T && M1 == M
    requires |T2| == |T1| && forall u :: 0 <= u < |T2| ==> T2[u] == if u in M1[m].queue then T1[u].(status := Runnable) else T1[u]
    requires M2 == M1[m := M1[m].(queue := [], live := false)]
    ensures Deleted(T, M, T2, M2, m) && Pooled(M2, free + [m]) && (Acyclic(T, M) ==> Acyclic(T2, M2))
  {
    DeletedShape(T, M, T1, M1, T2, M2, m);
    DeletedRest(T, M, T2, M2, m, free);
  }

  lemma DeletedShape(T: seq<Tcb>, M: seq<Mtx>, T1: seq<Tcb>, M1: seq<Mtx>, T2: seq<Tcb>, M2: seq<Mtx>, m: nat)
    requires m < |M| && Wf(T, M, WHOLE)
    requires if M[m].owner.Some? then M[m].owner.value < |T| && M[m].live && SameBut(Detached(T, M[m].owner.value, m), M, T1, M1, None) &&
        (forall n :: 0 <= n < |M| ==> Distinct(M1[n].queue)) else T1 == T && M1 == M
    requires |T2| == |T1| && forall u :: 0 <= u < |T2| ==> T2[u] == if u in M1[m].queue then T1[u].(status := Runnable) else T1[u]
    requires M2 == M1[m := M1[m].(queue := [], live := false)]
    ensures Deleted(T, M, T2, M2, m)
  {
    forall n | 0 <= n < |M| ensures multiset(M1[n].queue) == multiset(M[n].queue) {
      assert MutexOk(T, M, WHOLE, n);
      if M[m].owner.Some? {
        forall w: nat ensures w in M1[n].queue <==> w in M[n].queue {}
        SameBag(M1[n].queue, M[n].queue);
      }
    }
    forall u | 0 <= u < |T| ensures T2[u] == Bereft(T[u], m, u in M[m].queue).(pri := T2[u].pri) {
      assert TaskOk(T, M, WHOLE, u) && MutexOk(T, M, WHOLE, m);
      if M[m].owner != Some(u) { WithoutAbsent(T[u].held, m); }
    }
  }

  lemma SameBag(q: seq<nat>, r: seq<nat>)
    requires Distinct(q) && Distinct(r) && forall w :: w in q <==> w in r
    ensures multiset(q) == multiset(r)
  {
    forall w: nat ensures multiset(q)[w] == multiset(r)[w] {
      CountOne(q, w);
      CountOne(r, w);
    }
  }

  lemma {:induction false} CountOne(q: seq<nat>, w: nat)
    requires Distinct(q)
    ensures multiset(q)[w] == if w in q then 1 else 0
  {
    if q != [] {
      assert q == [q[0]] + q[1..];
      CountOne(q[1..], w);
    }
  }

  lemma DeletionLands(T1: seq<Tcb>, M1: seq<Mtx>, T2: seq<Tcb>, M2: seq<Mtx>, M3: seq<Mtx>, m: nat, x: Exempt, f: Fall, back: bool)
    requires m < |M1| && M1[m].live && M2 == M1[m := M1[m].(queue := [])] && M3 == M2[m := M2[m].(live := false)]
    requires Wf(T2, M2, x) && (x == Exempt(Some(m), None) || (x == WHOLE && M1[m].owner.None?)) && KeepsAsked(T1, M1, T2, M2)
    requires |T2| == |T1| && forall u :: 0 <= u < |T1| ==> T2[u].pri == T1[u].pri
    requires if back then Astray(T1, M1, f) else Balanced(T1, M1, NoPledge, {})
    ensures Inv(T2, M3) <==> !back
    ensures back ==> LeftTooHigh(T2, M3, f.start)
  {
    assert M3[m := M3[m].(live := true)] == M2;
    DeadWf(T2, M3, M2, m, x);
    if back { StaysAstray(T1, M1, T2, M2, M3, f); } else { StaysBalanced(T1, M1, T2, M2, M3); }
  }

  lemma DeletedTamer(T: seq<Tcb>, M: seq<Mtx>, T': seq<Tcb>, M': seq<Mtx>, m: nat)
    requires Deleted(T, M, T', M', m)
    ensures Tamer(T, M, T', M')
  {
  }

  lemma DeletedRest(T: seq<Tcb>, M: seq<Mtx>, T': seq<Tcb>, M': seq<Mtx>, m: nat, free: seq<nat>)
    requires Pooled(M, free) && Deleted(T, M, T', M', m) && M[m].live
    ensures Pooled(M', free + [m]) && (Acyclic(T, M) ==> Acyclic(T', M'))
  {
    DeletedTamer(T, M, T', M', m);
    KeepAcyclic(T, M, T', M');
    assert forall n :: n in free + [m] <==> n in free || n == m;
    assert m !in free;
  }

  /** knl_release_mutex can be called to take m off its holder's list; the fall it may start. */
  lemma ReleaseReady(T: seq<Tcb>, M: seq<Mtx>, o: nat, m: nat) returns (f: Fall)
    requires Inv(T, M) && m < |M| && M[m].live && M[m].owner == Some(o) && o < |T|
    ensures Releasing(T, M, WHOLE, f, o, Some(m))
    ensures f == Fall(Detached(T, o, m), M, Exempt(Some(m), None), o, f.low, []) && Effective(f.T, M, NoPledge, o, f.low)
  {
    var low := LowWithout(T, M, o, m);
    assert MutexOk(T, M, WHOLE, m) && TaskOk(T, M, WHOLE, o);
    assert Effective(T, M, NoPledge, o, T[o].pri);
    DetachBalanced(T, M, NoPledge, o, m, {o});
    f := Fall(Detached(T, o, m), M, Exempt(Some(m), None), o, low, []);
    FreshFall(f.T, M, f.x, o, low);
  }

  /** What o's equation asks once m is off its list. */
  lemma LowWithout(T: seq<Tcb>, M: seq<Mtx>, o: nat, m: nat) returns (low: int)
    requires Wf(T, M, WHOLE) && o < |T|
    ensures Effective(Detached(T, o, m), M, NoPledge, o, low)
  {
    HeldOk(T, M, WHOLE, o);
    var l := Without(T[o].held, m);
    forall i | 0 <= i < |l| ensures OfferOk(T, M, l[i]) {
      assert l[i] in T[o].held;
      var j :| 0 <= j < |T[o].held| && T[o].held[j] == l[i];
    }
    KeptEffective(T, M, o, Some(m));
    low := Lowest(T, M, l, T[o].bpri);
  }

  /** Once m is off the list, the tables have changed as the contract of the release says. */
  lemma HolderDropped(T: seq<Tcb>, M: seq<Mtx>, T1: seq<Tcb>, M1: seq<Mtx>, f: Fall, o: nat, m: nat, back: bool)
    requires o < |T| && f.x == Exempt(Some(m), None) && f.start == o && Released(Detached(T, o, m), M, T1, M1, f.x, f, o, back)
    ensures Wf(T1, M1, f.x) && SameBut(Detached(T, o, m), M, T1, M1, None)
    ensures back ==> Astray(T1, M1, f)
    ensures !back ==> Balanced(T1, M1, NoPledge, {})
    ensures forall n :: 0 <= n < |M1| ==> Distinct(M1[n].queue)
  {
    if !back { PriOnlySame(Detached(T, o, m), M, T1, M1, o, false); }
    forall n | 0 <= n < |M1| ensures Distinct(M1[n].queue) { assert MutexOk(T1, M1, f.x, n); }
  }

  /** Whatever an equation asked for, it still asks for. */
  ghost predicate KeepsAsked(T: seq<Tcb>, M: seq<Mtx>, T': seq<Tcb>, M': seq<Mtx>) {
    |T'| == |T| && forall u: nat, p: int :: u < |T| && Effective(T, M, NoPledge, u, p) ==> Effective(T', M', NoPledge, u, p)
  }

  /** o runs above what its equation asks; apart from that everything is in order. */
  ghost predicate LeftTooHigh(T: seq<Tcb>, M: seq<Mtx>, o: nat) {
    Wf(T, M, WHOLE) && Balanced(T, M, NoPledge, {o}) && o < |T| && exists low: int :: Effective(T, M, NoPledge, o, low) && T[o].pri < low
  }

  /** The holder's excess outlives the rest of the deletion. */
  lemma StaysAstray(T1: seq<Tcb>, M1: seq<Mtx>, T2: seq<Tcb>, M2: seq<Mtx>, M3: seq<Mtx>, f: Fall)
    requires Astray(T1, M1, f) && KeepsAsked(T1, M1, T2, M2) && KeepsAsked(T2, M2, T2, M3) && |T2| == |T1|
    requires Wf(T2, M3, WHOLE) && forall u :: 0 <= u < |T1| ==> T2[u].pri == T1[u].pri
    ensures !Inv(T2, M3) && LeftTooHigh(T2, M3, f.start)
  {
    forall u | 0 <= u < |T2| && u != f.start ensures Effective(T2, M3, NoPledge, u, T2[u].pri) {
      assert Effective(T1, M1, NoPledge, u, T1[u].pri);
    }
    assert Effective(T2, M3, NoPledge, f.start, f.low);
    if Effective(T2, M3, NoPledge, f.start, T2[f.start].pri) {
      EffectiveUnique(T2, M3, NoPledge, f.start, f.low, T2[f.start].pri);
    }
  }

  lemma StaysBalanced(T1: seq<Tcb>, M1: seq<Mtx>, T2: seq<Tcb>, M2: seq<Mtx>, M3: seq<Mtx>)
    requires Balanced(T1, M1, NoPledge, {}) && KeepsAsked(T1, M1, T2, M2) && KeepsAsked(T2, M2, T2, M3)
    requires forall u :: 0 <= u < |T1| ==> T2[u].pri == T1[u].pri
    ensures Balanced(T2, M3, NoPledge, {})
  {
    forall u | 0 <= u < |T2| ensures Effective(T2, M3, NoPledge, u, T2[u].pri) {
      assert Effective(T1, M1, NoPledge, u, T1[u].pri);
    }
  }

  // ----- Termination

  /** A mutex given up by a terminated task: free, or held by a former waiter that, in the
      queues by priority, nobody who waited with it is above. */
  ghost predicate Inherited(T: seq<Tcb>, proto: Protocol, queue: seq<nat>, owner: Option<nat>) {
    if queue == [] then owner.None?
    else
      && owner.Some? && owner.value in queue && owner.value < |T|
      && (proto == Fifo ==> owner.value == queue[0])
      && (proto != Fifo ==> forall w: nat :: w in queue && w < |T| ==> T[owner.value].pri <= T[w].pri)
  }

  /** t's wait was cancelled: it left its queue, unless the fall put it back. */
  ghost predicate Cancelled(T: seq<Tcb>, M: seq<Mtx>, T': seq<Tcb>, M': seq<Mtx>, t: nat, back: bool) {
    && t < |T| && |T'| == |T| && |M'| == |M|
    && (forall u :: 0 <= u < |T| ==> T'[u] == T[u].(pri := T'[u].pri))
    && (forall m :: 0 <= m < |M| ==> M'[m] == M[m].(queue := M'[m].queue))
    && (forall m, w :: 0 <= m < |M| ==> (w in M'[m].queue <==> w in M[m].queue && (w != t || back)))
    && (forall m :: 0 <= m < |M| && M[m].proto == Fifo && t !in M[m].queue ==> M'[m].queue == M[m].queue)
  }

  /** Who holds m after the termination of t. */
  ghost predicate TerminatedOwner(T: seq<Tcb>, M: seq<Mtx>, T': seq<Tcb>, M': seq<Mtx>, t: nat, m: nat) {
    && t < |T| && m < |M| && m < |M'|
    && (if m in T[t].held then Inherited(T', M[m].proto, M[m].queue, M'[m].owner) else M'[m].owner == M[m].owner)
    && (M'[m].live ==> M'[m].owner != Some(t))
  }

  /** t is dormant and holds nothing; it is in no queue, unless 'back' says it was queued again;
      its mutexes went to waiters, all others stayed where they were. */
  ghost predicate Terminated(T: seq<Tcb>, M: seq<Mtx>, T': seq<Tcb>, M': seq<Mtx>, t: nat, back: bool) {
    && t < |T| && |T'| == |T| && |M'| == |M|
    && T'[t] == Tcb(T[t].ipri, T[t].ipri, T[t].ipri, Dormant, [])
    && (forall m :: 0 <= m < |M| ==> (t in M'[m].queue <==> T[t].status == WaitMutex(m) && back))
    && (forall m :: 0 <= m < |M| ==> TerminatedOwner(T, M, T', M', t, m))
  }

  lemma TerminationLands(T: seq<Tcb>, M: seq<Mtx>, T0: seq<Tcb>, M1: seq<Mtx>, T1: seq<Tcb>, M2: seq<Mtx>, T2: seq<Tcb>, t: nat,
                         gone: Option<nat>, back: bool)
    requires Wf(T, M, WHOLE) && Cancelled(T, M, T0, M1, t, back) && Wf(T0, M1, Exempt(None, gone))
    requires Signalled(T0, M1, T1, M2, t) && T1[t].held == [] && T2 == T1[t := Tcb(T1[t].ipri, T1[t].ipri, T1[t].ipri, Dormant, [])]
    requires Wf(T1, M2, Exempt(None, gone)) && Balanced(T1, M2, NoPledge, {t})
    requires back ==> T[t].status.WaitMutex?
    requires gone.None? || gone == Some(t)
    ensures Terminated(T, M, T2, M2, t, back) && (Inv(T2, M2) <==> !back)
  {
    TerminatedQueues(T, M, T0, M1, T1, M2, t, back);
    forall m | 0 <= m < |M| ensures TerminatedOwner(T, M, T2, M2, t, m) {
      TerminatedOwners(T, M, T0, M1, T1, M2, T2, t, gone, back, m);
    }
    assert TaskOk(T, M, WHOLE, t);
    if back { DormantWaits(T2, M2, t, T[t].status.m); } else { DormantInv(T1, M2, t, gone); }
  }

  lemma NotCancelled(T: seq<Tcb>, M: seq<Mtx>, t: nat)
    requires t < |T| && forall m :: 0 <= m < |M| ==> t !in M[m].queue
    ensures Cancelled(T, M, T, M, t, false)
  {
  }

  lemma TerminatedQueues(T: seq<Tcb>, M: seq<Mtx>, T0: seq<Tcb>, M1: seq<Mtx>, T1: seq<Tcb>, M2: seq<Mtx>, t: nat, back: bool)
    requires Wf(T, M, WHOLE) && Cancelled(T, M, T0, M1, t, back) && Signalled(T0, M1, T1, M2, t)
    ensures forall m :: 0 <= m < |M| ==> (t in M2[m].queue <==> T[t].status == WaitMutex(m) && back)
  {
    forall m | 0 <= m < |M| ensures t in M2[m].queue <==> T[t].status == WaitMutex(m) && back {
      assert TaskOk(T, M, WHOLE, t) && MutexOk(T, M, WHOLE, m);
      assert t in M1[m].queue <==> t in M[m].queue && back;
    }
  }

  lemma TerminatedOwners(T: seq<Tcb>, M: seq<Mtx>, T0: seq<Tcb>, M1: seq<Mtx>, T1: seq<Tcb>, M2: seq<Mtx>, T2: seq<Tcb>, t: nat,
                         gone: Option<nat>, back: bool, m: nat)
    requires Wf(T, M, WHOLE) && Cancelled(T, M, T0, M1, t, back) && Wf(T0, M1, Exempt(None, gone))
    requires Signalled(T0, M1, T1, M2, t) && T1[t].held == [] && |T2| == |T1| && T2 == T1[t := T2[t]] && m < |M|
    ensures TerminatedOwner(T, M, T2, M2, t, m)
  {
    assert TaskOk(T, M, WHOLE, t) && MutexOk(T, M, WHOLE, m) && MutexOk(T0, M1, Exempt(None, gone), m);
    assert T0[t].held == T[t].held;
    if m in T[t].held { SameEmpty(M[m].queue, M1[m].queue); }
    if m in T[t].held && M[m].queue != [] {
      assert t !in M[m].queue && M[m].queue[0] in M[m].queue;
      var q := M1[m].queue;
      assert M[m].queue[0] in q;
      assert q[0] in q;
      forall w: nat | w in M[m].queue && w < |T| && M[m].proto != Fifo ensures T2[q[0]].pri <= T2[w].pri {
        HeadLeast(T0, q, w);
      }
    }
  }

  lemma SameEmpty(q: seq<nat>, r: seq<nat>)
    requires forall w :: w in q <==> w in r
    ensures q == [] <==> r == []
  {
    if q != [] { assert q[0] in q; }
    if r != [] { assert r[0] in r; }
  }

  lemma HeadLeast(T: seq<Tcb>, q: seq<nat>, w: nat)
    requires Within(q, |T|) && Sorted(T, q) && w in q
    ensures T[q[0]].pri <= T[w].pri
  {
    var i :| 0 <= i < |q| && q[i] == w;
    assert i == 0 || T[q[0]].pri <= T[q[i]].pri;
  }

  lemma LeftCancelled(T: seq<Tcb>, M: seq<Mtx>, t: nat, m: nat)
    requires Wf(T, M, WHOLE) && t < |T| && T[t].status == WaitMutex(m) && m < |M|
    ensures Cancelled(T, M, T, LeftMtx(M, t, m), t, false)
  {
    NotQueuedElsewhere(T, M, t);
    assert TaskOk(T, M, WHOLE, t);
  }

  lemma CancelReady(T: seq<Tcb>, M: seq<Mtx>, M1: seq<Mtx>, t: nat, m: nat, o: nat) returns (f: Fall)
    requires Inv(T, M) && Inherits(T, M, t) && T[t].status.m == m && M1 == LeftMtx(M, t, m) && M[m].owner == Some(o) && o < |T|
    requires Wf(T, M1, Exempt(None, Some(t))) && Balanced(T, M1, NoPledge, {o}) && AtMost(T, M1, NoPledge, o, T[o].pri)
    ensures Releasing(T, M1, f.x, f, o, None)
    ensures f == Fall(T, M1, Exempt(None, Some(t)), o, f.low, []) && Effective(T, M1, NoPledge, o, f.low)
  {
    var x := Exempt(None, Some(t));
    var low := LowNow(T, M1, x, o);
    f := Fall(T, M1, x, o, low, []);
    FreshFall(T, M1, x, o, low);
    assert TaskOk(T, M, WHOLE, t) && MutexOk(T, M, WHOLE, m);
  }

  lemma CancelLands(T: seq<Tcb>, M: seq<Mtx>, M1: seq<Mtx>, T2: seq<Tcb>, M2: seq<Mtx>, t: nat, f: Fall, o: nat, back: bool)
    requires Cancelled(T, M, T, M1, t, false) && o < |T| && f.x == Exempt(None, Some(t)) && Released(T, M1, T2, M2, f.x, f, o, back)
    requires forall m :: 0 <= m < |M| ==> (t in M[m].queue <==> T[t].status == WaitMutex(m))
    requires Inherits(T, M, t)
    ensures Cancelled(T, M, T2, M2, t, back) && Wf(T2, M2, Exempt(None, if back then None else Some(t))) && Balanced(T2, M2, NoPledge, {})
  {
    if !back { PriOnlySame(T, M1, T2, M2, o, false); }
    CancelledAfter(T, M, M1, T2, M2, t, back);
  }

  lemma CancelledAfter(T: seq<Tcb>, M: seq<Mtx>, M1: seq<Mtx>, T2: seq<Tcb>, M2: seq<Mtx>, t: nat, back: bool)
    requires Cancelled(T, M, T, M1, t, false) && SameBut(T, M1, T2, M2, if back then Some(t) else None)
    requires forall m :: 0 <= m < |M| ==> (t in M[m].queue <==> T[t].status == WaitMutex(m))
    ensures Cancelled(T, M, T2, M2, t, back)
  {
    forall m: nat, w: nat | m < |M| ensures w in M2[m].queue <==> w in M[m].queue && (w != t || back) {
      assert w in M1[m].queue <==> w in M[m].queue && w != t;
    }
    forall m | 0 <= m < |M| ensures M2[m] == M[m].(queue := M2[m].queue) { assert M1[m] == M[m].(queue := M1[m].queue); }
  }

  lemma NotQueued(T: seq<Tcb>, M: seq<Mtx>, t: nat)
    requires Wf(T, M, WHOLE) && t < |T| && !T[t].status.WaitMutex?
    ensures forall m :: 0 <= m < |M| ==> t !in M[m].queue
  {
    forall m | 0 <= m < |M| ensures t !in M[m].queue { assert MutexOk(T, M, WHOLE, m); }
  }

  lemma NotQueuedElsewhere(T: seq<Tcb>, M: seq<Mtx>, t: nat)
    requires Wf(T, M, WHOLE) && t < |T| && T[t].status.WaitMutex?
    ensures forall m :: 0 <= m < |M| && m != T[t].status.m ==> t !in M[m].queue
  {
    forall m | 0 <= m < |M| && m != T[t].status.m ensures t !in M[m].queue { assert MutexOk(T, M, WHOLE, m); }
  }

  lemma DropHead(T: seq<Tcb>, M: seq<Mtx>, x: Exempt, m: nat)
    requires m < |M| && Wf(T, M, x) && x.task.None? && M[m].queue != []
    requires M[m].live && x.mutex == Some(m)
    requires M[m].queue[0] < |T|
    ensures var w := M[m].queue[0];
      && Wf(T[w := T[w].(status := Runnable)], M[m := M[m].(queue := M[m].queue[1..])], x)
      && KeepsAsked(T, M, T[w := T[w].(status := Runnable)], M[m := M[m].(queue := M[m].queue[1..])])
  {
    var w := M[m].queue[0];
    var T', M' := T[w := T[w].(status := Runnable)], M[m := M[m].(queue := M[m].queue[1..])];
    assert MutexOk(T, M, x, m) && w in M[m].queue;
    forall u | 0 <= u < |T'| ensures TaskOk(T', M', x, u) {
      DropHeadTask(T, M, x, m, u);
    }
    forall u: nat, p: int | u < |T| && Effective(T, M, NoPledge, u, p) ensures Effective(T', M', NoPledge, u, p) {
      DropHeadAsked(T, M, x, m, u, p);
    }
    forall n | 0 <= n < |M'| ensures MutexOk(T', M', x, n) {
      DropHeadMutex(T, M, x, m, n);
    }
  }

  lemma DropHeadTask(T: seq<Tcb>, M: seq<Mtx>, x: Exempt, m: nat, u: nat)
    requires m < |M| && Wf(T, M, x) && M[m].queue != [] && x.task.None? && M[m].live && x.mutex == Some(m)
    requires M[m].queue[0] < |T| && u < |T|
    ensures var w := M[m].queue[0];
      TaskOk(T[w := T[w].(status := Runnable)], M[m := M[m].(queue := M[m].queue[1..])], x, u)
  {
    var w := M[m].queue[0];
    assert MutexOk(T, M, x, m) && w in M[m].queue && TaskOk(T, M, x, u);
    assert M[m].queue == [w] + M[m].queue[1..];
  }

  lemma DropHeadAsked(T: seq<Tcb>, M: seq<Mtx>, x: Exempt, m: nat, u: nat, p: int)
    requires m < |M| && Wf(T, M, x) && M[m].queue != [] && x.task.None? && M[m].live && x.mutex == Some(m)
    requires M[m].queue[0] < |T| && u < |T| && Effective(T, M, NoPledge, u, p)
    ensures var w := M[m].queue[0];
      Effective(T[w := T[w].(status := Runnable)], M[m := M[m].(queue := M[m].queue[1..])], NoPledge, u, p)
  {
    var w := M[m].queue[0];
    var T', M' := T[w := T[w].(status := Runnable)], M[m := M[m].(queue := M[m].queue[1..])];
    assert MutexOk(T, M, x, m) && TaskOk(T, M, x, u);
    assert m !in T[u].held;
    SameSources(T, M, NoPledge, T', M', u, p);
  }

  lemma DropHeadMutex(T: seq<Tcb>, M: seq<Mtx>, x: Exempt, m: nat, n: nat)
    requires m < |M| && Wf(T, M, x) && M[m].queue != [] && x.task.None? && M[m].live && x.mutex == Some(m)
    requires M[m].queue[0] < |T| && n < |M|
    ensures var w := M[m].queue[0];
      MutexOk(T[w := T[w].(status := Runnable)], M[m := M[m].(queue := M[m].queue[1..])], x, n)
  {
    var w := M[m].queue[0];
    var T', M' := T[w := T[w].(status := Runnable)], M[m := M[m].(queue := M[m].queue[1..])];
    assert MutexOk(T, M, x, m) && w in M[m].queue && MutexOk(T, M, x, n);
    if n == m {
      TailFacts(M[m].queue);
      assert Within(M[m].queue[1..], |T|);
      if M[m].proto != Fifo {
        assert Sorted(T, M[m].queue[1..]);
        SortedSamePri(T, T', M[m].queue[1..]);
      }
    } else {
      assert w !in M[n].queue;
      if M[n].proto != Fifo { SortedSamePri(T, T', M[n].queue); }
    }
  }

  /** L is M with m, which has no waiters and is on no list, live again. */
  lemma DeadWf(T: seq<Tcb>, M: seq<Mtx>, L: seq<Mtx>, m: nat, x: Exempt)
    requires m < |M| && !M[m].live && M[m].queue == [] && x.task.None? && L == M[m := M[m].(live := true)]
    requires Wf(T, L, x) && (x.mutex == Some(m) || (x == WHOLE && M[m].owner.None?))
    ensures Wf(T, M, WHOLE) && KeepsAsked(T, L, T, M)
  {
    assert MutexOk(T, L, x, m);
    forall u | 0 <= u < |T| ensures TaskOk(T, M, WHOLE, u) {
      assert TaskOk(T, L, x, u);
    }
    forall u: nat, p: int | u < |T| && Effective(T, L, NoPledge, u, p) ensures Effective(T, M, NoPledge, u, p) {
      SameSources(T, L, NoPledge, T, M, u, p);
    }
    forall n | 0 <= n < |M| ensures MutexOk(T, M, WHOLE, n) {
      assert MutexOk(T, L, x, n);
    }
  }

  /** A dormant task in a queue breaks the invariant. */
  lemma DormantWaits(T: seq<Tcb>, M: seq<Mtx>, t: nat, m: nat)
    requires t < |T| && T[t].status.Dormant? && m < |M| && t in M[m].queue
    ensures !Inv(T, M)
  {
    var ok := MutexOk(T, M, WHOLE, m);
  }

  lemma DormantInv(T: seq<Tcb>, M: seq<Mtx>, t: nat, gone: Option<nat>)
    requires t < |T| && Wf(T, M, Exempt(None, gone)) && Balanced(T, M, NoPledge, {t}) && T[t].held == []
    requires gone.None? || gone == Some(t)
    requires forall m :: 0 <= m < |M| ==> t !in M[m].queue
    ensures Inv(T[t := Tcb(T[t].ipri, T[t].ipri, T[t].ipri, Dormant, [])], M)
    ensures forall m :: 0 <= m < |M| && M[m].live ==> M[m].owner != Some(t)
  {
    var x := Exempt(None, gone);
    var T' := T[t := Tcb(T[t].ipri, T[t].ipri, T[t].ipri, Dormant, [])];
    forall u | 0 <= u < |T| ensures TaskOk(T', M, WHOLE, u) && Effective(T', M, NoPledge, u, T'[u].pri) {
      assert TaskOk(T, M, x, u);
      if u != t { QuietSources(T, M, T', u, t); }
    }
    forall m | 0 <= m < |M| ensures MutexOk(T', M, WHOLE, m) && (M[m].live ==> M[m].owner != Some(t)) {
      assert MutexOk(T, M, x, m);
      if M[m].proto != Fifo {
        forall i | 0 <= i < |M[m].queue| ensures T'[M[m].queue[i]].pri == T[M[m].queue[i]].pri { assert M[m].queue[i] in M[m].queue; }
        SortedSamePri(T, T', M[m].queue);
      }
    }
  }

  /** A task that waits nowhere is nobody's source. */
  lemma QuietSources(T: seq<Tcb>, M: seq<Mtx>, T': seq<Tcb>, u: nat, t: nat)
    requires u < |T| && u != t && t < |T| && |T'| == |T| && T' == T[t := T'[t]] && Effective(T, M, NoPledge, u, T[u].pri)
    requires forall m :: 0 <= m < |M| ==> t !in M[m].queue
    ensures Effective(T', M, NoPledge, u, T[u].pri)
  {
    if DonatedSource(T, M, u, T[u].pri) {
      var m: nat, w: nat :| m in T[u].held && m < |M| && M[m].proto == Inherit && w in M[m].queue && w < |T| && T[u].pri == T[w].pri;
      assert w != t && T'[w].pri == T[w].pri;
      assert DonatedSource(T', M, u, T[u].pri);
    }
  }

  lemma {:induction false} WithoutInsert(q: seq<nat>, k: nat, t: nat)
    requires k <= |q| && t !in q
    ensures Without(InsertAt(q, k, t), t) == q
  {
    var r := InsertAt(q, k, t);
    if k == 0 {
      assert r[1..] == q;
      WithoutAbsent(q, t);
    } else {
      assert r[1..] == InsertAt(q[1..], k - 1, t);
      WithoutInsert(q[1..], k - 1, t);
    }
  }

  lemma JoinedIntro(T: seq<Tcb>, M: seq<Mtx>, T1: seq<Tcb>, M1: seq<Mtx>, T2: seq<Tcb>, M2: seq<Mtx>, ctx: nat, m: nat, o: nat)
    requires Wf(T, M, WHOLE) && Wf(T1, M1, WHOLE) && CanJoin(T, M, ctx, m) && CanJoin(T1, M1, ctx, m) && M[m].owner == Some(o)
    requires PriOnly(T, M, T1, M1, o, true) && T1[ctx] == T[ctx]
    requires forall u :: 0 <= u < |T| && T1[u].pri != T[u].pri ==> T1[u].pri == T[ctx].pri
    requires M[m].proto != Inherit ==> T1 == T && M1 == M
    requires T2 == JoinedTcb(T1, ctx, m) && M2 == JoinedMtx(T1, M1, ctx, m)
    ensures Joined(T, M, T2, M2, ctx, m)
  {
    var q := M1[m].queue;
    assert MutexOk(T1, M1, WHOLE, m);
    assert ctx !in q;
    if M1[m].proto == Fifo {
      assert q + [ctx] == InsertAt(q, |q|, ctx);
      WithoutInsert(q, |q|, ctx);
    } else {
      WithoutInsert(q, Place(T1, q, T1[ctx].pri), ctx);
      forall w: nat | w < |T| && Before(M2[m].queue, ctx, w) ensures T2[ctx].pri < T2[w].pri {
        PlacedLast(T1, q, ctx, w);
      }
    }
    assert T2[ctx := T[ctx]] == T1;
    assert M2[m := M2[m].(queue := Without(M2[m].queue, ctx))] == M1;
  }
}
