/** What one priority change does before it is handed on: the contracts of the recursion
    of knl_change_task_priority, mtx_chg_pri and knl_release_mutex, and its steps. */
module MutexWaves {
  import opened Options
  import opened Lists
  import opened MutexState
  import opened MutexSteps
  import opened MutexRounds

  // ----- Contracts of the recursion

  /** What the call has taken apart belongs together. */
  ghost predicate Torn(T: seq<Tcb>, M: seq<Mtx>, x: Exempt, f: Fall) {
    && (x.mutex.None? || x.task.None?)
    && (x.task.Some? ==>
      var g := x.task.value;
      Inherits(T, M, g) && M[T[g].status.m].live && M[T[g].status.m].owner.Some? && M[T[g].status.m].owner != Some(g) && g !in M[T[g].status.m].queue)
    && (x.mutex.Some? ==>
      var m := x.mutex.value;
      m < |M| && M[m].live && M[m].owner == Some(f.start) && f.start < |T| && m !in T[f.start].held)
  }

  /** The tasks of the path block only each other, and the start only through the mutex x names. */
  ghost predicate Ringed(T: seq<Tcb>, M: seq<Mtx>, x: Exempt, f: Fall) {
    forall w: nat, u: nat :: w in f.path && Blocks(T, M, w, u) ==> u in f.path && (u == f.start ==> x.mutex == Some(T[w].status.m))
  }

  /** t may rise to p. When that is the answer to a fall that came round, it is the start's pledge. */
  ghost predicate Rising(T: seq<Tcb>, M: seq<Mtx>, x: Exempt, v: Pledge, f: Fall, t: nat, p: int)
    requires t < |T|
  {
    && x.task.None?
    && (x.mutex.Some? ==>
      && f.start < |T| && v == Pledge(f.start, p) && t in f.path && Ringed(T, M, x, f)
      && (t == f.start || T[f.start].pri <= p) && Effective(T, M, NoPledge, f.start, f.low))
  }

  /** t is about to get the priority p, the only wrong one is t's own, and p puts it right. */
  ghost predicate Heading(T: seq<Tcb>, M: seq<Mtx>, x: Exempt, v: Pledge, f: Fall, t: nat, p: int) {
    && Wf(T, M, x) && Torn(T, M, x, f) && t < |T| && 0 <= p < NUM_TSKPRI
    && Balanced(T, M, v, {t}) && Effective(T, M, v, t, p)
    && if p < T[t].pri then Rising(T, M, x, v, f, t, p)
       else v.NoPledge? && (x == WHOLE || Falling(f, T, M, x, t, p))
  }

  predicate Rejoins(T: seq<Tcb>, joined: Option<nat>, w: nat, m: nat) {
    joined == Some(w) && w < |T| && T[w].status == WaitMutex(m)
  }

  /** Only priorities and the order of queues changed, except that 'joined' is queued again. */
  ghost predicate SameBut(T: seq<Tcb>, M: seq<Mtx>, T': seq<Tcb>, M': seq<Mtx>, joined: Option<nat>) {
    && |T'| == |T| && |M'| == |M|
    && (forall u :: 0 <= u < |T| ==> T'[u] == T[u].(pri := T'[u].pri))
    && (forall m :: 0 <= m < |M| ==> M'[m] == M[m].(queue := M'[m].queue))
    && (forall m, w :: 0 <= m < |M| ==> (w in M'[m].queue <==> w in M[m].queue || Rejoins(T, joined, w, m)))
    && (forall m :: 0 <= m < |M| && M[m].proto == Fifo ==> M'[m] == M[m])
  }

  /** The fall ended without coming round. */
  ghost predicate Settles(T: seq<Tcb>, M: seq<Mtx>, T': seq<Tcb>, M': seq<Mtx>, x: Exempt, v: Pledge, t: nat, up: bool) {
    && Wf(T', M', x) && Balanced(T', M', v, {}) && PriOnly(T, M, T', M', t, up)
    && (x.task.Some? && x.task.value < |T| ==> T'[x.task.value] == T[x.task.value])
  }

  /** The start of the fall runs above what its equation asks; nobody else is wrong. */
  ghost predicate Astray(T: seq<Tcb>, M: seq<Mtx>, f: Fall) {
    f.start < |T| && Balanced(T, M, NoPledge, {f.start}) && StartAsks(T, M, f) && T[f.start].pri < f.low
  }

  /** The fall came round: the cancelled waiter is queued again, or the start is left too high. */
  ghost predicate Rounded(T: seq<Tcb>, M: seq<Mtx>, T': seq<Tcb>, M': seq<Mtx>, x: Exempt, f: Fall) {
    && x != WHOLE && SameBut(T, M, T', M', x.task)
    && (x.task.Some? ==> Wf(T', M', WHOLE) && Balanced(T', M', NoPledge, {}))
    && (x.task.None? ==> Wf(T', M', x) && Astray(T', M', f))
  }

  ghost predicate Landed(T: seq<Tcb>, M: seq<Mtx>, T': seq<Tcb>, M': seq<Mtx>, x: Exempt, v: Pledge, f: Fall, t: nat, p: int, back: bool)
    requires t < |T|
  {
    && (back ==> T[t].pri < p && Rounded(T, M, T', M', x, f))
    && (!back ==> Settles(T, M, T', M', x, v, t, p < T[t].pri) && Reaching(T, T', t, p) && BehindEqualsIn(T, T', M', t))
    && (p < T[t].pri && x.mutex.Some? ==> StartAsks(T', M', f))
    && (T[t].pri < p && x != WHOLE ==> (back <==> Returns(f, t)))
  }

  ghost predicate StartAsks(T: seq<Tcb>, M: seq<Mtx>, f: Fall) {
    f.start < |T| && Effective(T, M, NoPledge, f.start, f.low)
  }

  /** How far t and the others moved. */
  predicate Reaching(T: seq<Tcb>, T': seq<Tcb>, t: nat, p: int)
    requires t < |T|
  {
    && |T'| == |T|
    && (p < T[t].pri ==> T'[t].pri <= p && forall u :: 0 <= u < |T| ==> T'[u].pri == T[u].pri || T'[u].pri == p)
    && (T[t].pri <= p ==> p <= T'[t].pri)
    && (p == T[t].pri ==> T' == T)
  }

  /** knl_release_mutex on t, seen from the tables after rel was dropped. */
  ghost predicate Released(T: seq<Tcb>, M: seq<Mtx>, T': seq<Tcb>, M': seq<Mtx>, x: Exempt, f: Fall, t: nat, back: bool)
    requires t < |T|
  {
    && (back ==> Rounded(T, M, T', M', x, f))
    && (!back ==> Settles(T, M, T', M', x, NoPledge, t, false) && (T'[t].pri == T[t].pri ==> T' == T && M' == M))
    && (Effective(T, M, NoPledge, t, T[t].pri) ==> !back && T' == T && M' == M)
    && (x != WHOLE ==> (back <==> Returns(f, t)))
  }

  /** T after t's list lost rel, if any. */
  function Dropped(T: seq<Tcb>, t: nat, rel: Option<nat>): seq<Tcb>
    requires t < |T|
  {
    if rel.Some? then Detached(T, t, rel.value) else T
  }

  function Apart(x: Exempt, rel: Option<nat>): Exempt {
    if rel.Some? then x.(mutex := rel) else x
  }

  /** t, whose priority may be higher than its equation asks, is to be recomputed without rel. */
  ghost predicate Releasing(T: seq<Tcb>, M: seq<Mtx>, x: Exempt, f: Fall, t: nat, rel: Option<nat>) {
    && t < |T| && Wf(T, M, x) && Balanced(T, M, NoPledge, {t}) && AtMost(T, M, NoPledge, t, T[t].pri)
    && (rel.Some? ==> rel.value in T[t].held && x == WHOLE)
    && Torn(Dropped(T, t, rel), M, Apart(x, rel), f)
    && (Apart(x, rel) != WHOLE ==> Arriving(f, Dropped(T, t, rel), M, Apart(x, rel), t))
  }

  /** After rel was dropped, t's equation is the only one that may be wrong. */
  lemma ReleaseDrops(T: seq<Tcb>, M: seq<Mtx>, x: Exempt, f: Fall, t: nat, rel: Option<nat>)
    requires Releasing(T, M, x, f, t, rel)
    ensures var T1 := Dropped(T, t, rel);
      Wf(T1, M, Apart(x, rel)) && Balanced(T1, M, NoPledge, {t}) && AtMost(T1, M, NoPledge, t, T1[t].pri) && SumPri(T1) == SumPri(T)
  {
    assert TaskOk(T, M, x, t);
    if rel.Some? {
      DetachWf(T, M, x, t, rel.value);
      DetachBalanced(T, M, NoPledge, t, rel.value, {t});
      SumPriUpdate(T, t, Detached(T, t, rel.value)[t]);
    }
  }

  lemma ReleaseHeads(T: seq<Tcb>, M: seq<Mtx>, x: Exempt, f: Fall, t: nat, q: int)
    requires Releasing(T, M, x, f, t, None) && 0 <= q < NUM_TSKPRI && Effective(T, M, NoPledge, t, q) && T[t].pri < q
    ensures Heading(T, M, x, NoPledge, f, t, q)
  {
    if x != WHOLE { ArriveFalls(f, T, M, x, t, q); }
  }

  lemma ReleaseStays(T: seq<Tcb>, M: seq<Mtx>, x: Exempt, f: Fall, t: nat)
    requires Releasing(T, M, x, f, t, None) && Effective(T, M, NoPledge, t, T[t].pri)
    ensures Released(T, M, T, M, x, f, t, false)
  {
    if x != WHOLE { ArriveStays(f, T, M, x, t); }
    assert Balanced(T, M, NoPledge, {});
  }

  /** Nothing has fallen yet. */
  lemma FreshFall(T: seq<Tcb>, M: seq<Mtx>, x: Exempt, o: nat, low: int)
    requires o < |T| && Balanced(T, M, NoPledge, {o}) && Effective(T, M, NoPledge, o, low)
    ensures Arriving(Fall(T, M, x, o, low, []), T, M, x, o)
  {
  }

  lemma ReleaseLands(T: seq<Tcb>, M: seq<Mtx>, T': seq<Tcb>, M': seq<Mtx>, x: Exempt, f: Fall, t: nat, q: int, back: bool)
    requires t < |T| && T[t].pri < q && Effective(T, M, NoPledge, t, q) && Landed(T, M, T', M', x, NoPledge, f, t, q, back)
    ensures Released(T, M, T', M', x, f, t, back)
  {
    if Effective(T, M, NoPledge, t, T[t].pri) { EffectiveUnique(T, M, NoPledge, t, q, T[t].pri); }
  }

  lemma PriOnlySame(T: seq<Tcb>, M: seq<Mtx>, T': seq<Tcb>, M': seq<Mtx>, t: nat, up: bool)
    requires PriOnly(T, M, T', M', t, up)
    ensures SameBut(T, M, T', M', None)
  {
    forall m: nat, w: nat | m < |M| ensures w in M'[m].queue <==> w in M[m].queue {
      assert w in M'[m].queue <==> w in multiset(M'[m].queue);
    }
  }

  lemma SameButTrans(T: seq<Tcb>, M: seq<Mtx>, T1: seq<Tcb>, M1: seq<Mtx>, T2: seq<Tcb>, M2: seq<Mtx>, a: Option<nat>, b: Option<nat>)
    requires SameBut(T, M, T1, M1, a) && SameBut(T1, M1, T2, M2, b) && (a.None? || b.None?)
    ensures SameBut(T, M, T2, M2, if a.None? then b else a)
  {
    var joined := if a.None? then b else a;
    forall m: nat, w: nat | m < |M| ensures w in M2[m].queue <==> w in M[m].queue || Rejoins(T, joined, w, m) {
      assert w in M1[m].queue <==> w in M[m].queue || Rejoins(T, a, w, m);
      assert w < |T| ==> T1[w] == T[w].(pri := T1[w].pri);
    }
    forall m: nat | m < |M| ensures M2[m] == M[m].(queue := M2[m].queue) {
      assert M1[m] == M[m].(queue := M1[m].queue);
    }
  }

  lemma RepriSame(T: seq<Tcb>, M: seq<Mtx>, x: Exempt, t: nat, p: int, T': seq<Tcb>, M': seq<Mtx>)
    requires Wf(T, M, x) && RepriStep(T, M, t, p, T', M') && x.task != Some(t)
    ensures SameBut(T, M, T', M', None)
  {
    RepriMembers(T, M, x, t, p, T', M');
  }

  // ----- One change that is not handed on

  lemma ChangeEnds(T: seq<Tcb>, M: seq<Mtx>, x: Exempt, v: Pledge, f: Fall, t: nat, p: int, T': seq<Tcb>, M': seq<Mtx>)
    requires Heading(T, M, x, v, f, t, p) && !Inherits(T, M, t) && RepriStep(T, M, t, p, T', M')
    ensures Landed(T, M, T', M', x, v, f, t, p, false)
  {
    RepriWf(T, M, x, t, p, T', M');
    RepriBalanced(T, M, x, v, t, p, T', M', {});
    RepriPriOnly(T, M, x, t, p, T', M');
    StartKept(T, M, x, v, f, t, p, T', M');
    if T[t].pri < p && x != WHOLE {
      EndsHere(f, t);
    }
  }

  /** While the others rise, the start's equation goes on asking the same. */
  lemma StartKept(T: seq<Tcb>, M: seq<Mtx>, x: Exempt, v: Pledge, f: Fall, t: nat, p: int, T': seq<Tcb>, M': seq<Mtx>)
    requires Heading(T, M, x, v, f, t, p) && RepriStep(T, M, t, p, T', M')
    ensures p < T[t].pri && x.mutex.Some? ==> StartAsks(T', M', f)
  {
    if p < T[t].pri && x.mutex.Some? {
      if Feeds(T, M, t, f.start) { FeedsBlocks(T, M, x, t, f.start); }
      RepriLocal(T, M, x, NoPledge, t, p, T', M', f.start, f.low);
    }
  }

  // ----- The holder is raised, or left alone, on the way up

  lemma HolderFacts(T: seq<Tcb>, M: seq<Mtx>, x: Exempt, v: Pledge, f: Fall, t: nat, p: int, o: nat)
    requires Heading(T, M, x, v, f, t, p) && Blocks(T, M, t, o) && x.task != Some(t)
    ensures o < |T| && o != t
    ensures x.mutex != Some(T[t].status.m) ==> Feeds(T, M, t, o) && T[o].pri <= T[t].pri
  {
    var m := T[t].status.m;
    assert TaskOk(T, M, x, t) && MutexOk(T, M, x, m);
    if x.mutex != Some(m) {
      assert m in T[o].held && t in M[m].queue;
      assert Effective(T, M, v, o, T[o].pri);
    }
  }

  lemma RiseGoesOn(T: seq<Tcb>, M: seq<Mtx>, x: Exempt, v: Pledge, f: Fall, t: nat, p: int, o: nat, T': seq<Tcb>, M': seq<Mtx>)
    requires Heading(T, M, x, v, f, t, p) && Blocks(T, M, t, o) && RepriStep(T, M, t, p, T', M')
    requires p < T[t].pri && o < |T| && p < T'[o].pri
    ensures Heading(T', M', x, v, f, o, p)
  {
    HolderFacts(T, M, x, v, f, t, p, o);
    RepriWf(T, M, x, t, p, T', M');
    OnlyHolder(T, M, x, t, o);
    RepriBalanced(T, M, x, v, t, p, T', M', {o});
    StartKept(T, M, x, v, f, t, p, T', M');
    RepriMembers(T, M, x, t, p, T', M');
    assert Effective(T, M, v, o, T[o].pri);
    HolderRaised(T, M, x, v, t, p, T', M', o);
    if x.mutex.Some? { RingedKept(T, M, x, f, T', M'); }
  }

  lemma OnlyHolder(T: seq<Tcb>, M: seq<Mtx>, x: Exempt, t: nat, o: nat)
    requires Wf(T, M, x) && Blocks(T, M, t, o)
    ensures forall u: nat :: Feeds(T, M, t, u) ==> u == o
  {
    forall u: nat | Feeds(T, M, t, u) ensures u == o { FeedsBlocks(T, M, x, t, u); }
  }

  lemma RingedKept(T: seq<Tcb>, M: seq<Mtx>, x: Exempt, f: Fall, T': seq<Tcb>, M': seq<Mtx>)
    requires Ringed(T, M, x, f) && |T'| == |T| && |M'| == |M|
    requires forall u :: 0 <= u < |T| ==> T'[u].status == T[u].status
    requires forall m :: 0 <= m < |M| ==> M'[m].proto == M[m].proto && M'[m].owner == M[m].owner
    ensures Ringed(T', M', x, f)
  {
    forall w: nat, u: nat | w in f.path && Blocks(T', M', w, u) ensures u in f.path && (u == f.start ==> x.mutex == Some(T'[w].status.m)) {
      assert Blocks(T, M, w, u);
    }
  }

  lemma QueuesDistinct(T: seq<Tcb>, M: seq<Mtx>, x: Exempt)
    requires Wf(T, M, x)
    ensures forall m :: 0 <= m < |M| ==> Distinct(M[m].queue)
  {
    forall m | 0 <= m < |M| ensures Distinct(M[m].queue) { assert MutexOk(T, M, x, m); }
  }

  lemma RiseLands(T: seq<Tcb>, M: seq<Mtx>, x: Exempt, v: Pledge, f: Fall, t: nat, p: int, o: nat, T1: seq<Tcb>, M1: seq<Mtx>,
                  T2: seq<Tcb>, M2: seq<Mtx>)
    requires Heading(T, M, x, v, f, t, p) && RepriStep(T, M, t, p, T1, M1) && p < T[t].pri
    requires o < |T1| && p < T1[o].pri && Landed(T1, M1, T2, M2, x, v, f, o, p, false)
    ensures Landed(T, M, T2, M2, x, v, f, t, p, false)
  {
    RepriPriOnly(T, M, x, t, p, T1, M1);
    QueuesDistinct(T2, M2, x);
    PriOnlyTrans(T, M, T1, M1, T2, M2, t, o, true);
  }

  lemma RiseStays(T: seq<Tcb>, M: seq<Mtx>, x: Exempt, v: Pledge, f: Fall, t: nat, p: int, o: nat, T': seq<Tcb>, M': seq<Mtx>)
    requires Heading(T, M, x, v, f, t, p) && Blocks(T, M, t, o) && RepriStep(T, M, t, p, T', M')
    requires p < T[t].pri && o < |T| && T'[o].pri <= p
    ensures Landed(T, M, T', M', x, v, f, t, p, false)
  {
    HolderFacts(T, M, x, v, f, t, p, o);
    RepriWf(T, M, x, t, p, T', M');
    OnlyHolder(T, M, x, t, o);
    RepriBalanced(T, M, x, v, t, p, T', M', {o});
    StartKept(T, M, x, v, f, t, p, T', M');
    RepriPriOnly(T, M, x, t, p, T', M');
    StillRight(T, M, x, v, f, t, p, o, T', M');
  }

  /** A holder whose priority is neither t's old one nor lower than the new one is still right. */
  lemma StillRight(T: seq<Tcb>, M: seq<Mtx>, x: Exempt, v: Pledge, f: Fall, t: nat, p: int, o: nat, T': seq<Tcb>, M': seq<Mtx>)
    requires Heading(T, M, x, v, f, t, p) && Blocks(T, M, t, o) && RepriStep(T, M, t, p, T', M') && x.task != Some(t)
    requires o < |T| && Balanced(T', M', v, {o})
    requires x.mutex != Some(T[t].status.m) ==> T'[o].pri <= p && T'[o].pri != T[t].pri
    ensures Balanced(T', M', v, {})
  {
    HolderFacts(T, M, x, v, f, t, p, o);
    assert Effective(T, M, v, o, T[o].pri);
    if x.mutex == Some(T[t].status.m) {
      assert !Feeds(T, M, t, o);
      RepriLocal(T, M, x, v, t, p, T', M', o, T[o].pri);
    } else {
      HolderKept(T, M, x, v, t, p, T', M', o);
    }
  }

  // ----- The fall goes on, or stops, on the way down

  lemma FallGoesOn(T: seq<Tcb>, M: seq<Mtx>, x: Exempt, v: Pledge, f: Fall, t: nat, p: int, o: nat, T': seq<Tcb>, M': seq<Mtx>)
    requires Heading(T, M, x, v, f, t, p) && PassesTo(T, M, x, t, o) && RepriStep(T, M, t, p, T', M') && T[t].pri <= p
    ensures o < |T| && T'[o].pri <= p && Wf(T', M', x) && Torn(T', M', x, Grown(f, t)) && Balanced(T', M', NoPledge, {o})
    ensures AtMost(T', M', NoPledge, o, T'[o].pri)
    ensures p == T[t].pri ==> Effective(T', M', NoPledge, o, T'[o].pri)
  {
    HolderFacts(T, M, x, v, f, t, p, o);
    RepriWf(T, M, x, t, p, T', M');
    OnlyHolder(T, M, x, t, o);
    RepriBalanced(T, M, x, v, t, p, T', M', {o});
    assert Effective(T, M, v, o, T[o].pri);
    HolderBound(T, M, x, v, t, p, T', M', o);
    RepriSame(T, M, x, t, p, T', M');
    TornKept(T, M, x, f, Grown(f, t), T', M');
    if p == T[t].pri { EqualChange(T, M, x, t, T', M', o); }
  }

  lemma TornKept(T: seq<Tcb>, M: seq<Mtx>, x: Exempt, f: Fall, g: Fall, T': seq<Tcb>, M': seq<Mtx>)
    requires Torn(T, M, x, f) && SameBut(T, M, T', M', None) && g.start == f.start
    ensures Torn(T', M', x, g)
  {
  }

  lemma FallArrives(T: seq<Tcb>, M: seq<Mtx>, x: Exempt, v: Pledge, f: Fall, t: nat, p: int, o: nat, T': seq<Tcb>, M': seq<Mtx>)
    requires Heading(T, M, x, v, f, t, p) && PassesTo(T, M, x, t, o) && RepriStep(T, M, t, p, T', M')
    requires x != WHOLE && T[t].pri <= p && o < |T| && o != t && T'[o].pri == T[t].pri
    ensures Arriving(Grown(f, t), T', M', x, o)
  {
    FallGrows(f, T, M, x, t, p, T', M');
    assert T[t].status == f.T[t].status;
    assert Blocks(f.T, f.M, t, o);
  }

  lemma EqualChange(T: seq<Tcb>, M: seq<Mtx>, x: Exempt, t: nat, T': seq<Tcb>, M': seq<Mtx>, o: nat)
    requires Wf(T, M, x) && t < |T| && x.task != Some(t) && RepriStep(T, M, t, T[t].pri, T', M')
    requires o < |T| && Effective(T, M, NoPledge, o, T[o].pri)
    ensures T' == T && Effective(T', M', NoPledge, o, T'[o].pri)
  {
    RepriMembers(T, M, x, t, T[t].pri, T', M');
    assert T' == T;
    if DonatedSource(T, M, o, T[o].pri) {
      var m: nat, w: nat :| m in T[o].held && m < |M| && M[m].proto == Inherit && w in M[m].queue && w < |T| && T[o].pri == T[w].pri;
      assert m in T'[o].held && w in M'[m].queue && T'[w].pri == T[o].pri;
      assert DonatedSource(T', M', o, T[o].pri);
    }
  }

  lemma FallLands(T: seq<Tcb>, M: seq<Mtx>, x: Exempt, v: Pledge, f: Fall, t: nat, p: int, o: nat, T1: seq<Tcb>, M1: seq<Mtx>,
                  T2: seq<Tcb>, M2: seq<Mtx>, back: bool)
    requires Heading(T, M, x, v, f, t, p) && PassesTo(T, M, x, t, o) && RepriStep(T, M, t, p, T1, M1) && T[t].pri <= p
    requires o < |T1| && Released(T1, M1, T2, M2, x, Grown(f, t), o, back)
    requires p == T[t].pri ==> Effective(T1, M1, NoPledge, o, T1[o].pri)
    ensures Landed(T, M, T2, M2, x, v, f, t, p, back)
  {
    if back {
      FallLandsBack(T, M, x, f, t, p, o, T1, M1, T2, M2);
    } else {
      FallSettles(T, M, x, f, t, p, o, T1, M1, T2, M2);
    }
    if T[t].pri < p && x != WHOLE {
      FallingPasses(f, T, M, x, t, p, o);
      GoesOn(f, t, o);
    }
  }

  lemma FallingPasses(f: Fall, T: seq<Tcb>, M: seq<Mtx>, x: Exempt, t: nat, p: int, o: nat)
    requires Falling(f, T, M, x, t, p) && PassesTo(T, M, x, t, o)
    ensures PassesTo(f.T, f.M, f.x, t, o)
  {
    SameFeeds(f, T, M, t, o);
    assert T[t] == f.T[t].(pri := T[t].pri);
  }

  lemma FallLandsBack(T: seq<Tcb>, M: seq<Mtx>, x: Exempt, f: Fall, t: nat, p: int, o: nat, T1: seq<Tcb>, M1: seq<Mtx>, T2: seq<Tcb>, M2: seq<Mtx>)
    requires Wf(T, M, x) && x.task != Some(t) && RepriStep(T, M, t, p, T1, M1)
    requires Rounded(T1, M1, T2, M2, x, Grown(f, t))
    ensures Rounded(T, M, T2, M2, x, f)
  {
    RepriSame(T, M, x, t, p, T1, M1);
    SameButTrans(T, M, T1, M1, T2, M2, None, x.task);
  }

  lemma FallSettles(T: seq<Tcb>, M: seq<Mtx>, x: Exempt, f: Fall, t: nat, p: int, o: nat, T1: seq<Tcb>, M1: seq<Mtx>, T2: seq<Tcb>, M2: seq<Mtx>)
    requires Wf(T, M, x) && x.task != Some(t) && RepriStep(T, M, t, p, T1, M1) && T[t].pri <= p
    requires o < |T1| && Released(T1, M1, T2, M2, x, Grown(f, t), o, false)
    requires p == T[t].pri ==> Effective(T1, M1, NoPledge, o, T1[o].pri)
    ensures Settles(T, M, T2, M2, x, NoPledge, t, false) && Reaching(T, T2, t, p) && BehindEqualsIn(T, T2, M2, t)
  {
    RepriPriOnly(T, M, x, t, p, T1, M1);
    if T2[o].pri != T1[o].pri {
      QueuesDistinct(T2, M2, x);
      PriOnlyTrans(T, M, T1, M1, T2, M2, t, o, false);
    }
    assert T1[t].pri <= T2[t].pri;
    assert p == T[t].pri ==> T1 == T;
  }

  lemma FallStays(T: seq<Tcb>, M: seq<Mtx>, x: Exempt, v: Pledge, f: Fall, t: nat, p: int, o: nat, T': seq<Tcb>, M': seq<Mtx>)
    requires Heading(T, M, x, v, f, t, p) && PassesTo(T, M, x, t, o) && RepriStep(T, M, t, p, T', M') && T[t].pri <= p
    requires o < |T| && T'[o].pri != T[t].pri && T'[o].pri <= p && Balanced(T', M', NoPledge, {o})
    ensures Landed(T, M, T', M', x, v, f, t, p, false)
  {
    StaysSettled(T, M, x, v, f, t, p, o, T', M');
    if T[t].pri < p && x != WHOLE {
      FallStops(T, M, x, f, t, p, o, T', M');
    }
  }

  lemma StaysSettled(T: seq<Tcb>, M: seq<Mtx>, x: Exempt, v: Pledge, f: Fall, t: nat, p: int, o: nat, T': seq<Tcb>, M': seq<Mtx>)
    requires Heading(T, M, x, v, f, t, p) && PassesTo(T, M, x, t, o) && RepriStep(T, M, t, p, T', M') && T[t].pri <= p
    requires o < |T| && T'[o].pri != T[t].pri && T'[o].pri <= p && Balanced(T', M', NoPledge, {o})
    ensures Settles(T, M, T', M', x, v, t, false) && Wf(T', M', x) && BehindEqualsIn(T, T', M', t)
  {
    RepriWf(T, M, x, t, p, T', M');
    RepriPriOnly(T, M, x, t, p, T', M');
    StillRight(T, M, x, v, f, t, p, o, T', M');
  }

  lemma FallStops(T: seq<Tcb>, M: seq<Mtx>, x: Exempt, f: Fall, t: nat, p: int, o: nat, T': seq<Tcb>, M': seq<Mtx>)
    requires Falling(f, T, M, x, t, p) && Wf(T, M, x) && Wf(T', M', x) && PassesTo(T, M, x, t, o) && RepriStep(T, M, t, p, T', M')
    requires o < |T| && T'[o].pri != T[t].pri
    ensures !Returns(f, t)
  {
    FallGrows(f, T, M, x, t, p, T', M');
    HolderAside(Grown(f, t), T', M', t, o);
    FallingPasses(f, T, M, x, t, p, o);
    GoesOn(f, t, o);
  }

  // ----- The fall comes round to a waiter of the mutex taken off its holder

  /** The holder o gave the mutex up but is still named as its owner; it will be raised for a
      waiter that no longer counts. */
  lemma WaiterBack(T: seq<Tcb>, M: seq<Mtx>, x: Exempt, v: Pledge, f: Fall, t: nat, p: int, o: nat, T': seq<Tcb>, M': seq<Mtx>)
    requires Heading(T, M, x, v, f, t, p) && Blocks(T, M, t, o) && x.mutex == Some(T[t].status.m) && RepriStep(T, M, t, p, T', M') && T[t].pri <= p
    ensures o == f.start && o < |T| && T'[o].pri == f.low && T'[o].pri != T[t].pri
    ensures p < f.low ==> Heading(T', M', x, Pledge(o, p), Grown(f, t), o, p)
    ensures !(p < f.low) ==> Landed(T, M, T', M', x, v, f, t, p, false)
  {
    HolderFacts(T, M, x, v, f, t, p, o);
    RepriWf(T, M, x, t, p, T', M');
    OnlyHolder(T, M, x, t, o);
    RepriBalanced(T, M, x, v, t, p, T', M', {o});
    StillRight(T, M, x, v, f, t, p, o, T', M');
    RepriPriOnly(T, M, x, t, p, T', M');
    WaiterReached(f, T, M, x, t, p);
    if p < f.low {
      FallGrows(f, T, M, x, t, p, T', M');
      PledgeMade(T', M', o, p);
      RingCloses(f, T, M, x, t, p, o, T', M');
    }
  }

  /** A pledge below the holder's priority becomes its effective priority and nobody else's concern. */
  lemma PledgeMade(T: seq<Tcb>, M: seq<Mtx>, o: nat, p: int)
    requires Balanced(T, M, NoPledge, {}) && o < |T| && p < T[o].pri
    ensures Balanced(T, M, Pledge(o, p), {o}) && Effective(T, M, Pledge(o, p), o, p) && Effective(T, M, NoPledge, o, T[o].pri)
  {
    assert Effective(T, M, NoPledge, o, T[o].pri);
    forall u | 0 <= u < |T| && u != o ensures Effective(T, M, Pledge(o, p), u, T[u].pri) {
      assert Effective(T, M, NoPledge, u, T[u].pri);
    }
  }

  lemma RingCloses(f: Fall, T: seq<Tcb>, M: seq<Mtx>, x: Exempt, t: nat, p: int, o: nat, T': seq<Tcb>, M': seq<Mtx>)
    requires Falling(f, T, M, x, t, p) && Blocks(T, M, t, o) && o == f.start && o != t && x.mutex == Some(T[t].status.m)
    requires |T'| == |T| && |M'| == |M| && Chain(f.T, f.M, f.x, f.path + [t])
    requires forall u :: 0 <= u < |T| ==> T'[u].status == T[u].status
    requires forall m :: 0 <= m < |M| ==> M'[m].proto == M[m].proto && M'[m].owner == M[m].owner
    ensures Ringed(T', M', x, Grown(f, t)) && o in Grown(f, t).path
  {
    var path := f.path + [t];
    assert path[0] == o;
    forall w: nat, u: nat | w in path && Blocks(T', M', w, u) ensures u in path && (u == o ==> x.mutex == Some(T'[w].status.m)) {
      var i: nat :| i < |path| && path[i] == w;
      assert T[w] == f.T[w].(pri := T[w].pri);
      assert Blocks(T, M, w, u) && Blocks(f.T, f.M, w, u);
      if i + 1 < |path| {
        assert Link(f.T, f.M, f.x, path[i], path[i + 1]);
        BlocksOne(f.T, f.M, w, u, path[i + 1]);
      }
    }
  }

  lemma WaiterLands(T: seq<Tcb>, M: seq<Mtx>, x: Exempt, v: Pledge, f: Fall, t: nat, p: int, o: nat, T1: seq<Tcb>, M1: seq<Mtx>,
                    T2: seq<Tcb>, M2: seq<Mtx>)
    requires Heading(T, M, x, v, f, t, p) && Blocks(T, M, t, o) && x.mutex == Some(T[t].status.m) && RepriStep(T, M, t, p, T1, M1) && T[t].pri <= p
    requires o == f.start && o < |T1| && T1[o].pri == f.low && p < f.low
    requires Landed(T1, M1, T2, M2, x, Pledge(o, p), Grown(f, t), o, p, false)
    ensures Landed(T, M, T2, M2, x, v, f, t, p, true)
  {
    WaiterReached(f, T, M, x, t, p);
    RepriSame(T, M, x, t, p, T1, M1);
    PriOnlySame(T1, M1, T2, M2, o, true);
    SameButTrans(T, M, T1, M1, T2, M2, None, None);
    PledgeDropped(T2, M2, o, p);
    assert StartAsks(T2, M2, Grown(f, t));
  }

  lemma PledgeDropped(T: seq<Tcb>, M: seq<Mtx>, o: nat, p: int)
    requires Balanced(T, M, Pledge(o, p), {})
    ensures Balanced(T, M, NoPledge, {o})
  {
    forall u | 0 <= u < |T| && u != o ensures Effective(T, M, NoPledge, u, T[u].pri) {
      assert Effective(T, M, Pledge(o, p), u, T[u].pri);
    }
  }

  // ----- The fall comes round to the task whose wait was cancelled

  /** It still counts as waiting, so it is put into the queue again. */
  lemma TaskRejoins(T: seq<Tcb>, M: seq<Mtx>, x: Exempt, v: Pledge, f: Fall, t: nat, p: int, o: nat, T': seq<Tcb>, M': seq<Mtx>)
    requires Heading(T, M, x, v, f, t, p) && Blocks(T, M, t, o) && x.task == Some(t) && RepriStep(T, M, t, p, T', M')
    ensures o < |T| && o != t && Wf(T', M', WHOLE) && SameBut(T, M, T', M', Some(t)) && Balanced(T', M', NoPledge, {o})
    ensures p < T[o].pri ==> Effective(T', M', NoPledge, o, p)
    ensures T[o].pri <= p ==> Effective(T', M', NoPledge, o, T[o].pri)
  {
    var m := T[t].status.m;
    assert v.NoPledge? && MutexOk(T, M, x, m);
    RejoinQueue(T, M, x, t, p, m, T');
    assert Rejoined(T, M, x, t, p, m, T', M');
    RejoinWf(T, M, x, t, p, m, T', M');
    RejoinBalanced(T, M, x, t, p, m, T', M', o);
    RejoinSame(T, M, x, t, p, m, T', M');
    assert Effective(T, M, NoPledge, o, T[o].pri);
    RejoinHolder(T, M, x, t, p, m, T', M', o);
  }

  lemma RejoinSame(T: seq<Tcb>, M: seq<Mtx>, x: Exempt, t: nat, p: int, m: nat, T': seq<Tcb>, M': seq<Mtx>)
    requires Rejoined(T, M, x, t, p, m, T', M')
    ensures SameBut(T, M, T', M', Some(t))
  {
  }

  lemma RejoinWf(T: seq<Tcb>, M: seq<Mtx>, x: Exempt, t: nat, p: int, m: nat, T': seq<Tcb>, M': seq<Mtx>)
    requires Rejoined(T, M, x, t, p, m, T', M')
    requires Distinct(M'[m].queue) && Within(M'[m].queue, |T|) && Sorted(T', M'[m].queue)
    ensures Wf(T', M', WHOLE)
  {
    forall u | 0 <= u < |T| ensures TaskOk(T', M', WHOLE, u) { assert TaskOk(T, M, x, u); }
    forall n | 0 <= n < |M| ensures MutexOk(T', M', WHOLE, n) { RejoinMutexOk(T, M, x, t, p, m, T', M', n); }
  }

  lemma RejoinBalanced(T: seq<Tcb>, M: seq<Mtx>, x: Exempt, t: nat, p: int, m: nat, T': seq<Tcb>, M': seq<Mtx>, o: nat)
    requires Rejoined(T, M, x, t, p, m, T', M') && M[m].owner == Some(o)
    requires Balanced(T, M, NoPledge, {t}) && Effective(T, M, NoPledge, t, p)
    ensures Balanced(T', M', NoPledge, {o})
  {
    forall u | 0 <= u < |T| && u != o ensures Effective(T', M', NoPledge, u, T'[u].pri) {
      RejoinOther(T, M, x, t, p, m, T', M', u);
    }
  }

  lemma RejoinQueue(T: seq<Tcb>, M: seq<Mtx>, x: Exempt, t: nat, p: int, m: nat, T': seq<Tcb>)
    requires Wf(T, M, x) && m < |M| && t < |T| && T' == T[t := T[t].(pri := p)]
    ensures Within(M[m].queue, |T|)
    ensures var r := Moved(T', M[m].queue, t);
      Distinct(r) && Within(r, |T|) && (forall w :: w in r <==> w in M[m].queue || w == t) && (M[m].proto != Fifo ==> Sorted(T', r))
  {
    var q := M[m].queue;
    assert MutexOk(T, M, x, m);
    WithoutFacts(T, q, t);
    var r := Without(q, t);
    InsertShape(T', r, Place(T', r, p), t);
    if M[m].proto != Fifo {
      SortedWithout(T, T', q, t);
      InsertSorted(T', r, t);
    }
  }

  /** t with priority p is in m's queue again. */
  ghost predicate Rejoined(T: seq<Tcb>, M: seq<Mtx>, x: Exempt, t: nat, p: int, m: nat, T': seq<Tcb>, M': seq<Mtx>) {
    && Wf(T, M, x) && t < |T| && m < |M| && x == Exempt(None, Some(t)) && 0 <= p < NUM_TSKPRI
    && T[t].status == WaitMutex(m) && t !in M[m].queue && M[m].proto == Inherit && M[m].live && M[m].owner.Some? && M[m].owner != Some(t)
    && T' == T[t := T[t].(pri := p)] && Within(M[m].queue, |T|) && M' == M[m := M[m].(queue := Moved(T', M[m].queue, t))]
    && (forall w :: w in M'[m].queue <==> w in M[m].queue || w == t)
  }

  lemma RejoinMutexOk(T: seq<Tcb>, M: seq<Mtx>, x: Exempt, t: nat, p: int, m: nat, T': seq<Tcb>, M': seq<Mtx>, n: nat)
    requires Rejoined(T, M, x, t, p, m, T', M') && n < |M|
    requires Distinct(M'[m].queue) && Within(M'[m].queue, |T|) && Sorted(T', M'[m].queue)
    ensures MutexOk(T', M', WHOLE, n)
  {
    assert MutexOk(T, M, x, n);
    if n != m && M[n].proto != Fifo {
      forall i | 0 <= i < |M[n].queue| ensures T'[M[n].queue[i]].pri == T[M[n].queue[i]].pri { assert M[n].queue[i] in M[n].queue; }
      SortedSamePri(T, T', M[n].queue);
    }
  }

  lemma RejoinOther(T: seq<Tcb>, M: seq<Mtx>, x: Exempt, t: nat, p: int, m: nat, T': seq<Tcb>, M': seq<Mtx>, u: nat)
    requires Rejoined(T, M, x, t, p, m, T', M') && u < |T| && M[m].owner != Some(u)
    requires Effective(T, M, NoPledge, u, if u == t then p else T[u].pri)
    ensures Effective(T', M', NoPledge, u, T'[u].pri)
  {
    var q := T'[u].pri;
    assert TaskOk(T, M, x, u);
    forall n: nat, w: nat | n in T[u].held && n < |M| && M[n].proto == Inherit && w in M[n].queue ensures n != m && w != t {
      assert MutexOk(T, M, x, n);
    }
    if DonatedSource(T, M, u, q) {
      var n: nat, w: nat :| n in T[u].held && n < |M| && M[n].proto == Inherit && w in M[n].queue && w < |T| && q == T[w].pri;
      assert w in M'[n].queue && T'[w].pri == q;
      assert DonatedSource(T', M', u, q);
    }
  }

  lemma RejoinHolder(T: seq<Tcb>, M: seq<Mtx>, x: Exempt, t: nat, p: int, m: nat, T': seq<Tcb>, M': seq<Mtx>, o: nat)
    requires Rejoined(T, M, x, t, p, m, T', M') && M[m].owner == Some(o) && o < |T| && o != t && Effective(T, M, NoPledge, o, T[o].pri)
    ensures p < T[o].pri ==> Effective(T', M', NoPledge, o, p)
    ensures T[o].pri <= p ==> Effective(T', M', NoPledge, o, T[o].pri)
  {
    var q := if p < T[o].pri then p else T[o].pri;
    RejoinBound(T, M, x, t, p, m, T', M', o, q);
    assert MutexOk(T, M, x, m);
    if p < T[o].pri {
      assert m in T'[o].held && t in M'[m].queue && T'[t].pri == p;
      assert DonatedSource(T', M', o, p);
    } else if DonatedSource(T, M, o, T[o].pri) {
      var n: nat, w: nat :| n in T[o].held && n < |M| && M[n].proto == Inherit && w in M[n].queue && w < |T| && T[o].pri == T[w].pri;
      RejoinDonor(T, M, x, t, p, m, T', M', o, n, w);
    } else {
      assert OwnSource(T', M', NoPledge, o, T[o].pri);
    }
  }

  lemma RejoinBound(T: seq<Tcb>, M: seq<Mtx>, x: Exempt, t: nat, p: int, m: nat, T': seq<Tcb>, M': seq<Mtx>, o: nat, q: int)
    requires Rejoined(T, M, x, t, p, m, T', M') && o < |T| && o != t && AtMost(T, M, NoPledge, o, T[o].pri)
    requires q <= p && q <= T[o].pri
    ensures AtMost(T', M', NoPledge, o, q)
  {
    forall n: nat, w: nat | n in T[o].held && n < |M| && M'[n].proto == Inherit && w in M'[n].queue && w < |T| ensures q <= T'[w].pri {
      if w != t { assert w in M[n].queue; }
    }
  }

  lemma RejoinDonor(T: seq<Tcb>, M: seq<Mtx>, x: Exempt, t: nat, p: int, m: nat, T': seq<Tcb>, M': seq<Mtx>, o: nat, n: nat, w: nat)
    requires Rejoined(T, M, x, t, p, m, T', M') && o < |T|
    requires n in T[o].held && n < |M| && M[n].proto == Inherit && w in M[n].queue && w < |T| && T[o].pri == T[w].pri
    ensures DonatedSource(T', M', o, T[o].pri)
  {
    assert MutexOk(T, M, x, n);
    assert w != t && w in M'[n].queue && T'[w] == T[w] && n in T'[o].held && M'[n].proto == Inherit;
  }

  lemma TaskLands(T: seq<Tcb>, M: seq<Mtx>, x: Exempt, v: Pledge, f: Fall, t: nat, p: int, T1: seq<Tcb>, M1: seq<Mtx>, T2: seq<Tcb>, M2: seq<Mtx>)
    requires Heading(T, M, x, v, f, t, p) && T[t].pri <= p && x.task == Some(t) && SameBut(T, M, T1, M1, Some(t)) && SameBut(T1, M1, T2, M2, None)
    requires Wf(T2, M2, WHOLE) && Balanced(T2, M2, NoPledge, {})
    ensures Landed(T, M, T2, M2, x, v, f, t, p, true)
  {
    TaskReached(f, T, M, x, t, p);
    SameButTrans(T, M, T1, M1, T2, M2, Some(t), None);
  }

  // ----- Which of these it is, at the hook

  /** Up the chain; down it; round to a waiter of the exempt mutex; round to the exempt task. */
  datatype Way = Up | Down | ToWaiter | ToTask

  function WayOf(T: seq<Tcb>, x: Exempt, t: nat, p: int): Way
    requires t < |T|
  {
    if p < T[t].pri then Up
    else if x.task == Some(t) then ToTask
    else if T[t].status.WaitMutex? && x.mutex == Some(T[t].status.m) then ToWaiter
    else Down
  }

  function ExemptOn(x: Exempt, way: Way): Exempt {
    if way.ToTask? then WHOLE else x
  }

  function PledgeOn(v: Pledge, way: Way, o: nat, p: int): Pledge {
    if way.ToWaiter? then Pledge(o, p) else v
  }

  function FallOn(f: Fall, way: Way, t: nat): Fall {
    if way.Up? then f else Grown(f, t)
  }

  /** What holds at the holder o once t has its new priority, whichever way it is. */
  lemma HolderReady(T: seq<Tcb>, M: seq<Mtx>, x: Exempt, v: Pledge, f: Fall, t: nat, p: int, o: nat, T1: seq<Tcb>, M1: seq<Mtx>, way: Way)
    requires Heading(T, M, x, v, f, t, p) && Blocks(T, M, t, o) && RepriStep(T, M, t, p, T1, M1) && way == WayOf(T, x, t, p)
    ensures o < |T| && o != t
    ensures p < T1[o].pri ==> Heading(T1, M1, ExemptOn(x, way), PledgeOn(v, way, o, p), FallOn(f, way, t), o, p)
    ensures T1[o].pri <= p && T1[o].pri == T[t].pri ==> Releasing(T1, M1, ExemptOn(x, way), FallOn(f, way, t), o, None)
    ensures T1[o].pri <= p && T1[o].pri != T[t].pri ==> Landed(T, M, T1, M1, x, v, f, t, p, way.ToTask?)
  {
    match way
    case Up =>
      HolderFacts(T, M, x, v, f, t, p, o);
      if p < T1[o].pri {
        RiseGoesOn(T, M, x, v, f, t, p, o, T1, M1);
      } else {
        RiseStays(T, M, x, v, f, t, p, o, T1, M1);
      }
    case Down =>
      HolderFacts(T, M, x, v, f, t, p, o);
      FallGoesOn(T, M, x, v, f, t, p, o, T1, M1);
      if T1[o].pri != T[t].pri {
        FallStays(T, M, x, v, f, t, p, o, T1, M1);
      } else if x != WHOLE {
        FallArrives(T, M, x, v, f, t, p, o, T1, M1);
      }
    case ToWaiter =>
      HolderFacts(T, M, x, v, f, t, p, o);
      WaiterBack(T, M, x, v, f, t, p, o, T1, M1);
    case ToTask =>
      TaskRejoins(T, M, x, v, f, t, p, o, T1, M1);
      if T1[o].pri <= p {
        assert Balanced(T1, M1, NoPledge, {});
        SameButSelf(T1, M1);
        TaskLands(T, M, x, v, f, t, p, T1, M1, T1, M1);
      }
  }

  lemma SameButSelf(T: seq<Tcb>, M: seq<Mtx>)
    ensures SameBut(T, M, T, M, None)
  {
  }

  lemma RaisedLands(T: seq<Tcb>, M: seq<Mtx>, x: Exempt, v: Pledge, f: Fall, t: nat, p: int, o: nat, T1: seq<Tcb>, M1: seq<Mtx>,
                    T2: seq<Tcb>, M2: seq<Mtx>, way: Way, back: bool)
    requires Heading(T, M, x, v, f, t, p) && Blocks(T, M, t, o) && RepriStep(T, M, t, p, T1, M1) && way == WayOf(T, x, t, p)
    requires o < |T1| && p < T1[o].pri && Landed(T1, M1, T2, M2, ExemptOn(x, way), PledgeOn(v, way, o, p), FallOn(f, way, t), o, p, back)
    ensures Landed(T, M, T2, M2, x, v, f, t, p, !way.Up?)
  {
    match way
    case Up =>
      RiseLands(T, M, x, v, f, t, p, o, T1, M1, T2, M2);
    case Down =>
      FallGoesOn(T, M, x, v, f, t, p, o, T1, M1);
    case ToWaiter =>
      WaiterBack(T, M, x, v, f, t, p, o, T1, M1);
      WaiterLands(T, M, x, v, f, t, p, o, T1, M1, T2, M2);
    case ToTask =>
      TaskRejoins(T, M, x, v, f, t, p, o, T1, M1);
      PriOnlySame(T1, M1, T2, M2, o, true);
      TaskLands(T, M, x, v, f, t, p, T1, M1, T2, M2);
  }

  lemma LoweredLands(T: seq<Tcb>, M: seq<Mtx>, x: Exempt, v: Pledge, f: Fall, t: nat, p: int, o: nat, T1: seq<Tcb>, M1: seq<Mtx>,
                     T2: seq<Tcb>, M2: seq<Mtx>, way: Way, back: bool)
    requires Heading(T, M, x, v, f, t, p) && Blocks(T, M, t, o) && RepriStep(T, M, t, p, T1, M1) && way == WayOf(T, x, t, p)
    requires o < |T1| && T1[o].pri <= p && T1[o].pri == T[t].pri && Released(T1, M1, T2, M2, ExemptOn(x, way), FallOn(f, way, t), o, back)
    ensures Landed(T, M, T2, M2, x, v, f, t, p, back || way.ToTask?)
  {
    match way
    case Up =>
    case Down =>
      FallGoesOn(T, M, x, v, f, t, p, o, T1, M1);
      FallLands(T, M, x, v, f, t, p, o, T1, M1, T2, M2, back);
    case ToWaiter =>
      WaiterBack(T, M, x, v, f, t, p, o, T1, M1);
    case ToTask =>
      TaskRejoins(T, M, x, v, f, t, p, o, T1, M1);
      PriOnlySame(T1, M1, T2, M2, o, false);
      TaskLands(T, M, x, v, f, t, p, T1, M1, T2, M2);
  }
}
