/** The structural steps of the mutex calls on control-block values, and what each
    one does to the priority equation. */
module MutexSteps {
  import opened Options
  import opened Lists
  import opened MutexState

  // ----- Taking a mutex off its holder's list (knl_release_mutex)

  function Detached(T: seq<Tcb>, t: nat, m: nat): seq<Tcb>
    requires t < |T|
  {
    T[t := T[t].(held := Without(T[t].held, m))]
  }

  lemma DetachWf(T: seq<Tcb>, M: seq<Mtx>, x: Exempt, t: nat, m: nat)
    requires Wf(T, M, x) && t < |T| && m in T[t].held && x.mutex.None?
    ensures Wf(Detached(T, t, m), M, x.(mutex := Some(m)))
  {
    var T', x' := Detached(T, t, m), x.(mutex := Some(m));
    assert TaskOk(T, M, x, t);
    WithoutDistinct(T[t].held, m);
    forall u | 0 <= u < |T'| ensures TaskOk(T', M, x', u) {
      assert TaskOk(T, M, x, u);
    }
    forall n | 0 <= n < |M| ensures MutexOk(T', M, x', n) {
      assert MutexOk(T, M, x, n);
      if M[n].proto != Fifo { SortedSamePri(T, T', M[n].queue); }
    }
  }

  lemma DetachBalanced(T: seq<Tcb>, M: seq<Mtx>, v: Pledge, t: nat, m: nat, e: set<nat>)
    requires t < |T| && Balanced(T, M, v, e) && t in e
    ensures Balanced(Detached(T, t, m), M, v, e)
  {
    forall u | 0 <= u < |T| && u !in e ensures Effective(Detached(T, t, m), M, v, u, T[u].pri) {
      SameSources(T, M, v, Detached(T, t, m), M, u, T[u].pri);
    }
  }

  /** Equal lists, bases and waiter priorities give equal equations. */
  lemma SameSources(T: seq<Tcb>, M: seq<Mtx>, v: Pledge, T': seq<Tcb>, M': seq<Mtx>, u: nat, p: int)
    requires u < |T| && |T'| == |T| && |M'| == |M|
    requires T'[u].held == T[u].held && T'[u].bpri == T[u].bpri
    requires forall m: nat :: m in T[u].held && m < |M| ==> M'[m].proto == M[m].proto && M'[m].ceil == M[m].ceil && M'[m].queue == M[m].queue
    requires forall w :: 0 <= w < |T| ==> T'[w].pri == T[w].pri
    requires Effective(T, M, v, u, p)
    ensures Effective(T', M', v, u, p)
  {
    if DonatedSource(T, M, u, p) {
      var m: nat, w: nat :| m in T[u].held && m < |M| && M[m].proto == Inherit && w in M[m].queue && w < |T| && p == T[w].pri;
      assert w in M'[m].queue && T'[w].pri == p;
      assert DonatedSource(T', M', u, p);
    }
  }

  // ----- Reading off the effective priority list entry by list entry

  function Listed(T: seq<Tcb>, t: nat, l: seq<nat>): seq<Tcb>
    requires t < |T|
  {
    T[t := T[t].(held := l)]
  }

  lemma EffectiveEmpty(T: seq<Tcb>, M: seq<Mtx>, t: nat)
    requires t < |T|
    ensures Effective(Listed(T, t, []), M, NoPledge, t, T[t].bpri)
  {
  }

  /** What holding m gives its holder: the ceiling, the first waiter's priority, or nothing new. */
  function Offered(T: seq<Tcb>, M: seq<Mtx>, m: nat, pri: int): int
    requires m < |M| && Within(M[m].queue, |T|)
  {
    match M[m].proto
    case Ceiling => M[m].ceil
    case Inherit => if M[m].queue != [] then T[M[m].queue[0]].pri else pri
    case _ => pri
  }

  /** One more mutex in the list: the minimum with what that mutex contributes. */
  lemma EffectiveExtend(T: seq<Tcb>, M: seq<Mtx>, t: nat, l: seq<nat>, m: nat, p: int, pri: int, q: int)
    requires t < |T| && m < |M| && Effective(Listed(T, t, l), M, NoPledge, t, p)
    requires Within(M[m].queue, |T|) && p <= pri
    requires M[m].proto == Inherit ==> Sorted(T, M[m].queue)
    requires q == if Offered(T, M, m, pri) < p then Offered(T, M, m, pri) else p
    ensures Effective(Listed(T, t, l + [m]), M, NoPledge, t, q)
  {
    var A, B := Listed(T, t, l), Listed(T, t, l + [m]);
    assert forall n :: n in l + [m] <==> n in l || n == m;
    forall n: nat, w: nat | n in B[t].held && n < |M| && M[n].proto == Inherit && w in M[n].queue && w < |T|
      ensures q <= B[w].pri
    {
      if n !in l {
        var i :| 0 <= i < |M[m].queue| && M[m].queue[i] == w;
        assert i == 0 || T[M[m].queue[0]].pri <= T[w].pri;
      } else {
        assert p <= A[w].pri;
      }
    }
    if q == p {
      if DonatedSource(A, M, t, p) {
        var n: nat, w: nat :| n in A[t].held && n < |M| && M[n].proto == Inherit && w in M[n].queue && w < |T| && p == A[w].pri;
        assert n in B[t].held && B[w].pri == p;
      }
    } else if M[m].proto == Inherit {
      var w := M[m].queue[0];
      assert m in B[t].held && w in M[m].queue && B[w].pri == q;
    } else {
      assert m in B[t].held;
    }
  }

  /** Mutex m can be asked what it offers. */
  ghost predicate OfferOk(T: seq<Tcb>, M: seq<Mtx>, m: nat) {
    && m < |M| && Within(M[m].queue, |T|) && 0 <= M[m].ceil < NUM_TSKPRI
    && (M[m].proto == Inherit ==> Sorted(T, M[m].queue))
    && (M[m].queue != [] ==> 0 <= T[M[m].queue[0]].pri < NUM_TSKPRI)
  }

  ghost predicate ListOk(T: seq<Tcb>, M: seq<Mtx>, l: seq<nat>) {
    forall i :: 0 <= i < |l| ==> OfferOk(T, M, l[i])
  }

  /** The highest priority among base and what the mutexes in l offer, as the scans compute it. */
  ghost function Lowest(T: seq<Tcb>, M: seq<Mtx>, l: seq<nat>, base: int): int
    requires ListOk(T, M, l)
  {
    if l == [] then base
    else
      var r := Lowest(T, M, l[..|l| - 1], base);
      var q := Offered(T, M, l[|l| - 1], r);
      if q < r then q else r
  }

  lemma LowestSnoc(T: seq<Tcb>, M: seq<Mtx>, l: seq<nat>, m: nat, base: int, pri: int)
    requires ListOk(T, M, l) && OfferOk(T, M, m) && Lowest(T, M, l, base) <= pri
    ensures ListOk(T, M, l + [m])
    ensures var p, q := Lowest(T, M, l, base), Offered(T, M, m, pri);
      Lowest(T, M, l + [m], base) == if q < p then q else p
  {
    assert (l + [m])[..|l|] == l;
  }

  /** The scan of t's whole list arrives at t's effective priority for that base. */
  lemma {:induction false} LowestEffective(T: seq<Tcb>, M: seq<Mtx>, t: nat, l: seq<nat>)
    requires t < |T| && ListOk(T, M, l)
    ensures Effective(Listed(T, t, l), M, NoPledge, t, Lowest(T, M, l, T[t].bpri))
  {
    if l == [] {
      EffectiveEmpty(T, M, t);
    } else {
      var k := l[..|l| - 1];
      LowestEffective(T, M, t, k);
      assert l == k + [l[|l| - 1]];
      var p := Lowest(T, M, k, T[t].bpri);
      EffectiveExtend(T, M, t, k, l[|l| - 1], p, p, Lowest(T, M, l, T[t].bpri));
    }
  }

  /** A list of mutexes after rel, if any, was taken out. */
  function Kept(l: seq<nat>, rel: Option<nat>): seq<nat> {
    if rel.Some? then Without(l, rel.value) else l
  }

  lemma KeptSnoc(l: seq<nat>, m: nat, rel: Option<nat>)
    ensures Kept(l + [m], rel) == if rel == Some(m) then Kept(l, rel) else Kept(l, rel) + [m]
  {
    if rel.Some? { WithoutSnoc(l, m, rel.value); }
  }

  lemma {:induction false} WithoutSnoc(q: seq<nat>, m: nat, r: nat)
    ensures Without(q + [m], r) == if m == r then Without(q, r) else Without(q, r) + [m]
  {
    if q == [] {
      assert q + [m] == [m];
    } else {
      assert (q + [m])[1..] == q[1..] + [m];
      WithoutSnoc(q[1..], m, r);
    }
  }

  lemma KeptEffective(T: seq<Tcb>, M: seq<Mtx>, t: nat, rel: Option<nat>)
    requires t < |T| && ListOk(T, M, Kept(T[t].held, rel))
    ensures Effective(if rel.Some? then Detached(T, t, rel.value) else T, M, NoPledge, t, Lowest(T, M, Kept(T[t].held, rel), T[t].bpri))
  {
    var l := Kept(T[t].held, rel);
    assert Listed(T, t, l) == if rel.Some? then Detached(T, t, rel.value) else T;
    LowestEffective(T, M, t, l);
  }

  lemma HeldOk(T: seq<Tcb>, M: seq<Mtx>, x: Exempt, t: nat)
    requires Wf(T, M, x) && t < |T|
    ensures ListOk(T, M, T[t].held) && 0 <= T[t].bpri < NUM_TSKPRI
  {
    assert TaskOk(T, M, x, t);
    forall i | 0 <= i < |T[t].held| ensures OfferOk(T, M, T[t].held[i]) {
      var m := T[t].held[i];
      assert m in T[t].held;
      assert MutexOk(T, M, x, m);
      if M[m].queue != [] {
        assert M[m].queue[0] in M[m].queue && TaskOk(T, M, x, M[m].queue[0]);
      }
    }
  }

  /** Every task's equation has a solution. */
  lemma LowNow(T: seq<Tcb>, M: seq<Mtx>, x: Exempt, o: nat) returns (low: int)
    requires Wf(T, M, x) && o < |T|
    ensures Effective(T, M, NoPledge, o, low)
  {
    HeldOk(T, M, x, o);
    KeptEffective(T, M, o, None);
    low := Lowest(T, M, T[o].held, T[o].bpri);
  }

  // ----- Giving a free or released mutex to task w

  /** w is made the holder of m and, when it was waiting for it, leaves the queue. */
  function GivenTcb(T: seq<Tcb>, w: nat, m: nat): seq<Tcb>
    requires w < |T|
  {
    T[w := T[w].(status := Runnable, held := [m] + T[w].held)]
  }

  function GivenMtx(M: seq<Mtx>, w: nat, m: nat): seq<Mtx>
    requires m < |M|
  {
    M[m := M[m].(owner := Some(w), queue := if M[m].queue == [] then [] else M[m].queue[1..])]
  }

  /** m is live, in nobody's list, and w is its first waiter or a runnable task taking a free mutex. */
  ghost predicate CanGive(T: seq<Tcb>, M: seq<Mtx>, x: Exempt, w: nat, m: nat) {
    && w < |T| && m < |M| && M[m].live && x.task != Some(w)
    && if M[m].queue == [] then
         T[w].status.Runnable? && M[m].owner.None? && x.mutex.None? && (M[m].proto == Ceiling ==> M[m].ceil <= T[w].bpri)
       else
         w == M[m].queue[0] && x.mutex == Some(m)
  }

  lemma GiveNobody(T: seq<Tcb>, M: seq<Mtx>, x: Exempt, w: nat, m: nat, u: nat)
    requires Wf(T, M, x) && CanGive(T, M, x, w, m) && u < |T|
    ensures m !in T[u].held
  {
    assert MutexOk(T, M, x, m) && TaskOk(T, M, x, u);
  }

  lemma GiveTaskOk(T: seq<Tcb>, M: seq<Mtx>, x: Exempt, w: nat, m: nat, u: nat)
    requires Wf(T, M, x) && CanGive(T, M, x, w, m) && u < |T|
    ensures TaskOk(GivenTcb(T, w, m), GivenMtx(M, w, m), x.(mutex := None), u)
  {
    var T', M' := GivenTcb(T, w, m), GivenMtx(M, w, m);
    assert TaskOk(T, M, x, u) && MutexOk(T, M, x, m);
    GiveNobody(T, M, x, w, m, u);
    if M[m].queue != [] {
      assert M[m].queue == [w] + M[m].queue[1..];
      assert w in M[m].queue;
    }
    assert T'[u].held == T[u].held || (u == w && T'[u].held == [m] + T[u].held);
    assert Distinct(T'[u].held);
    forall n: nat | n in T'[u].held ensures n < |M'| && M'[n].live && M'[n].owner == Some(u) {
    }
  }

  lemma TailFacts(q: seq<nat>)
    requires q != [] && Distinct(q)
    ensures Distinct(q[1..]) && q[0] !in q[1..]
    ensures forall w :: w in q[1..] ==> w in q
  {
  }

  lemma GiveMutexOther(T: seq<Tcb>, M: seq<Mtx>, x: Exempt, w: nat, m: nat, n: nat)
    requires Wf(T, M, x) && CanGive(T, M, x, w, m) && n < |M| && n != m
    ensures MutexOk(GivenTcb(T, w, m), GivenMtx(M, w, m), x.(mutex := None), n)
  {
    var T' := GivenTcb(T, w, m);
    assert MutexOk(T, M, x, n) && MutexOk(T, M, x, m);
    assert w !in M[n].queue by {
      if M[m].queue != [] { assert w in M[m].queue; }
    }
    if M[n].proto != Fifo { SortedSamePri(T, T', M[n].queue); }
  }

  /** The line of m without its head. */
  lemma GiveTail(T: seq<Tcb>, M: seq<Mtx>, x: Exempt, w: nat, m: nat)
    requires Wf(T, M, x) && CanGive(T, M, x, w, m) && M[m].queue != []
    ensures var q := M[m].queue[1..]; Distinct(q) && Within(q, |T|) && w !in q && (M[m].proto != Fifo ==> Sorted(GivenTcb(T, w, m), q))
    ensures forall u :: u in M[m].queue[1..] ==> u in M[m].queue
  {
    assert MutexOk(T, M, x, m);
    TailFacts(M[m].queue);
    if M[m].proto != Fifo {
      assert Within(M[m].queue[1..], |T|) && Sorted(T, M[m].queue[1..]);
      SortedSamePri(T, GivenTcb(T, w, m), M[m].queue[1..]);
    }
  }

  /** The tasks left in the line of m still wait for it, and m's ceiling binds them. */
  lemma GiveWaiters(T: seq<Tcb>, M: seq<Mtx>, x: Exempt, w: nat, m: nat, u: nat)
    requires Wf(T, M, x) && CanGive(T, M, x, w, m) && M[m].queue != [] && u in M[m].queue[1..]
    ensures u < |T| && u != w && GivenTcb(T, w, m)[u] == T[u] && T[u].status == WaitMutex(m)
    ensures M[m].proto == Ceiling ==> M[m].ceil <= T[u].bpri
  {
    GiveTail(T, M, x, w, m);
    assert MutexOk(T, M, x, m);
  }

  lemma GiveMutexSame(T: seq<Tcb>, M: seq<Mtx>, x: Exempt, w: nat, m: nat)
    requires Wf(T, M, x) && CanGive(T, M, x, w, m)
    ensures MutexOk(GivenTcb(T, w, m), GivenMtx(M, w, m), x.(mutex := None), m)
  {
    assert 0 <= M[m].ceil < NUM_TSKPRI by { assert MutexOk(T, M, x, m); }
    if M[m].queue != [] {
      GiveTail(T, M, x, w, m);
      forall u: nat | u in M[m].queue[1..]
        ensures u < |T| && u != w && GivenTcb(T, w, m)[u] == T[u] && T[u].status == WaitMutex(m) && (M[m].proto == Ceiling ==> M[m].ceil <= T[u].bpri)
      {
        GiveWaiters(T, M, x, w, m, u);
      }
    }
  }

  lemma GiveWf(T: seq<Tcb>, M: seq<Mtx>, x: Exempt, w: nat, m: nat)
    requires Wf(T, M, x) && CanGive(T, M, x, w, m)
    ensures Wf(GivenTcb(T, w, m), GivenMtx(M, w, m), x.(mutex := None))
  {
    forall u | 0 <= u < |T| ensures TaskOk(GivenTcb(T, w, m), GivenMtx(M, w, m), x.(mutex := None), u) {
      GiveTaskOk(T, M, x, w, m, u);
    }
    forall n | 0 <= n < |M| ensures MutexOk(GivenTcb(T, w, m), GivenMtx(M, w, m), x.(mutex := None), n) {
      if n == m { GiveMutexSame(T, M, x, w, m); } else { GiveMutexOther(T, M, x, w, m, n); }
    }
  }

  lemma GiveOthers(T: seq<Tcb>, M: seq<Mtx>, x: Exempt, v: Pledge, w: nat, m: nat, e: set<nat>)
    requires Wf(T, M, x) && CanGive(T, M, x, w, m) && Balanced(T, M, v, e)
    ensures Balanced(GivenTcb(T, w, m), GivenMtx(M, w, m), v, e + {w})
  {
    var T', M' := GivenTcb(T, w, m), GivenMtx(M, w, m);
    forall u | 0 <= u < |T'| && u !in e + {w} ensures Effective(T', M', v, u, T'[u].pri) {
      GiveNobody(T, M, x, w, m, u);
      SameSources(T, M, v, T', M', u, T[u].pri);
    }
  }

  /** The new holder's priority: the ceiling of m if that is higher, else what it had. */
  lemma GiveHolder(T: seq<Tcb>, M: seq<Mtx>, x: Exempt, w: nat, m: nat)
    requires Wf(T, M, x) && CanGive(T, M, x, w, m) && Effective(T, M, NoPledge, w, T[w].pri)
    ensures Effective(GivenTcb(T, w, m), GivenMtx(M, w, m), NoPledge, w,
                      if M[m].proto == Ceiling && M[m].ceil < T[w].pri then M[m].ceil else T[w].pri)
  {
    var p := if M[m].proto == Ceiling && M[m].ceil < T[w].pri then M[m].ceil else T[w].pri;
    GiveHolderBound(T, M, x, w, m, p);
    GiveHolderSource(T, M, x, w, m, p);
  }

  lemma GiveHolderBound(T: seq<Tcb>, M: seq<Mtx>, x: Exempt, w: nat, m: nat, p: int)
    requires Wf(T, M, x) && CanGive(T, M, x, w, m) && AtMost(T, M, NoPledge, w, T[w].pri)
    requires p == if M[m].proto == Ceiling && M[m].ceil < T[w].pri then M[m].ceil else T[w].pri
    ensures AtMost(GivenTcb(T, w, m), GivenMtx(M, w, m), NoPledge, w, p)
  {
    var T', M' := GivenTcb(T, w, m), GivenMtx(M, w, m);
    GiveNobody(T, M, x, w, m, w);
    assert MutexOk(T, M, x, m) && TaskOk(T, M, x, w);
    forall n: nat, u: nat | n in T'[w].held && n < |M'| && M'[n].proto == Inherit && u in M'[n].queue && u < |T'|
      ensures p <= T'[u].pri
    {
      if n == m { GiveLine(T, M, x, w, m, u); } else { assert n in T[w].held && u in M[n].queue; }
    }
  }

  /** Nobody left in a line by priority is above its former head. */
  lemma GiveLine(T: seq<Tcb>, M: seq<Mtx>, x: Exempt, w: nat, m: nat, u: nat)
    requires Wf(T, M, x) && CanGive(T, M, x, w, m) && M[m].proto == Inherit && u in GivenMtx(M, w, m)[m].queue
    ensures u < |T| && u != w && T[w].pri <= T[u].pri
  {
    assert MutexOk(T, M, x, m);
    var q := M[m].queue;
    var i :| 0 <= i < |q[1..]| && q[1..][i] == u;
    assert q[i + 1] == u && q[0] == w;
  }

  lemma GiveHolderSource(T: seq<Tcb>, M: seq<Mtx>, x: Exempt, w: nat, m: nat, p: int)
    requires Wf(T, M, x) && CanGive(T, M, x, w, m) && Effective(T, M, NoPledge, w, T[w].pri)
    requires p == if M[m].proto == Ceiling && M[m].ceil < T[w].pri then M[m].ceil else T[w].pri
    ensures OwnSource(GivenTcb(T, w, m), GivenMtx(M, w, m), NoPledge, w, p) || DonatedSource(GivenTcb(T, w, m), GivenMtx(M, w, m), w, p)
  {
    var T', M' := GivenTcb(T, w, m), GivenMtx(M, w, m);
    GiveNobody(T, M, x, w, m, w);
    if p != T[w].pri {
      assert m in T'[w].held && M'[m].proto == Ceiling && p == M'[m].ceil;
    } else if DonatedSource(T, M, w, p) {
      var n: nat, u: nat :| n in T[w].held && n < |M| && M[n].proto == Inherit && u in M[n].queue && u < |T| && p == T[u].pri;
      assert n in T'[w].held && M'[n] == M[n] && T'[u].pri == p;
    } else if p != T[w].bpri {
      var n: nat :| n in T[w].held && n < |M| && M[n].proto == Ceiling && p == M[n].ceil;
      assert n in T'[w].held && M'[n] == M[n];
    }
  }

  // ----- Nobody takes the mutex

  lemma FreeWf(T: seq<Tcb>, M: seq<Mtx>, x: Exempt, m: nat)
    requires Wf(T, M, x) && m < |M| && M[m].queue == [] && x.mutex == Some(m)
    ensures Wf(T, M[m := M[m].(owner := None)], x.(mutex := None))
  {
    var M', x' := M[m := M[m].(owner := None)], x.(mutex := None);
    assert MutexOk(T, M, x, m);
    forall u | 0 <= u < |T| ensures TaskOk(T, M', x', u) {
      assert TaskOk(T, M, x, u);
    }
    forall n | 0 <= n < |M| ensures MutexOk(T, M', x', n) {
      assert MutexOk(T, M, x, n);
    }
  }

  lemma OwnerBalanced(T: seq<Tcb>, M: seq<Mtx>, v: Pledge, m: nat, o: Option<nat>, e: set<nat>)
    requires m < |M| && Balanced(T, M, v, e)
    ensures Balanced(T, M[m := M[m].(owner := o)], v, e)
  {
    forall u | 0 <= u < |T| && u !in e ensures Effective(T, M[m := M[m].(owner := o)], v, u, T[u].pri) {
      SameSources(T, M, v, T, M[m := M[m].(owner := o)], u, T[u].pri);
    }
  }

  // ----- Leaving and entering a wait queue

  /** t leaves m's queue; its state becomes s (Runnable on release, unchanged on cancel). */
  function LeftMtx(M: seq<Mtx>, t: nat, m: nat): seq<Mtx>
    requires m < |M|
  {
    M[m := M[m].(queue := Without(M[m].queue, t))]
  }

  lemma LeaveWf(T: seq<Tcb>, M: seq<Mtx>, t: nat, m: nat, s: Status)
    requires Wf(T, M, WHOLE) && t < |T| && m < |M| && T[t].status == WaitMutex(m) && (s == Runnable || s == T[t].status)
    ensures Wf(T[t := T[t].(status := s)], LeftMtx(M, t, m), Exempt(None, if s == Runnable then None else Some(t)))
  {
    var T', M', x := T[t := T[t].(status := s)], LeftMtx(M, t, m), Exempt(None, if s == Runnable then None else Some(t));
    assert TaskOk(T, M, WHOLE, t);
    forall u | 0 <= u < |T'| ensures TaskOk(T', M', x, u) {
      assert TaskOk(T, M, WHOLE, u);
    }
    forall n | 0 <= n < |M'| ensures MutexOk(T', M', x, n) { LeaveMutexOk(T, M, t, m, s, n); }
  }

  lemma LeaveMutexOk(T: seq<Tcb>, M: seq<Mtx>, t: nat, m: nat, s: Status, n: nat)
    requires Wf(T, M, WHOLE) && t < |T| && m < |M| && T[t].status == WaitMutex(m) && (s == Runnable || s == T[t].status) && n < |M|
    ensures MutexOk(T[t := T[t].(status := s)], LeftMtx(M, t, m), Exempt(None, if s == Runnable then None else Some(t)), n)
  {
    var T', M' := T[t := T[t].(status := s)], LeftMtx(M, t, m);
    assert MutexOk(T, M, WHOLE, n);
    if n == m {
      WithoutFacts(T, M[m].queue, t);
      if M[m].proto != Fifo { SortedSamePri(T, T', M'[m].queue); }
    } else {
      assert M'[n] == M[n] && t !in M[n].queue;
      if M[n].proto != Fifo { SortedSamePri(T, T', M[n].queue); }
    }
  }

  lemma LeaveOthers(T: seq<Tcb>, M: seq<Mtx>, t: nat, m: nat, s: Status, e: set<nat>)
    requires Wf(T, M, WHOLE) && t < |T| && m < |M| && T[t].status == WaitMutex(m) && Balanced(T, M, NoPledge, e)
    requires M[m].proto == Inherit ==> M[m].owner.Some? && M[m].owner.value in e
    ensures Balanced(T[t := T[t].(status := s)], LeftMtx(M, t, m), NoPledge, e)
  {
    var T', M' := T[t := T[t].(status := s)], LeftMtx(M, t, m);
    forall u | 0 <= u < |T'| && u !in e ensures Effective(T', M', NoPledge, u, T'[u].pri) {
      LeaveOther(T, M, t, m, s, u);
    }
  }

  lemma LeaveOther(T: seq<Tcb>, M: seq<Mtx>, t: nat, m: nat, s: Status, u: nat)
    requires Wf(T, M, WHOLE) && t < |T| && m < |M| && T[t].status == WaitMutex(m) && u < |T|
    requires Effective(T, M, NoPledge, u, T[u].pri) && !(M[m].proto == Inherit && M[m].owner == Some(u))
    ensures Effective(T[t := T[t].(status := s)], LeftMtx(M, t, m), NoPledge, u, T[u].pri)
  {
    var T', M' := T[t := T[t].(status := s)], LeftMtx(M, t, m);
    assert TaskOk(T, M, WHOLE, u);
    if DonatedSource(T, M, u, T[u].pri) {
      var n: nat, w: nat :| n in T[u].held && n < |M| && M[n].proto == Inherit && w in M[n].queue && w < |T| && T[u].pri == T[w].pri;
      assert n != m && M'[n] == M[n] && T'[w].pri == T[w].pri;
      assert DonatedSource(T', M', u, T[u].pri);
    }
  }

  /** The holder after t left: its priority is still a bound, and still right unless it equalled t's. */
  lemma LeaveHolder(T: seq<Tcb>, M: seq<Mtx>, t: nat, m: nat, s: Status, o: nat)
    requires Wf(T, M, WHOLE) && t < |T| && m < |M| && T[t].status == WaitMutex(m) && o < |T|
    requires Effective(T, M, NoPledge, o, T[o].pri)
    ensures AtMost(T[t := T[t].(status := s)], LeftMtx(M, t, m), NoPledge, o, T[o].pri)
    ensures T[o].pri != T[t].pri ==> Effective(T[t := T[t].(status := s)], LeftMtx(M, t, m), NoPledge, o, T[o].pri)
  {
    var T', M' := T[t := T[t].(status := s)], LeftMtx(M, t, m);
    if T[o].pri != T[t].pri && DonatedSource(T, M, o, T[o].pri) {
      var n: nat, w: nat :| n in T[o].held && n < |M| && M[n].proto == Inherit && w in M[n].queue && w < |T| && T[o].pri == T[w].pri;
      assert w != t && w in M'[n].queue && T'[w].pri == T[w].pri;
      assert DonatedSource(T', M', o, T[o].pri);
    }
  }

  function JoinedQueue(T: seq<Tcb>, q: seq<nat>, p: Protocol, t: nat): seq<nat>
    requires t < |T| && Within(q, |T|)
  {
    if p == Fifo then q + [t] else InsertAt(q, Place(T, q, T[t].pri), t)
  }

  function JoinedTcb(T: seq<Tcb>, t: nat, m: nat): seq<Tcb>
    requires t < |T|
  {
    T[t := T[t].(status := WaitMutex(m))]
  }

  function JoinedMtx(T: seq<Tcb>, M: seq<Mtx>, t: nat, m: nat): seq<Mtx>
    requires t < |T| && m < |M| && Within(M[m].queue, |T|)
  {
    M[m := M[m].(queue := JoinedQueue(T, M[m].queue, M[m].proto, t))]
  }

  ghost predicate CanJoin(T: seq<Tcb>, M: seq<Mtx>, t: nat, m: nat) {
    && t < |T| && m < |M| && T[t].status.Runnable? && M[m].live && M[m].owner.Some? && M[m].owner != Some(t)
    && Within(M[m].queue, |T|) && (M[m].proto == Ceiling ==> M[m].ceil <= T[t].bpri)
  }

  lemma JoinQueue(T: seq<Tcb>, q: seq<nat>, p: Protocol, t: nat)
    requires t < |T| && Within(q, |T|) && Distinct(q) && t !in q && (p != Fifo ==> Sorted(T, q))
    ensures var r := JoinedQueue(T, q, p, t);
      && Distinct(r) && Within(r, |T|) && (forall w :: w in r <==> w in q || w == t)
      && multiset(r) == multiset(q) + multiset{t} && (p != Fifo ==> Sorted(T, r))
  {
    if p != Fifo {
      InsertShape(T, q, Place(T, q, T[t].pri), t);
      InsertSorted(T, q, t);
    }
  }

  lemma JoinWf(T: seq<Tcb>, M: seq<Mtx>, t: nat, m: nat)
    requires Wf(T, M, WHOLE) && CanJoin(T, M, t, m)
    ensures Wf(JoinedTcb(T, t, m), JoinedMtx(T, M, t, m), WHOLE)
  {
    var T', M' := JoinedTcb(T, t, m), JoinedMtx(T, M, t, m);
    assert MutexOk(T, M, WHOLE, m) && TaskOk(T, M, WHOLE, t);
    JoinQueue(T, M[m].queue, M[m].proto, t);
    forall u | 0 <= u < |T'| ensures TaskOk(T', M', WHOLE, u) {
      assert TaskOk(T, M, WHOLE, u);
    }
    forall n | 0 <= n < |M'| ensures MutexOk(T', M', WHOLE, n) {
      assert MutexOk(T, M, WHOLE, n);
      assert n != m ==> t !in M[n].queue;
      if M[n].proto != Fifo { SortedSamePri(T, T', M'[n].queue); }
    }
  }

  /** A pledge to the holder turns into a real waiter. */
  lemma JoinBalanced(T: seq<Tcb>, M: seq<Mtx>, v: Pledge, t: nat, m: nat)
    requires Wf(T, M, WHOLE) && CanJoin(T, M, t, m) && Balanced(T, M, v, {})
    requires v.Pledge? ==> M[m].proto == Inherit && M[m].owner == Some(v.task) && v.pri == T[t].pri
    requires v.NoPledge? && M[m].proto == Inherit ==> M[m].owner.value < |T| && T[M[m].owner.value].pri <= T[t].pri
    ensures Balanced(JoinedTcb(T, t, m), JoinedMtx(T, M, t, m), NoPledge, {})
  {
    var T', M' := JoinedTcb(T, t, m), JoinedMtx(T, M, t, m);
    assert MutexOk(T, M, WHOLE, m);
    JoinQueue(T, M[m].queue, M[m].proto, t);
    forall u | 0 <= u < |T'| ensures Effective(T', M', NoPledge, u, T'[u].pri) {
      JoinBalancedAt(T, M, v, t, m, u);
    }
  }

  lemma JoinBalancedAt(T: seq<Tcb>, M: seq<Mtx>, v: Pledge, t: nat, m: nat, u: nat)
    requires Wf(T, M, WHOLE) && CanJoin(T, M, t, m) && u < |T| && Effective(T, M, v, u, T[u].pri)
    requires v.Pledge? ==> M[m].proto == Inherit && M[m].owner == Some(v.task) && v.pri == T[t].pri
    requires v.NoPledge? && M[m].proto == Inherit ==> M[m].owner.value < |T| && T[M[m].owner.value].pri <= T[t].pri
    requires forall w :: w in JoinedMtx(T, M, t, m)[m].queue <==> w in M[m].queue || w == t
    ensures Effective(JoinedTcb(T, t, m), JoinedMtx(T, M, t, m), NoPledge, u, T[u].pri)
  {
    var T', M' := JoinedTcb(T, t, m), JoinedMtx(T, M, t, m);
    assert TaskOk(T, M, WHOLE, u) && MutexOk(T, M, WHOLE, m);
    assert forall n: nat, w: nat :: n < |M| && w in M[n].queue ==> w in M'[n].queue;
    if DonatedSource(T, M, u, T[u].pri) {
      var n: nat, w: nat :| n in T[u].held && n < |M| && M[n].proto == Inherit && w in M[n].queue && w < |T| && T[u].pri == T[w].pri;
      assert w in M'[n].queue && T'[w].pri == T[w].pri;
      assert DonatedSource(T', M', u, T[u].pri);
    } else if v.Pledge? && v.task == u && T[u].pri == v.pri {
      assert m in T'[u].held && t in M'[m].queue && T'[t].pri == v.pri;
      assert DonatedSource(T', M', u, T[u].pri);
    }
  }
}
