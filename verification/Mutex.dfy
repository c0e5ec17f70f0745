// Mutexes with priority inheritance and priority ceilings
// (kernel/tkernel/mutex.c, with the parts of task.c, wait.c and
// task_manage.c that the mutex code recurses through).

/** Values shared by the mutex model: control blocks, the priority equation and its theory. */
module MutexState {
  import opened Options
  import opened Lists

  const NUM_TSKPRI := 32

  /** The two low attribute bits of a mutex: TA_TFIFO, TA_TPRI, TA_INHERIT, TA_CEILING. */
  datatype Protocol = Fifo | Prio | Inherit | Ceiling

  /** Task states as far as mutexes can see them; Runnable is READY or SUSPEND. */
  datatype Status = NonExistent | Dormant | Runnable | WaitMutex(m: nat) | WaitOther

  datatype Tcb = Tcb(pri: int, bpri: int, ipri: int, status: Status, held: seq<nat>)

  datatype Mtx = Mtx(live: bool, proto: Protocol, ceil: int, owner: Option<nat>, queue: seq<nat>)

  /** A priority promised to a task by a waiter that is not in the queue yet. */
  datatype Pledge = NoPledge | Pledge(task: nat, pri: int)

  /** Parts of the structure a caller has taken apart: a mutex already off its
      owner's list, and a task already off its wait queue. */
  datatype Exempt = Exempt(mutex: Option<nat>, task: Option<nat>)

  const WHOLE := Exempt(None, None)

  // ----- The priority equation

  /** p is no lower (numerically no larger) than anything that should raise task t. */
  ghost predicate AtMost(T: seq<Tcb>, M: seq<Mtx>, v: Pledge, t: nat, p: int)
    requires t < |T|
  {
    && p <= T[t].bpri
    && (v.Pledge? && v.task == t ==> p <= v.pri)
    && (forall m: nat :: m in T[t].held && m < |M| && M[m].proto == Ceiling ==> p <= M[m].ceil)
    && (forall m: nat, w: nat :: m in T[t].held && m < |M| && M[m].proto == Inherit && w in M[m].queue && w < |T| ==> p <= T[w].pri)
  }

  /** p is one of the priorities task t has by itself: its base, a held ceiling or a pledge. */
  ghost predicate OwnSource(T: seq<Tcb>, M: seq<Mtx>, v: Pledge, t: nat, p: int)
    requires t < |T|
  {
    || p == T[t].bpri
    || (v.Pledge? && v.task == t && p == v.pri)
    || (exists m: nat :: m in T[t].held && m < |M| && M[m].proto == Ceiling && p == M[m].ceil)
  }

  /** p is the priority of a task waiting for an inheritance mutex held by t. */
  ghost predicate DonatedSource(T: seq<Tcb>, M: seq<Mtx>, t: nat, p: int)
    requires t < |T|
  {
    exists m: nat, w: nat :: m in T[t].held && m < |M| && M[m].proto == Inherit && w in M[m].queue && w < |T| && p == T[w].pri
  }

  /** p is the minimum of t's base priority, its held ceilings and its waiters' priorities. */
  ghost predicate Effective(T: seq<Tcb>, M: seq<Mtx>, v: Pledge, t: nat, p: int)
    requires t < |T|
  {
    && AtMost(T, M, v, t, p)
    && (OwnSource(T, M, v, t, p) || DonatedSource(T, M, t, p))
  }

  /** Every task except e (when given) runs at exactly its effective priority. */
  ghost predicate Balanced(T: seq<Tcb>, M: seq<Mtx>, v: Pledge, e: set<nat>)
  {
    forall u :: 0 <= u < |T| && u !in e ==> Effective(T, M, v, u, T[u].pri)
  }

  // ----- Structure of the control blocks

  predicate Within(q: seq<nat>, n: nat) {
    forall i :: 0 <= i < |q| ==> q[i] < n
  }

  ghost predicate Sorted(T: seq<Tcb>, q: seq<nat>)
    requires Within(q, |T|)
  {
    forall i, j :: 0 <= i < j < |q| ==> T[q[i]].pri <= T[q[j]].pri
  }

  ghost predicate TaskOk(T: seq<Tcb>, M: seq<Mtx>, x: Exempt, t: nat)
    requires t < |T|
  {
    && 0 <= T[t].pri < NUM_TSKPRI && 0 <= T[t].bpri < NUM_TSKPRI && 0 <= T[t].ipri < NUM_TSKPRI
    && Distinct(T[t].held)
    && (forall m: nat :: m in T[t].held ==> m < |M| && M[m].live && M[m].owner == Some(t))
    && (T[t].status.WaitMutex? ==> T[t].status.m < |M| && (x.task != Some(t) ==> t in M[T[t].status.m].queue))
    && ((T[t].status.Dormant? || T[t].status.NonExistent?) ==> T[t].held == [])
    && (forall m: nat :: m in T[t].held && M[m].proto == Ceiling ==> M[m].ceil <= T[t].bpri)
  }

  ghost predicate MutexOk(T: seq<Tcb>, M: seq<Mtx>, x: Exempt, m: nat)
    requires m < |M|
  {
    && 0 <= M[m].ceil < NUM_TSKPRI
    && (M[m].live && M[m].owner.Some? ==> M[m].owner.value < |T| && (x.mutex != Some(m) <==> m in T[M[m].owner.value].held))
    && (M[m].queue != [] ==> M[m].live && M[m].owner.Some?)
    && Distinct(M[m].queue)
    && Within(M[m].queue, |T|)
    && (forall w: nat :: w in M[m].queue ==> w < |T| && T[w].status == WaitMutex(m) && M[m].owner != Some(w))
    && (M[m].proto != Fifo ==> Sorted(T, M[m].queue))
    && (M[m].proto == Ceiling ==> forall w: nat :: w in M[m].queue ==> w < |T| && M[m].ceil <= T[w].bpri)
  }

  ghost predicate Wf(T: seq<Tcb>, M: seq<Mtx>, x: Exempt) {
    && (forall t :: 0 <= t < |T| ==> TaskOk(T, M, x, t))
    && (forall m :: 0 <= m < |M| ==> MutexOk(T, M, x, m))
  }

  /** The invariant of every state between two calls. */
  ghost predicate Inv(T: seq<Tcb>, M: seq<Mtx>) {
    Wf(T, M, WHOLE) && Balanced(T, M, NoPledge, {})
  }

  // ----- Who a priority change can reach

  /** Task w waits for an inheritance mutex whose holder is o. */
  predicate Blocks(T: seq<Tcb>, M: seq<Mtx>, w: nat, o: nat) {
    && w < |T| && T[w].status.WaitMutex? && T[w].status.m < |M|
    && M[T[w].status.m].proto == Inherit && M[T[w].status.m].owner == Some(o)
  }

  /** u's priority counts w in: w waits for an inheritance mutex on u's list. */
  predicate Feeds(T: seq<Tcb>, M: seq<Mtx>, w: nat, u: nat) {
    && w < |T| && u < |T| && T[w].status.WaitMutex? && T[w].status.m < |M| && T[w].status.m in T[u].held
    && M[T[w].status.m].proto == Inherit && w in M[T[w].status.m].queue
  }

  ghost predicate Closed(T: seq<Tcb>, M: seq<Mtx>, S: set<nat>) {
    forall w: nat, o: nat :: w in S && Blocks(T, M, w, o) ==> o in S
  }

  /** o is reached from w along inheritance waits: every closed set with w has o. */
  ghost predicate Reaches(T: seq<Tcb>, M: seq<Mtx>, w: nat, o: nat) {
    forall S: set<nat> :: w in S && Closed(T, M, S) ==> o in S
  }

  /** Task t is in a deadlock of inheritance mutexes. */
  ghost predicate OnCycle(T: seq<Tcb>, M: seq<Mtx>, t: nat) {
    exists o: nat :: Blocks(T, M, t, o) && Reaches(T, M, o, t)
  }

  ghost predicate Acyclic(T: seq<Tcb>, M: seq<Mtx>) {
    forall t :: 0 <= t < |T| ==> !OnCycle(T, M, t)
  }

  // ----- What a priority change leaves alone

  ghost predicate Before(q: seq<nat>, a: nat, b: nat) {
    exists i, j :: 0 <= i < j < |q| && q[i] == a && q[j] == b
  }

  /** Task a kept its place: it is not t, and its priority did not move. */
  predicate Settled(T: seq<Tcb>, T': seq<Tcb>, t: nat, a: nat) {
    a != t && a < |T| && a < |T'| && T'[a].pri == T[a].pri
  }

  /** Waiters other than t whose priority did not move keep their relative order. */
  ghost predicate KeepsOrder(T: seq<Tcb>, T': seq<Tcb>, q: seq<nat>, q': seq<nat>, t: nat) {
    forall a: nat, b: nat :: Before(q, a, b) && Settled(T, T', t, a) && Settled(T, T', t, b) ==> Before(q', a, b)
  }

  predicate Shifted(T: seq<Tcb>, T': seq<Tcb>, a: nat) {
    a < |T| && a < |T'| && T'[a].pri != T[a].pri
  }

  predicate Unshifted(T: seq<Tcb>, T': seq<Tcb>, a: nat) {
    a < |T| && a < |T'| && T'[a].pri == T[a].pri
  }

  /** a stands behind every other task of its present priority whose own did not move. */
  ghost predicate Behind(T: seq<Tcb>, T': seq<Tcb>, q: seq<nat>, a: nat) {
    forall w: nat :: a < |T'| && Before(q, a, w) && w != a && Unshifted(T, T', w) ==> T'[a].pri < T'[w].pri
  }

  ghost predicate ShiftedBehind(T: seq<Tcb>, T': seq<Tcb>, q: seq<nat>) {
    forall a: nat :: Shifted(T, T', a) ==> Behind(T, T', q, a)
  }

  /** The same in every queue by priority, for t. */
  ghost predicate BehindEqualsIn(T: seq<Tcb>, T': seq<Tcb>, M': seq<Mtx>, t: nat) {
    forall m :: 0 <= m < |M'| && M'[m].proto != Fifo ==> Behind(T, T', M'[m].queue, t)
  }

  /** Only priorities changed, all in one direction, and queues by priority were only reordered: who
      did not move kept its order, and who moved went behind its new equals. */
  ghost predicate PriOnly(T: seq<Tcb>, M: seq<Mtx>, T': seq<Tcb>, M': seq<Mtx>, t: nat, up: bool) {
    && |T'| == |T| && |M'| == |M|
    && (forall u :: 0 <= u < |T| ==> T'[u] == T[u].(pri := T'[u].pri))
    && (forall u :: 0 <= u < |T| ==> if up then T'[u].pri <= T[u].pri else T[u].pri <= T'[u].pri)
    && (forall m :: 0 <= m < |M| ==> M'[m] == M[m].(queue := M'[m].queue) && multiset(M'[m].queue) == multiset(M[m].queue))
    && (forall m :: 0 <= m < |M| && M[m].proto == Fifo ==> M'[m] == M[m])
    && (forall m :: 0 <= m < |M| ==> KeepsOrder(T, T', M[m].queue, M'[m].queue, t))
    && (forall m :: 0 <= m < |M| && M[m].proto != Fifo ==> ShiftedBehind(T, T', M'[m].queue))
  }

  function SumPri(T: seq<Tcb>): int {
    if T == [] then 0 else T[0].pri + SumPri(T[1..])
  }

  lemma {:induction false} SumPriUpdate(T: seq<Tcb>, t: nat, c: Tcb)
    requires t < |T|
    ensures SumPri(T[t := c]) == SumPri(T) - T[t].pri + c.pri
  {
    var T' := T[t := c];
    if t == 0 {
      assert T'[1..] == T[1..];
    } else {
      assert T'[1..] == T[1..][t - 1 := c];
      SumPriUpdate(T[1..], t - 1, c);
    }
  }

  lemma {:induction false} SumPriBounds(T: seq<Tcb>)
    requires forall t :: 0 <= t < |T| ==> 0 <= T[t].pri < NUM_TSKPRI
    ensures 0 <= SumPri(T) <= NUM_TSKPRI * |T|
  {
    if T != [] {
      SumPriBounds(T[1..]);
    }
  }

  lemma PriOnlyTrans(T: seq<Tcb>, M: seq<Mtx>, T1: seq<Tcb>, M1: seq<Mtx>, T2: seq<Tcb>, M2: seq<Mtx>, t: nat, o: nat, up: bool)
    requires PriOnly(T, M, T1, M1, t, up) && PriOnly(T1, M1, T2, M2, o, up)
    requires o < |T| && T2[o].pri != T1[o].pri && forall m :: 0 <= m < |M2| ==> Distinct(M2[m].queue)
    ensures PriOnly(T, M, T2, M2, t, up)
    ensures BehindEqualsIn(T, T1, M1, t) ==> BehindEqualsIn(T, T2, M2, t)
  {
    assert T2[o].pri != T[o].pri;
    forall m | 0 <= m < |M| && M[m].proto != Fifo ensures ShiftedBehind(T, T2, M2[m].queue) {
      assert ShiftedBehind(T, T1, M1[m].queue);
      forall a: nat | Shifted(T, T2, a) ensures Behind(T, T2, M2[m].queue, a) {
        BehindTrans(T, M, T1, M1, T2, M2, t, o, up, m, a);
      }
    }
    if BehindEqualsIn(T, T1, M1, t) {
      forall m | 0 <= m < |M2| && M2[m].proto != Fifo ensures Behind(T, T2, M2[m].queue, t) {
        assert Behind(T, T1, M1[m].queue, t);
        BehindTrans(T, M, T1, M1, T2, M2, t, o, up, m, t);
      }
    }
    forall m | 0 <= m < |M|
      ensures KeepsOrder(T, T2, M[m].queue, M2[m].queue, t)
    {
      assert KeepsOrder(T, T1, M[m].queue, M1[m].queue, t);
      assert KeepsOrder(T1, T2, M1[m].queue, M2[m].queue, o);
      forall a: nat, b: nat | Before(M[m].queue, a, b) && Settled(T, T2, t, a) && Settled(T, T2, t, b)
        ensures Before(M2[m].queue, a, b)
      {
        assert Settled(T, T1, t, a) && Settled(T, T1, t, b);
        assert Settled(T1, T2, o, a) && Settled(T1, T2, o, b);
      }
    }
  }

  lemma BeforeEither(q: seq<nat>, a: nat, b: nat)
    requires a in q && b in q && a != b
    ensures Before(q, a, b) || Before(q, b, a)
  {
  }

  lemma BeforeOneWay(q: seq<nat>, a: nat, b: nat)
    requires Distinct(q) && Before(q, a, b)
    ensures !Before(q, b, a)
  {
  }

  /** Whoever stood behind its equals, or moves now, stands behind them after the second change. */
  lemma BehindTrans(T: seq<Tcb>, M: seq<Mtx>, T1: seq<Tcb>, M1: seq<Mtx>, T2: seq<Tcb>, M2: seq<Mtx>,
                    t: nat, o: nat, up: bool, m: nat, a: nat)
    requires PriOnly(T, M, T1, M1, t, up) && PriOnly(T1, M1, T2, M2, o, up)
    requires o < |T| && T2[o].pri != T1[o].pri && m < |M| && M[m].proto != Fifo && Distinct(M2[m].queue)
    requires Behind(T, T1, M1[m].queue, a) || Shifted(T1, T2, a)
    ensures Behind(T, T2, M2[m].queue, a)
  {
    var q1, q2 := M1[m].queue, M2[m].queue;
    assert KeepsOrder(T1, T2, q1, q2, o) && ShiftedBehind(T1, T2, q2) && M1[m].proto == M[m].proto;
    forall w: nat | a < |T2| && Before(q2, a, w) && w != a && Unshifted(T, T2, w) ensures T2[a].pri < T2[w].pri {
      assert Unshifted(T, T1, w) && Unshifted(T1, T2, w);
      if !Shifted(T1, T2, a) {
        assert a in multiset(q2) && w in multiset(q2);
        BeforeEither(q1, a, w);
        if Before(q1, w, a) {
          assert Settled(T1, T2, o, a) && Settled(T1, T2, o, w);
          BeforeOneWay(q2, a, w);
        }
      }
    }
  }

  /** Two effective priorities of one task agree. */
  lemma EffectiveUnique(T: seq<Tcb>, M: seq<Mtx>, v: Pledge, t: nat, p: int, q: int)
    requires t < |T| && Effective(T, M, v, t, p) && Effective(T, M, v, t, q)
    ensures p == q
  {
  }

  // ----- Priority-ordered queues (knl_queue_insert_tpri, wait.h)

  /** Index of the first waiter with a lower priority than p. */
  function Place(T: seq<Tcb>, q: seq<nat>, p: int): (k: nat)
    requires Within(q, |T|)
    ensures k <= |q|
    ensures forall i :: 0 <= i < k ==> T[q[i]].pri <= p
    ensures k < |q| ==> p < T[q[k]].pri
  {
    if q == [] || p < T[q[0]].pri then 0
    else 1 + Place(T, q[1..], p)
  }

  lemma {:induction false} WithoutIndex(q: seq<nat>, t: nat, k: nat)
    requires Distinct(q) && k < |q| && q[k] == t
    ensures Without(q, t) == q[..k] + q[k + 1..]
  {
    if k == 0 {
      WithoutAbsent(q[1..], t);
    } else {
      WithoutIndex(q[1..], t, k - 1);
      assert q[..k] + q[k + 1..] == [q[0]] + (q[1..][..k - 1] + q[1..][k..]);
    }
  }

  lemma SplitAt(q: seq<nat>, k: nat)
    requires k < |q|
    ensures q == q[..k] + [q[k]] + q[k + 1..]
    ensures multiset(q[..k] + q[k + 1..]) + multiset{q[k]} == multiset(q)
  {
    assert q == q[..k] + [q[k]] + q[k + 1..];
  }

  lemma BeforeDropped(q: seq<nat>, k: nat, a: nat, b: nat)
    requires k < |q| && Before(q, a, b) && a != q[k] && b != q[k]
    ensures Before(q[..k] + q[k + 1..], a, b)
  {
    var i, j :| 0 <= i < j < |q| && q[i] == a && q[j] == b;
    var r := q[..k] + q[k + 1..];
    assert r[if i < k then i else i - 1] == a && r[if j < k then j else j - 1] == b;
  }

  lemma BeforeInserted(q: seq<nat>, k: nat, t: nat, a: nat, b: nat)
    requires k <= |q| && Before(q, a, b)
    ensures Before(InsertAt(q, k, t), a, b)
  {
    var i, j :| 0 <= i < j < |q| && q[i] == a && q[j] == b;
    var r := InsertAt(q, k, t);
    assert r[if i < k then i else i + 1] == a && r[if j < k then j else j + 1] == b;
  }

  lemma DropShape(T: seq<Tcb>, q: seq<nat>, k: nat)
    requires Distinct(q) && Within(q, |T|) && k < |q|
    ensures var r := q[..k] + q[k + 1..]; Distinct(r) && Within(r, |T|) && (Sorted(T, q) ==> Sorted(T, r))
  {
    var r := q[..k] + q[k + 1..];
    assert |r| == |q| - 1;
    assert forall i :: 0 <= i < |r| ==> r[i] == q[if i < k then i else i + 1];
  }

  lemma WithoutFacts(T: seq<Tcb>, q: seq<nat>, t: nat)
    requires Distinct(q) && Within(q, |T|)
    ensures Distinct(Without(q, t)) && Within(Without(q, t), |T|)
    ensures t in q ==> multiset(Without(q, t)) + multiset{t} == multiset(q)
    ensures Sorted(T, q) ==> Sorted(T, Without(q, t))
  {
    if t in q {
      var k :| 0 <= k < |q| && q[k] == t;
      WithoutIndex(q, t, k);
      SplitAt(q, k);
      DropShape(T, q, k);
    } else {
      WithoutAbsent(q, t);
    }
  }

  lemma BeforeWithout(q: seq<nat>, t: nat, a: nat, b: nat)
    requires Distinct(q) && Before(q, a, b) && a != t && b != t
    ensures Before(Without(q, t), a, b)
  {
    if t in q {
      var k :| 0 <= k < |q| && q[k] == t;
      WithoutIndex(q, t, k);
      BeforeDropped(q, k, a, b);
    } else {
      WithoutAbsent(q, t);
    }
  }

  lemma InsertShape(T: seq<Tcb>, q: seq<nat>, k: nat, t: nat)
    requires Distinct(q) && t !in q && Within(q, |T|) && t < |T| && k <= |q|
    ensures Distinct(InsertAt(q, k, t)) && Within(InsertAt(q, k, t), |T|)
  {
    var r := InsertAt(q, k, t);
    assert forall i :: 0 <= i < |r| ==> r[i] == if i < k then q[i] else if i == k then t else q[i - 1];
  }

  lemma SortedGlue(T: seq<Tcb>, a: seq<nat>, t: nat, b: seq<nat>)
    requires t < |T| && Within(a, |T|) && Within(b, |T|) && Sorted(T, a) && Sorted(T, b)
    requires forall i :: 0 <= i < |a| ==> T[a[i]].pri <= T[t].pri
    requires forall i :: 0 <= i < |b| ==> T[t].pri <= T[b[i]].pri
    ensures Within(a + [t] + b, |T|) && Sorted(T, a + [t] + b)
  {
  }

  lemma InsertSorted(T: seq<Tcb>, q: seq<nat>, t: nat)
    requires t < |T| && Within(q, |T|) && Sorted(T, q)
    ensures var r := InsertAt(q, Place(T, q, T[t].pri), t); Within(r, |T|) && Sorted(T, r)
  {
    var k := Place(T, q, T[t].pri);
    forall i | 0 <= i < |q[k..]| ensures T[t].pri <= T[q[k..][i]].pri {
      assert q[k..][i] == q[k + i] && (i == 0 || T[q[k]].pri <= T[q[k + i]].pri);
    }
    SortedGlue(T, q[..k], t, q[k..]);
  }

  lemma InsertedOthers(q: seq<nat>, k: nat, t: nat, n: nat)
    requires k <= |q| && n <= |q| && n != k
    ensures InsertAt(q, k, t)[n] == q[if n < k then n else n - 1] && InsertAt(q, k, t)[n] in q
  {
  }

  lemma PlacedLast(T: seq<Tcb>, q: seq<nat>, t: nat, w: nat)
    requires t < |T| && Within(q, |T|) && t !in q && w < |T| && Sorted(T, q)
    requires Before(InsertAt(q, Place(T, q, T[t].pri), t), t, w)
    ensures T[t].pri < T[w].pri
  {
    var k := Place(T, q, T[t].pri);
    var i, j :| 0 <= i < j < |q| + 1 && InsertAt(q, k, t)[i] == t && InsertAt(q, k, t)[j] == w;
    if i != k {
      InsertedOthers(q, k, t, i);
    } else {
      InsertedOthers(q, k, t, j);
      assert k == j - 1 || T[q[k]].pri <= T[q[j - 1]].pri;
    }
  }

  // ----- One priority change, before it is passed on

  predicate Requeues(T: seq<Tcb>, M: seq<Mtx>, t: nat) {
    t < |T| && T[t].status.WaitMutex? && T[t].status.m < |M| && M[T[t].status.m].proto != Fifo
  }

  /** Queue q with t moved to its place by priority (knl_gcb_change_priority). */
  function Moved(T: seq<Tcb>, q: seq<nat>, t: nat): (r: seq<nat>)
    requires t < |T| && Within(q, |T|)
  {
    assert Within(Without(q, t), |T|) by {
      forall i | 0 <= i < |Without(q, t)|
        ensures Without(q, t)[i] < |T|
      {
        assert Without(q, t)[i] in q;
      }
    }
    InsertAt(Without(q, t), Place(T, Without(q, t), T[t].pri), t)
  }

  ghost predicate RepriStep(T: seq<Tcb>, M: seq<Mtx>, t: nat, p: int, T': seq<Tcb>, M': seq<Mtx>) {
    && t < |T| && T' == T[t := T[t].(pri := p)]
    && if Requeues(T, M, t) then
         var m := T[t].status.m;
         Within(M[m].queue, |T|) && M' == M[m := M[m].(queue := Moved(T', M[m].queue, t))]
       else M' == M
  }

  lemma SortedWithout(T: seq<Tcb>, T': seq<Tcb>, q: seq<nat>, t: nat)
    requires |T'| == |T| && Distinct(q) && Within(q, |T|) && Sorted(T, q)
    requires forall u :: 0 <= u < |T| && u != t ==> T'[u].pri == T[u].pri
    ensures Within(Without(q, t), |T|) && Sorted(T', Without(q, t))
  {
    WithoutFacts(T, q, t);
    var r := Without(q, t);
    forall i | 0 <= i < |r| ensures r[i] != t { assert r[i] in r; }
  }

  lemma MovedFacts(T: seq<Tcb>, T': seq<Tcb>, q: seq<nat>, t: nat)
    requires t < |T| && |T'| == |T| && Distinct(q) && Within(q, |T|) && t in q
    requires forall u :: 0 <= u < |T| && u != t ==> T'[u].pri == T[u].pri
    ensures Distinct(Moved(T', q, t)) && Within(Moved(T', q, t), |T|)
    ensures forall w :: w in Moved(T', q, t) <==> w in q
    ensures multiset(Moved(T', q, t)) == multiset(q)
    ensures Sorted(T, q) ==> Sorted(T', Moved(T', q, t))
  {
    WithoutFacts(T, q, t);
    var r := Without(q, t);
    InsertShape(T', r, Place(T', r, T'[t].pri), t);
    if Sorted(T, q) {
      SortedWithout(T, T', q, t);
      InsertSorted(T', r, t);
    }
  }

  lemma MovedKeepsOrder(T: seq<Tcb>, T': seq<Tcb>, q: seq<nat>, t: nat)
    requires t < |T| && |T'| == |T| && Distinct(q) && Within(q, |T|) && t in q
    ensures KeepsOrder(T, T', q, Moved(T', q, t), t)
  {
    WithoutFacts(T, q, t);
    var r := Without(q, t);
    forall a: nat, b: nat | Before(q, a, b) && Settled(T, T', t, a) && Settled(T, T', t, b)
      ensures Before(Moved(T', q, t), a, b)
    {
      BeforeWithout(q, t, a, b);
      BeforeInserted(r, Place(T', r, T'[t].pri), t, a, b);
    }
  }

  lemma SortedSamePri(T: seq<Tcb>, T': seq<Tcb>, q: seq<nat>)
    requires |T'| == |T| && Within(q, |T|) && Sorted(T, q)
    requires forall i :: 0 <= i < |q| ==> T'[q[i]].pri == T[q[i]].pri
    ensures Sorted(T', q)
  {
  }

  lemma RepriMutexOk(T: seq<Tcb>, M: seq<Mtx>, x: Exempt, t: nat, p: int, T': seq<Tcb>, M': seq<Mtx>, m: nat)
    requires Wf(T, M, x) && RepriStep(T, M, t, p, T', M') && x.task != Some(t) && 0 <= p < NUM_TSKPRI && m < |M|
    ensures |M'| == |M| && MutexOk(T', M', x, m)
  {
    assert MutexOk(T, M, x, m) && TaskOk(T, M, x, t);
    if Requeues(T, M, t) && T[t].status.m == m {
      MovedFacts(T, T', M[m].queue, t);
    } else if t in M[m].queue {
      assert M[m].proto == Fifo;
    } else if M[m].proto != Fifo {
      forall i | 0 <= i < |M[m].queue| ensures T'[M[m].queue[i]].pri == T[M[m].queue[i]].pri {
        assert M[m].queue[i] in M[m].queue;
      }
      SortedSamePri(T, T', M[m].queue);
    }
  }

  lemma RepriTaskOk(T: seq<Tcb>, M: seq<Mtx>, x: Exempt, t: nat, p: int, T': seq<Tcb>, M': seq<Mtx>, u: nat)
    requires Wf(T, M, x) && RepriStep(T, M, t, p, T', M') && x.task != Some(t) && 0 <= p < NUM_TSKPRI && u < |T|
    ensures TaskOk(T', M', x, u)
  {
    assert TaskOk(T, M, x, u) && TaskOk(T, M, x, t);
    if Requeues(T, M, t) {
      var m := T[t].status.m;
      assert MutexOk(T, M, x, m);
      MovedFacts(T, T', M[m].queue, t);
    }
  }

  lemma RepriWf(T: seq<Tcb>, M: seq<Mtx>, x: Exempt, t: nat, p: int, T': seq<Tcb>, M': seq<Mtx>)
    requires Wf(T, M, x) && RepriStep(T, M, t, p, T', M') && x.task != Some(t) && 0 <= p < NUM_TSKPRI
    ensures Wf(T', M', x)
  {
    forall u | 0 <= u < |T'| ensures TaskOk(T', M', x, u) {
      RepriTaskOk(T, M, x, t, p, T', M', u);
    }
    forall m | 0 <= m < |M'| ensures MutexOk(T', M', x, m) {
      RepriMutexOk(T, M, x, t, p, T', M', m);
    }
  }

  lemma RepriPriOnly(T: seq<Tcb>, M: seq<Mtx>, x: Exempt, t: nat, p: int, T': seq<Tcb>, M': seq<Mtx>)
    requires Wf(T, M, x) && RepriStep(T, M, t, p, T', M') && x.task != Some(t)
    ensures PriOnly(T, M, T', M', t, p < T[t].pri) && BehindEqualsIn(T, T', M', t)
  {
    RepriTables(T, M, x, t, p, T', M');
    RepriOrders(T, M, x, t, p, T', M');
  }

  lemma RepriTables(T: seq<Tcb>, M: seq<Mtx>, x: Exempt, t: nat, p: int, T': seq<Tcb>, M': seq<Mtx>)
    requires Wf(T, M, x) && RepriStep(T, M, t, p, T', M') && x.task != Some(t)
    ensures |M'| == |M| && forall m :: 0 <= m < |M| ==> M'[m] == M[m].(queue := M'[m].queue) && multiset(M'[m].queue) == multiset(M[m].queue)
    ensures forall m :: 0 <= m < |M| && M[m].proto == Fifo ==> M'[m] == M[m]
  {
    if Requeues(T, M, t) {
      var m := T[t].status.m;
      assert TaskOk(T, M, x, t) && MutexOk(T, M, x, m);
      MovedFacts(T, T', M[m].queue, t);
    }
  }

  lemma RepriOrders(T: seq<Tcb>, M: seq<Mtx>, x: Exempt, t: nat, p: int, T': seq<Tcb>, M': seq<Mtx>)
    requires Wf(T, M, x) && RepriStep(T, M, t, p, T', M') && x.task != Some(t)
    ensures |M'| == |M| && forall m :: 0 <= m < |M| ==> KeepsOrder(T, T', M[m].queue, M'[m].queue, t)
    ensures forall m :: 0 <= m < |M| && M[m].proto != Fifo ==> ShiftedBehind(T, T', M'[m].queue)
    ensures BehindEqualsIn(T, T', M', t)
  {
    forall m | 0 <= m < |M| ensures KeepsOrder(T, T', M[m].queue, M'[m].queue, t) {
      RepriKeepsOrder(T, M, x, t, p, T', M', m);
    }
    forall m | 0 <= m < |M| && M[m].proto != Fifo ensures Behind(T, T', M'[m].queue, t) {
      RepriBehind(T, M, x, t, p, T', M', m);
    }
    forall a: nat | Shifted(T, T', a) ensures a == t {}
  }

  lemma MovedBehind(T: seq<Tcb>, T': seq<Tcb>, q: seq<nat>, t: nat)
    requires t < |T| == |T'| && Distinct(q) && Within(q, |T|) && Sorted(T, q)
    requires forall u :: 0 <= u < |T| && u != t ==> T'[u].pri == T[u].pri
    ensures Behind(T, T', Moved(T', q, t), t)
  {
    var r := Without(q, t);
    SortedWithout(T, T', q, t);
    forall w: nat | Before(Moved(T', q, t), t, w) && w != t && w < |T'| ensures T'[t].pri < T'[w].pri { PlacedLast(T', r, t, w); }
  }

  /** A task whose priority is set goes behind its new equals. */
  lemma RepriBehind(T: seq<Tcb>, M: seq<Mtx>, x: Exempt, t: nat, p: int, T': seq<Tcb>, M': seq<Mtx>, m: nat)
    requires Wf(T, M, x) && RepriStep(T, M, t, p, T', M') && x.task != Some(t) && m < |M| && M[m].proto != Fifo
    ensures |M'| == |M| && Behind(T, T', M'[m].queue, t)
  {
    assert TaskOk(T, M, x, t) && MutexOk(T, M, x, m);
    if t in M[m].queue { MovedBehind(T, T', M[m].queue, t); }
  }

  lemma RepriKeepsOrder(T: seq<Tcb>, M: seq<Mtx>, x: Exempt, t: nat, p: int, T': seq<Tcb>, M': seq<Mtx>, m: nat)
    requires Wf(T, M, x) && RepriStep(T, M, t, p, T', M') && x.task != Some(t) && m < |M|
    ensures |M'| == |M| && KeepsOrder(T, T', M[m].queue, M'[m].queue, t)
  {
    if Requeues(T, M, t) && T[t].status.m == m {
      assert TaskOk(T, M, x, t) && MutexOk(T, M, x, m);
      MovedKeepsOrder(T, T', M[m].queue, t);
    } else {
      assert M'[m] == M[m];
    }
  }

  /** Queues have the same members after the step. */
  lemma RepriMembers(T: seq<Tcb>, M: seq<Mtx>, x: Exempt, t: nat, p: int, T': seq<Tcb>, M': seq<Mtx>)
    requires Wf(T, M, x) && RepriStep(T, M, t, p, T', M') && x.task != Some(t)
    ensures |M'| == |M|
    ensures forall m, w :: 0 <= m < |M| ==> (w in M'[m].queue <==> w in M[m].queue)
    ensures forall m :: 0 <= m < |M| ==> M'[m] == M[m].(queue := M'[m].queue)
  {
    if Requeues(T, M, t) {
      var m := T[t].status.m;
      assert TaskOk(T, M, x, t) && MutexOk(T, M, x, m);
      MovedFacts(T, T', M[m].queue, t);
    }
  }

  /** Changing t's priority can only upset the holder of the inheritance mutex t waits for. */
  lemma RepriLocal(T: seq<Tcb>, M: seq<Mtx>, x: Exempt, v: Pledge, t: nat, p: int, T': seq<Tcb>, M': seq<Mtx>, u: nat, q: int)
    requires Wf(T, M, x) && RepriStep(T, M, t, p, T', M') && x.task != Some(t)
    requires u < |T| && !Feeds(T, M, t, u) && Effective(T, M, v, u, q)
    ensures Effective(T', M', v, u, q)
  {
    RepriMembers(T, M, x, t, p, T', M');
    assert TaskOk(T, M, x, u);
    forall m: nat, w: nat | m in T[u].held && M[m].proto == Inherit && w in M[m].queue
      ensures w != t
    {
      assert MutexOk(T, M, x, m);
    }
    if DonatedSource(T, M, u, q) { SameDonor(T, M, T', M', t, u, q); }
  }

  /** A waiter other than t still donates what it did. */
  lemma SameDonor(T: seq<Tcb>, M: seq<Mtx>, T': seq<Tcb>, M': seq<Mtx>, t: nat, u: nat, p: int)
    requires u < |T| && |T'| == |T| && |M'| == |M| && DonatedSource(T, M, u, p) && T'[u].held == T[u].held
    requires forall w :: 0 <= w < |T| && w != t ==> T'[w].pri == T[w].pri
    requires forall m, w :: 0 <= m < |M| ==> (w in M'[m].queue <==> w in M[m].queue)
    requires forall m :: 0 <= m < |M| ==> M'[m].proto == M[m].proto
    requires forall m: nat, w: nat :: m in T[u].held && m < |M| && M[m].proto == Inherit && w in M[m].queue ==> w != t
    ensures DonatedSource(T', M', u, p)
  {
    var m: nat, w: nat :| m in T[u].held && m < |M| && M[m].proto == Inherit && w in M[m].queue && w < |T| && p == T[w].pri;
    assert w in M'[m].queue && T'[w].pri == p;
  }

  lemma RepriBalanced(T: seq<Tcb>, M: seq<Mtx>, x: Exempt, v: Pledge, t: nat, p: int, T': seq<Tcb>, M': seq<Mtx>, e: set<nat>)
    requires Wf(T, M, x) && RepriStep(T, M, t, p, T', M') && x.task != Some(t)
    requires Balanced(T, M, v, {t}) && Effective(T, M, v, t, p)
    requires forall o :: 0 <= o < |T| && Feeds(T, M, t, o) ==> o in e
    ensures Balanced(T', M', v, e)
  {
    forall u | 0 <= u < |T'| && u !in e ensures Effective(T', M', v, u, T'[u].pri) {
      RepriLocal(T, M, x, v, t, p, T', M', u, T'[u].pri);
    }
  }

  /** The new waiter priority is higher than the holder's: it becomes the holder's. */
  lemma HolderRaised(T: seq<Tcb>, M: seq<Mtx>, x: Exempt, v: Pledge, t: nat, p: int, T': seq<Tcb>, M': seq<Mtx>, o: nat)
    requires Wf(T, M, x) && RepriStep(T, M, t, p, T', M') && x.task != Some(t)
    requires Blocks(T, M, t, o) && x.mutex != Some(T[t].status.m)
    requires o < |T| && Effective(T, M, v, o, T[o].pri) && p < T[o].pri
    ensures Effective(T', M', v, o, p)
  {
    RepriMembers(T, M, x, t, p, T', M');
    var m := T[t].status.m;
    assert TaskOk(T, M, x, t) && MutexOk(T, M, x, m);
    assert m in T'[o].held && t in M'[m].queue && T'[t].pri == p;
    assert DonatedSource(T', M', o, p);
  }

  /** The holder's priority did not come from t: it is still right. */
  lemma HolderKept(T: seq<Tcb>, M: seq<Mtx>, x: Exempt, v: Pledge, t: nat, p: int, T': seq<Tcb>, M': seq<Mtx>, o: nat)
    requires Wf(T, M, x) && RepriStep(T, M, t, p, T', M') && x.task != Some(t)
    requires Blocks(T, M, t, o) && o != t
    requires o < |T| && Effective(T, M, v, o, T[o].pri) && T[o].pri <= p && T[o].pri != T[t].pri
    ensures Effective(T', M', v, o, T'[o].pri)
  {
    RepriMembers(T, M, x, t, p, T', M');
    if DonatedSource(T, M, o, T[o].pri) {
      var m: nat, w: nat :| m in T[o].held && m < |M| && M[m].proto == Inherit && w in M[m].queue && w < |T| && T[o].pri == T[w].pri;
      assert w != t && w in M'[m].queue && T'[w].pri == T[o].pri;
      assert DonatedSource(T', M', o, T[o].pri);
    }
  }

  /** Lowering t leaves the holder's priority a lower bound of its sources. */
  lemma HolderBound(T: seq<Tcb>, M: seq<Mtx>, x: Exempt, v: Pledge, t: nat, p: int, T': seq<Tcb>, M': seq<Mtx>, o: nat)
    requires Wf(T, M, x) && RepriStep(T, M, t, p, T', M') && x.task != Some(t)
    requires o < |T| && o != t && AtMost(T, M, v, o, T[o].pri) && T[t].pri <= p
    ensures AtMost(T', M', v, o, T'[o].pri)
  {
    RepriMembers(T, M, x, t, p, T', M');
  }
}
