/** Counting semaphores (kernel/tkernel/semaphore.c:135-290). */
module Semaphores {
  import opened WaitLine

  /** A task and the count it waits for. */
  type Asker = Waiter<int>

  datatype Ercd = E_OK | E_PAR | E_QOVR | E_TMOUT

  // ----- Which waiters a count serves

  /** Those served, in order; those left waiting, in order; what remains of the count. */
  datatype Outcome = Outcome(served: seq<Asker>, waiting: seq<Asker>, cnt: int)

  /** TA_CNT (byCount) skips a waiter that asks for too much, TA_FIRST stops there. */
  function Grants(q: seq<Asker>, c: int, byCount: bool): Outcome {
    if q == [] then Outcome([], [], c)
    else if c < q[0].want then
      if byCount then (var o := Grants(q[1..], c, byCount); o.(waiting := [q[0]] + o.waiting)) else Outcome([], q, c)
    else (var o := Grants(q[1..], c - q[0].want, byCount); o.(served := [q[0]] + o.served))
  }

  function Total(q: seq<Asker>): int {
    if q == [] then 0 else Total(q[..|q| - 1]) + q[|q| - 1].want
  }

  lemma {:induction false} TotalConcat(a: seq<Asker>, b: seq<Asker>)
    ensures Total(a + b) == Total(a) + Total(b)
  {
    if b == [] {
      assert a + b == a;
    } else {
      assert (a + b)[..|a + b| - 1] == a + b[..|b| - 1];
      TotalConcat(a, b[..|b| - 1]);
    }
  }

  lemma TotalOne(w: Asker)
    ensures Total([w]) == w.want
  {
    assert [w][..0] == [];
  }

  predicate Positive(q: seq<Asker>) {
    forall i :: 0 <= i < |q| ==> 0 < q[i].want
  }

  /** No waiter that could be served is left: the first under TA_FIRST, any under TA_CNT. */
  predicate NoneServable(q: seq<Asker>, c: int, byCount: bool) {
    if byCount then forall i :: 0 <= i < |q| ==> c < q[i].want else q != [] ==> c < q[0].want
  }

  /** The count is neither lost nor overdrawn, and every waiter is served or still waits. */
  lemma {:induction false} GrantsConserve(q: seq<Asker>, c: int, byCount: bool)
    requires 0 <= c && Positive(q)
    ensures var o := Grants(q, c, byCount);
      && o.cnt + Total(o.served) == c && 0 <= o.cnt
      && multiset(o.served) + multiset(o.waiting) == multiset(q)
  {
    if q != [] {
      assert q == [q[0]] + q[1..];
      if c < q[0].want {
        if byCount { GrantsConserve(q[1..], c, byCount); }
      } else {
        GrantsConserve(q[1..], c - q[0].want, byCount);
        TotalConcat([q[0]], Grants(q[1..], c - q[0].want, byCount).served);
        TotalOne(q[0]);
      }
    }
  }

  /** One pass over the queue is enough. */
  lemma {:induction false} GrantsLeaveNone(q: seq<Asker>, c: int, byCount: bool)
    requires 0 <= c && Positive(q)
    ensures var o := Grants(q, c, byCount); NoneServable(o.waiting, o.cnt, byCount) && o.cnt <= c && Positive(o.waiting)
  {
    if q != [] {
      if c < q[0].want {
        if byCount { GrantsLeaveNone(q[1..], c, byCount); }
      } else {
        GrantsLeaveNone(q[1..], c - q[0].want, byCount);
      }
    }
  }

  /** TA_FIRST: those served are the longest part from the head that the count covers. */
  lemma {:induction false} GrantsFirst(q: seq<Asker>, c: int, k: nat)
    requires 0 <= c && Positive(q) && k <= |q|
    ensures var o := Grants(q, c, false); q == o.served + o.waiting && (k <= |o.served| <==> Total(q[..k]) <= c)
  {
    if q != [] {
      if k > 0 { TotalHead(q, k); }
      if c >= q[0].want { GrantsFirst(q[1..], c - q[0].want, if k > 0 then k - 1 else 0); }
    }
  }

  lemma TotalHead(q: seq<Asker>, k: nat)
    requires 0 < k <= |q| && Positive(q)
    ensures Total(q[..k]) == q[0].want + Total(q[1..][..k - 1]) && Total(q[1..][..k - 1]) >= 0
  {
    assert q[..k] == [q[0]] + q[1..][..k - 1];
    TotalConcat([q[0]], q[1..][..k - 1]);
    TotalOne(q[0]);
    TotalNonNeg(q[1..][..k - 1]);
  }

  lemma {:induction false} TotalNonNeg(q: seq<Asker>)
    requires Positive(q)
    ensures Total(q) >= 0
  {
    if q != [] { TotalNonNeg(q[..|q| - 1]); }
  }

  /** TA_CNT: the next waiter is served exactly when those served before it leave enough. */
  lemma {:induction false} GrantsByCount(q: seq<Asker>, w: Asker, c: int)
    ensures var o, o' := Grants(q, c, true), Grants(q + [w], c, true);
      if o.cnt >= w.want then o' == Outcome(o.served + [w], o.waiting, o.cnt - w.want) else o' == Outcome(o.served, o.waiting + [w], o.cnt)
  {
    if q == [] {
      assert q + [w] == [w];
    } else {
      assert (q + [w])[1..] == q[1..] + [w];
      if c < q[0].want {
        GrantsByCount(q[1..], w, c);
        var o := Grants(q[1..], c, true);
        assert [q[0]] + (o.waiting + [w]) == [q[0]] + o.waiting + [w];
      } else {
        GrantsByCount(q[1..], w, c - q[0].want);
        var o := Grants(q[1..], c - q[0].want, true);
        assert [q[0]] + (o.served + [w]) == [q[0]] + o.served + [w];
      }
    }
  }

  lemma {:induction false} GrantsNothing(q: seq<Asker>, c: int, byCount: bool)
    requires Positive(q) && c <= 0
    ensures Grants(q, c, byCount) == Outcome([], q, c)
  {
    if q != [] && byCount {
      GrantsNothing(q[1..], c, byCount);
      assert q == [q[0]] + q[1..];
    }
  }

  // ----- A pass under way: 'rel' released, the first i of q passed over, c left

  ghost predicate Progress(o: Outcome, rel: seq<Asker>, q: seq<Asker>, i: nat, c: int, byCount: bool)
    requires i <= |q|
  {
    var p := Grants(q[i..], c, byCount);
    o == Outcome(rel + p.served, q[..i] + p.waiting, p.cnt)
  }

  lemma ServeStep(o: Outcome, rel: seq<Asker>, q: seq<Asker>, i: nat, c: int, byCount: bool)
    requires i < |q| && c >= q[i].want && Progress(o, rel, q, i, c, byCount)
    ensures Progress(o, rel + [q[i]], q[..i] + q[i + 1..], i, c - q[i].want, byCount)
    ensures Positive(q) ==> Positive(q[..i] + q[i + 1..])
  {
    var q' := q[..i] + q[i + 1..];
    var p := Grants(q[i + 1..], c - q[i].want, byCount);
    assert q[i..][1..] == q[i + 1..] == q'[i..] && q'[..i] == q[..i];
    assert rel + ([q[i]] + p.served) == rel + [q[i]] + p.served;
  }

  lemma SkipStep(o: Outcome, rel: seq<Asker>, q: seq<Asker>, i: nat, c: int)
    requires i < |q| && c < q[i].want && Progress(o, rel, q, i, c, true)
    ensures Progress(o, rel, q, i + 1, c, true)
  {
    var p := Grants(q[i + 1..], c, true);
    assert q[i..][1..] == q[i + 1..];
    assert q[..i] + ([q[i]] + p.waiting) == q[..i + 1] + p.waiting;
  }

  lemma StopStep(o: Outcome, rel: seq<Asker>, q: seq<Asker>, i: nat, c: int, byCount: bool)
    requires i <= |q| && Progress(o, rel, q, i, c, byCount)
    requires i == |q| || (c < q[i].want && !byCount) || (c <= 0 && Positive(q))
    ensures o == Outcome(rel, q, c)
  {
    assert q[..i] + q[i..] == q;
    if i < |q| && c <= 0 && Positive(q) { GrantsNothing(q[i..], c, byCount); }
    if i == |q| { assert q[i..] == []; }
  }

  // ----- The waiting line

  lemma {:induction false} WaitingByPriority(q: seq<Asker>, c: int, byCount: bool, low: int)
    requires ByPriority(q) && forall i :: 0 <= i < |q| ==> low <= q[i].pri
    ensures var o := Grants(q, c, byCount); ByPriority(o.waiting) && forall i :: 0 <= i < |o.waiting| ==> low <= o.waiting[i].pri
  {
    if q != [] {
      if c < q[0].want {
        if byCount { WaitingByPriority(q[1..], c, byCount, q[0].pri); }
      } else {
        WaitingByPriority(q[1..], c - q[0].want, byCount, low);
      }
    }
  }

  predicate Asks(q: seq<Asker>, most: int) {
    forall k :: 0 <= k < |q| ==> 0 < q[k].want <= most
  }

  lemma {:induction false} GrantsAmong(q: seq<Asker>, c: int, byCount: bool, most: int)
    requires Asks(q, most)
    ensures Asks(Grants(q, c, byCount).waiting, most)
  {
    if q != [] {
      assert forall i :: 0 <= i < |q[1..]| ==> q[1..][i] == q[i + 1];
      if c < q[0].want {
        if byCount { GrantsAmong(q[1..], c, byCount, most); }
      } else {
        GrantsAmong(q[1..], c - q[0].want, byCount, most);
      }
    }
  }

  /** What a pass leaves is a sound semaphore with nobody servable. */
  lemma GrantsSound(q: seq<Asker>, c: int, byCount: bool, most: int, tpri: bool)
    requires 0 <= c && Asks(q, most) && (tpri ==> ByPriority(q))
    ensures var o := Grants(q, c, byCount);
      && 0 <= o.cnt <= c && o.cnt + Total(o.served) == c && NoneServable(o.waiting, o.cnt, byCount)
      && Asks(o.waiting, most) && (tpri ==> ByPriority(o.waiting))
  {
    GrantsConserve(q, c, byCount);
    GrantsLeaveNone(q, c, byCount);
    GrantsAmong(q, c, byCount, most);
    if tpri && q != [] { WaitingByPriority(q, c, byCount, q[0].pri); }
  }

  lemma QueuedAsks(q: seq<Asker>, w: Asker, tpri: bool, most: int)
    requires Asks(q, most) && 0 < w.want <= most
    ensures Asks(Queued(q, w, tpri), most)
  {
  }

  /** A task that cannot be served joins the line: still nobody can. */
  lemma QueuedNone(q: seq<Asker>, w: Asker, tpri: bool, byCount: bool, c: int)
    requires NoneServable(q, c, byCount)
    requires if byCount then c < w.want else Top(q, w.pri, tpri) ==> c < w.want
    ensures NoneServable(Queued(q, w, tpri), c, byCount)
  {
  }

  lemma Requeued(q: seq<Asker>, i: nat, pri: int, most: int)
    requires i < |q| && Asks(q, most) && ByPriority(q)
    ensures var r := Queued(Without(q, i), q[i].(pri := pri), true); Asks(r, most) && ByPriority(r)
  {
    WithoutByPriority(q, i);
    QueuedAsks(Without(q, i), q[i].(pri := pri), true, most);
    QueuedByPriority(Without(q, i), q[i].(pri := pri));
  }

  lemma MovedNone(q: seq<Asker>, i: nat, pri: int, c: int)
    requires i < |q| && NoneServable(q, c, true)
    ensures NoneServable(Queued(Without(q, i), q[i].(pri := pri), true), c, true)
  {
    QueuedNone(Without(q, i), q[i].(pri := pri), true, true, c);
  }

  class Semaphore {
    const maxsem: int
    const byCount: bool
    const tpri: bool
    var semcnt: int
    var waitq: seq<Asker>
    /** All that was ever put in, and all that was ever handed out. */
    ghost var supplied: int
    ghost var taken: int

    ghost predicate Sound()
      reads this
    {
      && 0 <= semcnt <= maxsem && semcnt == supplied - taken
      && Asks(waitq, maxsem)
      && (tpri ==> ByPriority(waitq))
    }

    ghost predicate Valid()
      reads this
    {
      Sound() && NoneServable(waitq, semcnt, byCount)
    }

    constructor (isemcnt: int, max: int, cntAttr: bool, tp: bool)
      requires 0 <= isemcnt <= max
      ensures Valid() && semcnt == isemcnt && waitq == [] && maxsem == max && byCount == cntAttr && tpri == tp
    {
      maxsem, byCount, tpri := max, cntAttr, tp;
      semcnt, waitq, supplied, taken := isemcnt, [], isemcnt, 0;
    }

    /** tk_sig_sem: the tasks released, in order. */
    method Signal(cnt: int) returns (r: Ercd, released: seq<Asker>)
      requires Valid()
      modifies this
      ensures Valid()
      ensures r == if cnt <= 0 then E_PAR else if cnt > maxsem - old(semcnt) then E_QOVR else E_OK
      ensures r != E_OK ==> released == [] && semcnt == old(semcnt) && waitq == old(waitq) && supplied == old(supplied) && taken == old(taken)
      ensures r == E_OK ==> Outcome(released, waitq, semcnt) == Grants(old(waitq), old(semcnt) + cnt, byCount)
      ensures r == E_OK ==> supplied == old(supplied) + cnt && taken == old(taken) + Total(released)
    {
      released := [];
      if cnt <= 0 { return E_PAR, released; }
      if cnt > maxsem - semcnt { return E_QOVR, released; }
      semcnt := semcnt + cnt;
      supplied := supplied + cnt;
      GrantsSound(waitq, semcnt, byCount, maxsem, tpri);
      released := ReleaseServable();
      taken := taken + Total(released);
      r := E_OK;
    }

    /** The loop of tk_sig_sem. */
    method ReleaseServable() returns (released: seq<Asker>)
      requires Positive(waitq) && 0 <= semcnt
      modifies this`semcnt, this`waitq
      ensures Outcome(released, waitq, semcnt) == Grants(old(waitq), old(semcnt), byCount)
    {
      released := [];
      ghost var o := Grants(waitq, semcnt, byCount);
      var i := 0;
      assert waitq[0..] == waitq;
      while i < |waitq|
        modifies this`waitq, this`semcnt
        invariant 0 <= i <= |waitq| && Positive(waitq) && 0 <= semcnt && Progress(o, released, waitq, i, semcnt, byCount)
        decreases |waitq| - i
      {
        if semcnt < waitq[i].want {
          if !byCount { break; }
          SkipStep(o, released, waitq, i, semcnt);
          i := i + 1;
        } else {
          var first := waitq[i];
          ServeStep(o, released, waitq, i, semcnt, byCount);
          waitq := waitq[..i] + waitq[i + 1..];
          released := released + [first];
          semcnt := semcnt - first.want;
          if semcnt <= 0 { break; }
        }
      }
      StopStep(o, released, waitq, i, semcnt, byCount);
    }

    /** tk_wai_sem. */
    method Wait(task: nat, pri: int, cnt: int, poll: bool) returns (r: Ercd)
      requires Valid()
      modifies this
      ensures Valid()
      ensures r == E_PAR <==> cnt <= 0 || cnt > maxsem
      ensures r != E_PAR ==>
        (r == E_OK <==> cnt <= old(semcnt) && (byCount || Top(old(waitq), pri, tpri)))
      ensures semcnt == (if r == E_OK then old(semcnt) - cnt else old(semcnt)) && supplied == old(supplied)
      ensures waitq == if r == E_TMOUT && !poll then Queued(old(waitq), Waiter(task, pri, cnt), tpri) else old(waitq)
    {
      if cnt <= 0 || cnt > maxsem { return E_PAR; }
      if (byCount || Top(waitq, pri, tpri)) && semcnt >= cnt {
        semcnt := semcnt - cnt;
        taken := taken + cnt;
        return E_OK;
      }
      if !poll {
        QueuedAsks(waitq, Waiter(task, pri, cnt), tpri, maxsem);
        QueuedNone(waitq, Waiter(task, pri, cnt), tpri, byCount, semcnt);
        if tpri { QueuedByPriority(waitq, Waiter(task, pri, cnt)); }
        waitq := Insert(waitq, Waiter(task, pri, cnt), tpri);
      }
      return E_TMOUT;
    }

    /** The loop of sem_chg_pri: serve from the head while the count lasts. */
    method ReleaseHead() returns (released: seq<Asker>)
      modifies this`semcnt, this`waitq
      ensures Outcome(released, waitq, semcnt) == Grants(old(waitq), old(semcnt), false)
    {
      released := [];
      ghost var o := Grants(waitq, semcnt, false);
      assert waitq[0..] == waitq;
      while waitq != [] && semcnt >= waitq[0].want
        modifies this`waitq, this`semcnt
        invariant Progress(o, released, waitq, 0, semcnt, false)
        decreases |waitq|
      {
        ServeStep(o, released, waitq, 0, semcnt, false);
        assert waitq[..0] + waitq[1..] == waitq[1..];
        released := released + [waitq[0]];
        semcnt := semcnt - waitq[0].want;
        waitq := waitq[1..];
      }
      StopStep(o, released, waitq, 0, semcnt, false);
    }

    /** The part of sem_chg_pri for TA_FIRST: nobody servable is left. */
    method Rescan() returns (released: seq<Asker>)
      requires Sound() && !byCount
      modifies this`semcnt, this`waitq, this`taken
      ensures Valid() && Outcome(released, waitq, semcnt) == Grants(old(waitq), old(semcnt), byCount)
      ensures taken == old(taken) + Total(released)
    {
      GrantsSound(waitq, semcnt, false, maxsem, tpri);
      released := ReleaseHead();
      taken := taken + Total(released);
    }

    /** sem_rel_wai: the wait of the i-th waiter ended without a count. */
    method RelWai(i: nat) returns (released: seq<Asker>)
      requires Valid() && i < |waitq|
      modifies this`semcnt, this`waitq, this`taken
      ensures Valid()
      ensures var q := Without(old(waitq), i); Outcome(released, waitq, semcnt) == Grants(q, old(semcnt), byCount)
      ensures taken == old(taken) + Total(released)
    {
      waitq := Without(waitq, i);
      released := [];
      if byCount {
        NobodyGrants(waitq, semcnt);
      } else {
        released := Rescan();
      }
    }

    lemma {:induction false} NobodyGrants(q: seq<Asker>, c: int)
      requires NoneServable(q, c, true)
      ensures Grants(q, c, true) == Outcome([], q, c)
    {
      if q != [] {
        NobodyGrants(q[1..], c);
        assert q == [q[0]] + q[1..];
      }
    }

    /** sem_chg_pri: the i-th waiter's priority changed. */
    method ChgPri(i: nat, pri: int) returns (released: seq<Asker>)
      requires Valid() && tpri && i < |waitq|
      modifies this`semcnt, this`waitq, this`taken
      ensures Valid()
      ensures var q := Queued(Without(old(waitq), i), old(waitq)[i].(pri := pri), true);
        Outcome(released, waitq, semcnt) == Grants(q, old(semcnt), byCount)
      ensures taken == old(taken) + Total(released)
    {
      Requeued(waitq, i, pri, maxsem);
      if byCount { MovedNone(waitq, i, pri, semcnt); }
      var w := waitq[i].(pri := pri);
      waitq := Insert(Without(waitq, i), w, true);
      released := [];
      if byCount {
        NobodyGrants(waitq, semcnt);
      } else {
        released := Rescan();
      }
    }
  }
}
