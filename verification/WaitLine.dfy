/** The waiting line of a semaphore, event flag or memory pool, in order of arrival or of priority
    (kernel/tkernel/wait.h:78-96; kernel/tkernel/wait.c:192-236). */
module WaitLine {

  /** A waiting task, its priority, and what it waits for. */
  datatype Waiter<+W> = Waiter(task: nat, pri: int, want: W)

  ghost predicate ByPriority<W>(q: seq<Waiter<W>>) {
    forall i, j :: 0 <= i < j < |q| ==> q[i].pri <= q[j].pri
  }

  /** Behind the waiters of the same or a higher priority. */
  function Place<W>(q: seq<Waiter<W>>, pri: int): (k: nat)
    ensures k <= |q| && (forall i :: 0 <= i < k ==> q[i].pri <= pri) && (k < |q| ==> q[k].pri > pri)
  {
    if q == [] || q[0].pri > pri then 0 else 1 + Place(q[1..], pri)
  }

  /** The line with w in its place. */
  function Queued<W>(q: seq<Waiter<W>>, w: Waiter<W>, tpri: bool): (r: seq<Waiter<W>>)
    ensures var k := if tpri then Place(q, w.pri) else |q|;
      |r| == |q| + 1 && forall j :: 0 <= j < |r| ==> r[j] == if j < k then q[j] else if j == k then w else q[j - 1]
  {
    var k := if tpri then Place(q, w.pri) else |q|;
    q[..k] + [w] + q[k..]
  }

  /** r is q with w behind everybody of the same or a higher priority, in front of everybody else. */
  ghost predicate BehindEquals<W>(q: seq<Waiter<W>>, w: Waiter<W>, r: seq<Waiter<W>>, k: nat) {
    && k <= |q| && r == q[..k] + [w] + q[k..]
    && (forall i :: 0 <= i < k ==> q[i].pri <= w.pri) && (forall i :: k <= i < |q| ==> w.pri < q[i].pri)
  }

  /** A line by priority stays one, and among equals the longest waiting is first; a line by arrival
      grows at its end. */
  lemma QueuedBehindEquals<W>(q: seq<Waiter<W>>, w: Waiter<W>, tpri: bool)
    requires tpri ==> ByPriority(q)
    ensures if tpri then exists k: nat :: BehindEquals(q, w, Queued(q, w, tpri), k) else Queued(q, w, tpri) == q + [w]
  {
    if tpri { assert BehindEquals(q, w, Queued(q, w, tpri), Place(q, w.pri)); }
  }

  /** A task need not wait for its turn exactly if it would be first in the line. */
  lemma TopIffFirst<W>(q: seq<Waiter<W>>, w: Waiter<W>, tpri: bool)
    requires w !in q && (tpri ==> ByPriority(q))
    ensures Top(q, w.pri, tpri) <==> Queued(q, w, tpri)[0] == w
  {
  }

  /** A line by priority stays one; a task nobody is before comes to the head, any other does not. */
  lemma QueuedByPriority<W>(q: seq<Waiter<W>>, w: Waiter<W>)
    requires ByPriority(q)
    ensures ByPriority(Queued(q, w, true))
    ensures Queued(q, w, true)[0] == w <==> q == [] || w.pri < q[0].pri || q[0] == w
  {
    var r, k := Queued(q, w, true), Place(q, w.pri);
    forall i, j | 0 <= i < j < |r| ensures r[i].pri <= r[j].pri {
      if k < i { assert r[i] == q[i - 1] && r[j] == q[j - 1]; }
    }
  }

  /** knl_gcb_top_of_wait_queue: nobody is before a task of priority pri. */
  predicate Top<W>(q: seq<Waiter<W>>, pri: int, tpri: bool) {
    q == [] || (tpri && pri < q[0].pri)
  }

  /** knl_queue_insert_tpri, or QueInsert at the end. */
  method Insert<W>(q: seq<Waiter<W>>, w: Waiter<W>, tpri: bool) returns (r: seq<Waiter<W>>)
    ensures r == Queued(q, w, tpri)
  {
    if !tpri { return q + [w]; }
    var k := 0;
    while k < |q|
      invariant 0 <= k <= |q| && Place(q, w.pri) == k + Place(q[k..], w.pri)
    {
      if q[k].pri > w.pri { break; }
      assert q[k..][1..] == q[k + 1..];
      k := k + 1;
    }
    r := q[..k] + [w] + q[k..];
  }

  /** The line without its i-th waiter. */
  function Without<W>(q: seq<Waiter<W>>, i: nat): (r: seq<Waiter<W>>)
    requires i < |q|
    ensures |r| == |q| - 1 && forall j :: 0 <= j < |r| ==> r[j] == if j < i then q[j] else q[j + 1]
  {
    q[..i] + q[i + 1..]
  }

  lemma WithoutByPriority<W>(q: seq<Waiter<W>>, i: nat)
    requires i < |q| && ByPriority(q)
    ensures ByPriority(Without(q, i))
  {
  }
}
