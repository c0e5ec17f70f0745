/** Which queue a task's control block is in, and how waits begin and end (kernel/tkernel/task.c:
    254-340, wait.c:79-215, wait.h:49-160, task_sync.c:28-249, ready_queue.h:54-230). What a wait
    object does with the tasks it releases is in its own module. */
module TaskStates {
  import opened Options
  import opened Lists

  const NUM_TSKPRI := 32
  const INT_MAX := 0x7FFF_FFFF

  datatype State = NonExist | Ready | Wait | Suspend | WaitSus | Dormant

  datatype Ercd = E_OK | E_TMOUT | E_DLT | E_OBJ | E_NOEXS | E_QOVR | E_CTX

  /** The ring a control block is linked into: none, the free list, a ready queue, or the waiting
      line of an object. */
  datatype Home = Nowhere | Free | ReadyAt(pri: nat) | Line(obj: nat)

  /** obj: what a waiting task waits for; none while it sleeps. stkfree: deleted, but still loaded
      on a processor. wercd: the code its system call will return. */
  datatype Tcb = Tcb(state: State, pri: nat, obj: Option<nat>, suscnt: nat, wupcnt: nat, stkfree: bool, wercd: Ercd)

  predicate Waiting(x: Tcb) {
    x.state.Wait? || x.state.WaitSus?
  }

  /** The ring its state calls for. */
  function HomeOf(x: Tcb): Home {
    match x.state
    case NonExist => if x.stkfree then Nowhere else Free
    case Ready => ReadyAt(x.pri)
    case Wait => if x.obj.Some? then Line(x.obj.value) else Nowhere
    case WaitSus => if x.obj.Some? then Line(x.obj.value) else Nowhere
    case Suspend => Nowhere
    case Dormant => Nowhere
  }

  // ----- The rings

  type Rings = map<Home, seq<nat>>

  function On(ring: Rings, h: Home): seq<nat> {
    if h in ring then ring[h] else []
  }

  /** Ring h holds exactly the control blocks whose state calls for it, each once. */
  ghost predicate RingOk(tcb: seq<Tcb>, ring: Rings, h: Home) {
    Distinct(On(ring, h)) && forall t: nat :: t in On(ring, h) <==> t < |tcb| && HomeOf(tcb[t]) == h
  }

  ghost predicate Linked(tcb: seq<Tcb>, ring: Rings) {
    forall h: Home :: h != Nowhere ==> RingOk(tcb, ring, h)
  }

  /** No control block is in two rings. */
  lemma OneRing(tcb: seq<Tcb>, ring: Rings, t: nat, h: Home, g: Home)
    requires Linked(tcb, ring) && h != Nowhere && g != Nowhere && t in On(ring, h) && t in On(ring, g)
    ensures h == g && t < |tcb| && HomeOf(tcb[t]) == h
  {
    assert RingOk(tcb, ring, h) && RingOk(tcb, ring, g);
  }

  /** A block in no ring is linked into the one its new state calls for. */
  lemma LinkIn(tcb: seq<Tcb>, ring: Rings, t: nat, x: Tcb, k: nat)
    requires Linked(tcb, ring) && t < |tcb| && HomeOf(tcb[t]) == Nowhere && HomeOf(x) != Nowhere && k <= |On(ring, HomeOf(x))|
    ensures t !in On(ring, HomeOf(x))
    ensures Linked(tcb[t := x], ring[HomeOf(x) := InsertAt(On(ring, HomeOf(x)), k, t)])
  {
    var h := HomeOf(x);
    assert RingOk(tcb, ring, h);
    InsertDistinct(On(ring, h), k, t);
    var ring' := ring[h := InsertAt(On(ring, h), k, t)];
    var tcb' := tcb[t := x];
    forall g: Home | g != Nowhere ensures RingOk(tcb', ring', g) { assert RingOk(tcb, ring, g); }
  }

  /** A block is unlinked from its ring and its new state calls for none. */
  lemma LinkOut(tcb: seq<Tcb>, ring: Rings, t: nat, x: Tcb)
    requires Linked(tcb, ring) && t < |tcb| && HomeOf(tcb[t]) != Nowhere && HomeOf(x) == Nowhere
    ensures t in On(ring, HomeOf(tcb[t]))
    ensures Linked(tcb[t := x], ring[HomeOf(tcb[t]) := Without(On(ring, HomeOf(tcb[t])), t)])
  {
    var h := HomeOf(tcb[t]);
    assert RingOk(tcb, ring, h);
    WithoutDistinct(On(ring, h), t);
    var ring' := ring[h := Without(On(ring, h), t)];
    var tcb' := tcb[t := x];
    forall g: Home | g != Nowhere ensures RingOk(tcb', ring', g) { assert RingOk(tcb, ring, g); }
  }

  lemma LinkSame(tcb: seq<Tcb>, ring: Rings, t: nat, x: Tcb)
    requires Linked(tcb, ring) && t < |tcb| && HomeOf(x) == HomeOf(tcb[t])
    ensures Linked(tcb[t := x], ring)
  {
    var tcb' := tcb[t := x];
    forall g: Home | g != Nowhere ensures RingOk(tcb', ring, g) { assert RingOk(tcb, ring, g); }
  }

  // ----- The ready queue's bitmap

  /** The bits set are the priorities with a ready task; top is the first of them. */
  ghost predicate BitsOk(ring: Rings, bitmap: set<nat>, top: nat) {
    && (forall p: nat :: p in bitmap <==> p < NUM_TSKPRI && On(ring, ReadyAt(p)) != [])
    && top <= NUM_TSKPRI && (top < NUM_TSKPRI ==> top in bitmap) && forall p :: p in bitmap ==> top <= p
  }

  /** The head of the top queue is a ready task no other comes before; there is none when no task is
      ready. */
  lemma TopIsFirst(tcb: seq<Tcb>, ring: Rings, bitmap: set<nat>, top: nat, t: nat)
    requires Linked(tcb, ring) && BitsOk(ring, bitmap, top) && t < |tcb| && tcb[t].state.Ready? && tcb[t].pri < NUM_TSKPRI
    ensures top <= tcb[t].pri && On(ring, ReadyAt(top)) != []
    ensures var u := On(ring, ReadyAt(top))[0]; u < |tcb| && tcb[u].state.Ready? && tcb[u].pri == top
  {
    assert RingOk(tcb, ring, ReadyAt(tcb[t].pri));
    assert t in On(ring, ReadyAt(tcb[t].pri));
    assert RingOk(tcb, ring, ReadyAt(top));
    assert On(ring, ReadyAt(top))[0] in On(ring, ReadyAt(top));
  }

  // ----- Waits

  /** A wait began; ended, its task told the code; or was given up with its task. */
  datatype Event = Begun(task: nat) | Ended(task: nat, code: Ercd) | Cancelled(task: nat)

  /** The last event of t is the beginning of a wait. */
  function InWait(log: seq<Event>, t: nat): bool {
    log != [] && var e := log[|log| - 1]; if e.task == t then e.Begun? else InWait(log[..|log| - 1], t)
  }

  /** The waits of t begin and end in turn: each wait begun is ended by exactly one event, before
      the next begins. */
  ghost predicate Alternates(log: seq<Event>, t: nat) {
    log == [] || (Alternates(log[..|log| - 1], t) && var e := log[|log| - 1]; e.task == t ==> e.Begun? != InWait(log[..|log| - 1], t))
  }

  lemma LogGrows(log: seq<Event>, e: Event, t: nat)
    ensures InWait(log + [e], t) == if e.task == t then e.Begun? else InWait(log, t)
    ensures Alternates(log + [e], t) <==> Alternates(log, t) && (e.task == t ==> e.Begun? != InWait(log, t))
  {
    assert (log + [e])[..|log|] == log;
  }

  ghost predicate LogOk(log: seq<Event>, tcb: seq<Tcb>) {
    forall t: nat :: t < |tcb| ==> Alternates(log, t) && InWait(log, t) == Waiting(tcb[t])
  }

  lemma LogStep(log: seq<Event>, tcb: seq<Tcb>, e: Event, x: Tcb)
    requires LogOk(log, tcb) && e.task < |tcb| && Waiting(tcb[e.task]) != e.Begun? && Waiting(x) == e.Begun?
    ensures LogOk(log + [e], tcb[e.task := x])
  {
    forall t: nat | t < |tcb| ensures Alternates(log + [e], t) && InWait(log + [e], t) == Waiting(tcb[e.task := x][t]) { LogGrows(log, e, t); }
  }

  /** What holds of each control block: suspended exactly while suspensions are counted, and while
      it waits its return code is already the one of a timeout. */
  predicate TcbOk(x: Tcb) {
    && x.pri < NUM_TSKPRI && (x.suscnt > 0 <==> x.state.Suspend? || x.state.WaitSus?)
    && (Waiting(x) ==> x.wercd == E_TMOUT) && (x.stkfree ==> x.state.NonExist?) && x.suscnt <= INT_MAX && x.wupcnt <= INT_MAX
  }

  ghost predicate AllOk(tcb: seq<Tcb>) {
    forall t :: 0 <= t < |tcb| ==> TcbOk(tcb[t])
  }

  ghost predicate TimersOk(tcb: seq<Tcb>, timerq: set<nat>) {
    forall t :: t in timerq ==> t < |tcb| && Waiting(tcb[t])
  }

  /** The rings r' are r after the end of the wait of t, whose block was x: out of its line, and, not
      being suspended, at the end of the ready queue of its priority; no other ring differs. */
  ghost predicate Released(r: Rings, r': Rings, x: Tcb, t: nat) {
    forall h: Home ::
      On(r', h) == if x.obj.Some? && h == Line(x.obj.value) then Without(On(r, h), t)
                   else if x.state.Wait? && h == ReadyAt(x.pri) then On(r, h) + [t] else On(r, h)
  }

  class Tasks {
    var tcb: seq<Tcb>
    var ring: Rings
    var bitmap: set<nat>
    var top: nat
    /** The tasks whose wait has a time limit. */
    var timerq: set<nat>
    ghost var log: seq<Event>

    ghost predicate Valid()
      reads this
    {
      Linked(tcb, ring) && BitsOk(ring, bitmap, top) && AllOk(tcb) && TimersOk(tcb, timerq) && LogOk(log, tcb)
    }

    /** knl_task_initialize. */
    constructor (n: nat)
      ensures Valid() && |tcb| == n && log == [] && On(ring, Free) == seq(n, i => i)
    {
      tcb := seq(n, _ => Tcb(NonExist, 0, None, 0, 0, false, E_OK));
      ring := map[Free := seq(n, i => i)];
      bitmap, top, timerq := {}, NUM_TSKPRI, {};
      log := [];
      new;
      forall h: Home | h != Nowhere ensures RingOk(tcb, ring, h) {
        if h == Free {
          forall t: nat | t < n ensures t in ring[Free] { assert ring[Free][t] == t; }
        }
      }
    }

    // ----- ready_queue.h

    /** knl_ready_queue_insert. */
    method ReadyQueueInsert(t: nat, pri: nat)
      requires BitsOk(ring, bitmap, top) && pri < NUM_TSKPRI
      modifies this`ring, this`bitmap, this`top
      ensures BitsOk(ring, bitmap, top)
      ensures ring == old(ring)[ReadyAt(pri) := InsertAt(On(old(ring), ReadyAt(pri)), |On(old(ring), ReadyAt(pri))|, t)]
    {
      var q := On(ring, ReadyAt(pri));
      ring := ring[ReadyAt(pri) := InsertAt(q, |q|, t)];
      bitmap := bitmap + {pri};
      if pri < top { top := pri; }
    }

    /** knl_ready_queue_calc_top_priority. */
    method CalcTopPriority(pos: nat) returns (p: nat)
      requires pos <= NUM_TSKPRI
      ensures pos <= p <= NUM_TSKPRI && (p < NUM_TSKPRI ==> p in bitmap) && forall q :: pos <= q < p ==> q !in bitmap
    {
      p := pos;
      while p < NUM_TSKPRI && p !in bitmap
        invariant pos <= p <= NUM_TSKPRI && forall q :: pos <= q < p ==> q !in bitmap
      {
        p := p + 1;
      }
    }

    /** knl_ready_queue_delete. */
    method ReadyQueueDelete(t: nat, pri: nat)
      requires BitsOk(ring, bitmap, top) && pri < NUM_TSKPRI && t in On(ring, ReadyAt(pri))
      modifies this`ring, this`bitmap, this`top
      ensures BitsOk(ring, bitmap, top)
      ensures ring == old(ring)[ReadyAt(pri) := Without(On(old(ring), ReadyAt(pri)), t)]
    {
      var q := Without(On(ring, ReadyAt(pri)), t);
      ring := ring[ReadyAt(pri) := q];
      if q != [] { return; }
      bitmap := bitmap - {pri};
      if pri != top { return; }
      top := CalcTopPriority(pri);
    }

    /** knl_ready_queue_rotate. */
    method Rotate(pri: nat)
      requires Valid() && pri < NUM_TSKPRI
      modifies this`ring
      ensures Valid()
      ensures var q := On(old(ring), ReadyAt(pri)); ring == if q == [] then old(ring) else old(ring)[ReadyAt(pri) := q[1..] + [q[0]]]
    {
      var q := On(ring, ReadyAt(pri));
      if q != [] {
        RotateRing(tcb, ring, ReadyAt(pri));
        ring := ring[ReadyAt(pri) := q[1..] + [q[0]]];
      }
    }

    lemma RotateRing(ts: seq<Tcb>, r: Rings, h: Home)
      requires Linked(ts, r) && h != Nowhere && On(r, h) != []
      ensures Linked(ts, r[h := On(r, h)[1..] + [On(r, h)[0]]])
    {
      var q := On(r, h);
      var q' := q[1..] + [q[0]];
      assert RingOk(ts, r, h);
      assert q == [q[0]] + q[1..];
      assert forall x :: x in q' <==> x in q;
      assert forall i :: 0 <= i < |q| - 1 ==> q'[i] == q[i + 1];
      var r' := r[h := q'];
      forall g: Home | g != Nowhere ensures RingOk(ts, r', g) { assert RingOk(ts, r, g); }
    }

    // ----- task.c

    /** knl_make_ready, for a task in no ring. */
    method MakeReady(t: nat)
      requires Linked(tcb, ring) && BitsOk(ring, bitmap, top) && t < |tcb| && HomeOf(tcb[t]) == Nowhere && tcb[t].pri < NUM_TSKPRI
      modifies this`tcb, this`ring, this`bitmap, this`top
      ensures Linked(tcb, ring) && BitsOk(ring, bitmap, top)
      ensures tcb == old(tcb)[t := old(tcb)[t].(state := Ready)]
      ensures var h := ReadyAt(old(tcb)[t].pri); ring == old(ring)[h := On(old(ring), h) + [t]]
    {
      var h := ReadyAt(tcb[t].pri);
      LinkIn(tcb, ring, t, tcb[t].(state := Ready), |On(ring, h)|);
      assert InsertAt(On(ring, h), |On(ring, h)|, t) == On(ring, h) + [t];
      tcb := tcb[t := tcb[t].(state := Ready)];
      ReadyQueueInsert(t, tcb[t].pri);
    }

    /** knl_make_non_ready, and the state that follows it. */
    method MakeNonReady(t: nat, x: Tcb)
      requires Linked(tcb, ring) && BitsOk(ring, bitmap, top) && t < |tcb| && tcb[t].state.Ready? && tcb[t].pri < NUM_TSKPRI && HomeOf(x) == Nowhere
      modifies this`tcb, this`ring, this`bitmap, this`top
      ensures Linked(tcb, ring) && BitsOk(ring, bitmap, top)
      ensures tcb == old(tcb)[t := x]
      ensures var h := ReadyAt(old(tcb)[t].pri); ring == old(ring)[h := Without(On(old(ring), h), t)]
    {
      LinkOut(tcb, ring, t, x);
      ReadyQueueDelete(t, tcb[t].pri);
      tcb := tcb[t := x];
    }

    /** knl_change_task_priority; k is the new place in a line by priority, if t is in one. */
    method ChangeTaskPriority(t: nat, pri: nat, tpri: bool, k: nat)
      requires Valid() && t < |tcb| && pri < NUM_TSKPRI
      requires tpri && Waiting(tcb[t]) && tcb[t].obj.Some? ==> k <= |Without(On(ring, HomeOf(tcb[t])), t)|
      modifies this`tcb, this`ring, this`bitmap, this`top
      ensures Valid() && tcb == old(tcb)[t := old(tcb)[t].(pri := pri)]
      ensures old(tcb)[t].state.Ready? && pri != old(tcb)[t].pri ==> On(ring, ReadyAt(pri)) == On(old(ring), ReadyAt(pri)) + [t]
      ensures old(tcb)[t].state.Ready? && pri == old(tcb)[t].pri ==> On(ring, ReadyAt(pri)) == Without(On(old(ring), ReadyAt(pri)), t) + [t]
      ensures var h := HomeOf(old(tcb)[t]); h.Line? ==> On(ring, h) == if tpri then InsertAt(Without(On(old(ring), h), t), k, t) else On(old(ring), h)
    {
      assert TcbOk(tcb[t].(pri := pri));
      LogSame(log, tcb, t, tcb[t].(pri := pri));
      if tcb[t].state.Ready? {
        ChangeReady(t, pri);
      } else if tpri && Waiting(tcb[t]) && tcb[t].obj.Some? {
        ChangeWaiting(t, pri, k);
      } else {
        LinkSame(tcb, ring, t, tcb[t].(pri := pri));
        tcb := tcb[t := tcb[t].(pri := pri)];
      }
    }

    /** Taken out of the ready queue under the old priority, put back under the new. */
    method ChangeReady(t: nat, pri: nat)
      requires Linked(tcb, ring) && BitsOk(ring, bitmap, top) && t < |tcb| && tcb[t].state.Ready? && tcb[t].pri < NUM_TSKPRI && pri < NUM_TSKPRI
      modifies this`tcb, this`ring, this`bitmap, this`top
      ensures Linked(tcb, ring) && BitsOk(ring, bitmap, top) && tcb == old(tcb)[t := old(tcb)[t].(pri := pri)]
      ensures pri != old(tcb)[t].pri ==> On(ring, ReadyAt(pri)) == On(old(ring), ReadyAt(pri)) + [t]
      ensures pri == old(tcb)[t].pri ==> On(ring, ReadyAt(pri)) == Without(On(old(ring), ReadyAt(pri)), t) + [t]
    {
      ghost var r1 := ring[ReadyAt(tcb[t].pri) := Without(On(ring, ReadyAt(tcb[t].pri)), t)];
      ghost var q := On(r1, ReadyAt(pri));
      LinkMove(tcb, ring, t, tcb[t].(pri := pri), |q|);
      ReadyQueueDelete(t, tcb[t].pri);
      tcb := tcb[t := tcb[t].(pri := pri)];
      ReadyQueueInsert(t, pri);
      assert InsertAt(q, |q|, t) == q + [t];
    }

    /** The hook of a line by priority: knl_gcb_change_priority. */
    method ChangeWaiting(t: nat, pri: nat, k: nat)
      requires Linked(tcb, ring) && BitsOk(ring, bitmap, top) && t < |tcb| && Waiting(tcb[t]) && tcb[t].obj.Some?
      requires k <= |Without(On(ring, HomeOf(tcb[t])), t)|
      modifies this`tcb, this`ring
      ensures Linked(tcb, ring) && BitsOk(ring, bitmap, top) && tcb == old(tcb)[t := old(tcb)[t].(pri := pri)]
      ensures var h := HomeOf(old(tcb)[t]); ring == old(ring)[h := InsertAt(Without(On(old(ring), h), t), k, t)]
    {
      var h := HomeOf(tcb[t]);
      LinkMove(tcb, ring, t, tcb[t].(pri := pri), k);
      var q := Without(On(ring, h), t);
      assert ring[h := q][h := InsertAt(q, k, t)] == ring[h := InsertAt(q, k, t)];
      LineKeepsBits(ring, h, InsertAt(q, k, t), bitmap, top);
      ring := ring[h := InsertAt(q, k, t)];
      tcb := tcb[t := tcb[t].(pri := pri)];
    }

    /** Out of one ring and into another, or into another place of the same. */
    lemma LinkMove(ts: seq<Tcb>, r: Rings, t: nat, x: Tcb, k: nat)
      requires Linked(ts, r) && t < |ts| && HomeOf(ts[t]) != Nowhere && HomeOf(x) != Nowhere
      requires var r1 := r[HomeOf(ts[t]) := Without(On(r, HomeOf(ts[t])), t)]; k <= |On(r1, HomeOf(x))|
      ensures t in On(r, HomeOf(ts[t]))
      ensures var r1 := r[HomeOf(ts[t]) := Without(On(r, HomeOf(ts[t])), t)];
        Linked(ts[t := x], r1[HomeOf(x) := InsertAt(On(r1, HomeOf(x)), k, t)])
    {
      var z := ts[t].(state := Dormant);
      var r1 := r[HomeOf(ts[t]) := Without(On(r, HomeOf(ts[t])), t)];
      LinkOut(ts, r, t, z);
      LinkIn(ts[t := z], r1, t, x, k);
      assert ts[t := z][t := x] == ts[t := x];
    }

    // ----- wait.c, wait.h

    /** knl_gcb_make_wait for object obj, or the wait of tk_slp_tsk: the running task, which may be
        suspended already, begins to wait, at place k of the object's line. */
    method MakeWait(t: nat, obj: Option<nat>, k: nat, timed: bool)
      requires Valid() && t < |tcb| && (tcb[t].state.Ready? || tcb[t].state.Suspend?)
      requires obj.Some? ==> k <= |On(ring, Line(obj.value))|
      modifies this
      ensures Valid() && log == old(log) + [Begun(t)] && timerq == if timed then old(timerq) + {t} else old(timerq)
      ensures tcb == old(tcb)[t := old(tcb)[t].(state := if old(tcb)[t].state.Ready? then Wait else WaitSus, obj := obj, wercd := E_TMOUT)]
      ensures obj.Some? ==> On(ring, Line(obj.value)) == InsertAt(On(old(ring), Line(obj.value)), k, t)
      ensures forall p: nat :: On(ring, ReadyAt(p)) == if old(tcb)[t].state.Ready? &&
          p == old(tcb)[t].pri then Without(On(old(ring), ReadyAt(p)), t) else On(old(ring), ReadyAt(p))
    {
      var x := tcb[t].(state := if tcb[t].state.Ready? then Wait else WaitSus, obj := obj, wercd := E_TMOUT);
      LogStep(log, tcb, Begun(t), x);
      assert TcbOk(tcb[t]) && TcbOk(x);
      ghost var T := tcb;
      Block(t, x, k);
      assert forall u :: u in timerq ==> u < |T| && Waiting(T[u]);
      if timed { timerq := timerq + {t}; }
      log := log + [Begun(t)];
    }

    /** Out of the ready queue and into the line; in between the task is in no ring. */
    method Block(t: nat, x: Tcb, k: nat)
      requires Linked(tcb, ring) && BitsOk(ring, bitmap, top) && t < |tcb| && tcb[t].pri < NUM_TSKPRI && Waiting(x)
      requires (tcb[t].state.Ready? || tcb[t].state.Suspend?) && (x.obj.Some? ==> k <= |On(ring, Line(x.obj.value))|)
      modifies this`tcb, this`ring, this`bitmap, this`top
      ensures Linked(tcb, ring) && BitsOk(ring, bitmap, top) && tcb == old(tcb)[t := x]
      ensures x.obj.Some? ==> On(ring, Line(x.obj.value)) == InsertAt(On(old(ring), Line(x.obj.value)), k, t)
      ensures forall p: nat :: On(ring, ReadyAt(p)) == if old(tcb)[t].state.Ready? &&
          p == old(tcb)[t].pri then Without(On(old(ring), ReadyAt(p)), t) else On(old(ring), ReadyAt(p))
    {
      var between := x.(state := Dormant);
      ghost var T := tcb;
      Leave(t, between);
      assert HomeOf(tcb[t]) == Nowhere;
      JoinLine(t, x, k);
      assert T[t := between][t := x] == T[t := x];
    }

    /** Out of the ready queue, if it was in it. */
    method Leave(t: nat, x: Tcb)
      requires Linked(tcb, ring) && BitsOk(ring, bitmap, top) && t < |tcb| && tcb[t].pri < NUM_TSKPRI && HomeOf(x) == Nowhere
      requires tcb[t].state.Ready? || tcb[t].state.Suspend?
      modifies this`tcb, this`ring, this`bitmap, this`top
      ensures Linked(tcb, ring) && BitsOk(ring, bitmap, top) && tcb == old(tcb)[t := x]
      ensures var h := ReadyAt(old(tcb)[t].pri);
        ring == if old(tcb)[t].state.Ready? then old(ring)[h := Without(On(old(ring), h), t)] else old(ring)
    {
      if tcb[t].state.Ready? {
        MakeNonReady(t, x);
      } else {
        LinkSame(tcb, ring, t, x);
        tcb := tcb[t := x];
      }
    }

    /** Into the line of what it waits for, at place k; a sleeping task is in none. */
    method JoinLine(t: nat, x: Tcb, k: nat)
      requires Linked(tcb, ring) && BitsOk(ring, bitmap, top) && t < |tcb| && HomeOf(tcb[t]) == Nowhere && Waiting(x)
      requires x.obj.Some? ==> k <= |On(ring, Line(x.obj.value))|
      modifies this`tcb, this`ring
      ensures Linked(tcb, ring) && BitsOk(ring, bitmap, top) && tcb == old(tcb)[t := x]
      ensures ring == if x.obj.None? then old(ring) else old(ring)[Line(x.obj.value) := InsertAt(On(old(ring), Line(x.obj.value)), k, t)]
    {
      if x.obj.Some? {
        var h := Line(x.obj.value);
        LinkIn(tcb, ring, t, x, k);
        LineKeepsBits(ring, h, InsertAt(On(ring, h), k, t), bitmap, top);
        ring := ring[h := InsertAt(On(ring, h), k, t)];
      } else {
        LinkSame(tcb, ring, t, x);
      }
      tcb := tcb[t := x];
    }

    lemma LineKeepsBits(r: Rings, h: Home, q: seq<nat>, bits: set<nat>, p: nat)
      requires BitsOk(r, bits, p) && !h.ReadyAt?
      ensures BitsOk(r[h := q], bits, p)
    {
      assert forall i: nat :: On(r[h := q], ReadyAt(i)) == On(r, ReadyAt(i));
    }

    /** QueRemove of a waiting task, then knl_make_non_wait: the code it returns with is the one in
        place at that moment. */
    method EndWait(t: nat)
      requires Linked(tcb, ring) && BitsOk(ring, bitmap, top) && LogOk(log, tcb) && t < |tcb| && Waiting(tcb[t]) && tcb[t].pri < NUM_TSKPRI
      modifies this`tcb, this`ring, this`bitmap, this`top, this`log
      ensures Linked(tcb, ring) && BitsOk(ring, bitmap, top) && LogOk(log, tcb)
      ensures tcb == old(tcb)[t := old(tcb)[t].(state := if old(tcb)[t].state.Wait? then Ready else Suspend)]
      ensures log == old(log) + [Ended(t, old(tcb)[t].wercd)]
      ensures Released(old(ring), ring, old(tcb)[t], t)
    {
      var was := tcb[t];
      ghost var T := tcb;
      LogStep(log, tcb, Ended(t, was.wercd), was.(state := if was.state.Wait? then Ready else Suspend));
      log := log + [Ended(t, was.wercd)];
      LeaveLine(t, was.(state := Suspend));
      if was.state.Wait? { MakeReady(t); }
      assert tcb == T[t := was.(state := if was.state.Wait? then Ready else Suspend)];
    }

    /** QueRemove of a waiting task; one that sleeps is in no line. */
    method LeaveLine(t: nat, x: Tcb)
      requires Linked(tcb, ring) && BitsOk(ring, bitmap, top) && t < |tcb| && Waiting(tcb[t]) && HomeOf(x) == Nowhere
      modifies this`tcb, this`ring
      ensures Linked(tcb, ring) && BitsOk(ring, bitmap, top) && tcb == old(tcb)[t := x]
      ensures var o := old(tcb)[t].obj;
        ring == if o.Some? then old(ring)[Line(o.value) := Without(On(old(ring), Line(o.value)), t)] else old(ring)
    {
      if tcb[t].obj.Some? {
        var h := Line(tcb[t].obj.value);
        LinkOut(tcb, ring, t, x);
        LineKeepsBits(ring, h, Without(On(ring, h), t), bitmap, top);
        ring := ring[h := Without(On(ring, h), t)];
      } else {
        LinkSame(tcb, ring, t, x);
      }
      tcb := tcb[t := x];
    }

    /** knl_wait_release_ok, _ok_ercd and _ng: the code is written before the task is released. */
    method WaitRelease(t: nat, code: Ercd)
      requires Valid() && t < |tcb| && Waiting(tcb[t])
      modifies this
      ensures Valid() && log == old(log) + [Ended(t, code)] && timerq == old(timerq) - {t}
      ensures tcb == old(tcb)[t := old(tcb)[t].(state := if old(tcb)[t].state.Wait? then Ready else Suspend, wercd := code)]
      ensures Released(old(ring), ring, old(tcb)[t], t)
    {
      ghost var T := tcb;
      assert TcbOk(tcb[t]);
      LinkSame(tcb, ring, t, tcb[t].(wercd := code));
      tcb := tcb[t := tcb[t].(wercd := code)];
      timerq := timerq - {t};
      EndWait(t);
      assert tcb == T[t := T[t].(state := if T[t].state.Wait? then Ready else Suspend, wercd := code)];
    }

    /** knl_wait_release_tmout, called for an expired timer: the code is the one written before the
        wait began. */
    method WaitReleaseTmout(t: nat)
      requires Valid() && t < |tcb| && t in timerq
      modifies this
      ensures Valid() && log == old(log) + [Ended(t, E_TMOUT)] && timerq == old(timerq) - {t}
      ensures tcb == old(tcb)[t := old(tcb)[t].(state := if old(tcb)[t].state.Wait? then Ready else Suspend)]
      ensures Released(old(ring), ring, old(tcb)[t], t)
    {
      assert TcbOk(tcb[t]);
      timerq := timerq - {t};
      EndWait(t);
    }

    /** knl_wait_delete: every wait in the line ends with E_DLT, in order. */
    method WaitDelete(obj: nat)
      requires Valid()
      modifies this
      ensures Valid() && On(ring, Line(obj)) == []
      ensures log == old(log) + Ends(On(old(ring), Line(obj)))
      ensures forall t: nat :: t < |old(tcb)| && t !in On(old(ring), Line(obj)) ==> t < |tcb| && tcb[t] == old(tcb)[t]
    {
      ghost var q0 := On(ring, Line(obj));
      ghost var done := 0;
      assert q0[0..] == q0 && q0[..0] == [];
      while On(ring, Line(obj)) != []
        invariant Valid() && |tcb| == |old(tcb)| && 0 <= done <= |q0| && On(ring, Line(obj)) == q0[done..]
        invariant log == old(log) + Ends(q0[..done])
        invariant forall t: nat :: t < |tcb| && t !in q0 ==> tcb[t] == old(tcb)[t]
        decreases |On(ring, Line(obj))|
      {
        var t := DeleteFirst(obj);
        EndsSnoc(q0[..done], t);
        assert q0[..done] + [t] == q0[..done + 1] && q0[done..][1..] == q0[done + 1..];
        done := done + 1;
      }
      assert q0[..done] == q0;
    }

    /** The head of the line is released with E_DLT. */
    method DeleteFirst(obj: nat) returns (t: nat)
      requires Valid() && On(ring, Line(obj)) != []
      modifies this
      ensures Valid() && |tcb| == |old(tcb)| && t == On(old(ring), Line(obj))[0] && On(ring, Line(obj)) == On(old(ring), Line(obj))[1..]
      ensures log == old(log) + [Ended(t, E_DLT)]
      ensures forall u: nat :: u < |tcb| && u != t ==> tcb[u] == old(tcb)[u]
    {
      t := On(ring, Line(obj))[0];
      Head(obj);
      WithoutHead(On(ring, Line(obj)));
      WaitRelease(t, E_DLT);
    }

    lemma Head(obj: nat)
      requires Valid() && On(ring, Line(obj)) != []
      ensures var t := On(ring, Line(obj))[0]; t < |tcb| && Waiting(tcb[t]) && tcb[t].obj == Some(obj) && Distinct(On(ring, Line(obj)))
    {
      assert RingOk(tcb, ring, Line(obj));
      assert On(ring, Line(obj))[0] in On(ring, Line(obj));
    }

    // ----- task_sync.c

    /** tk_slp_tsk. */
    method SlpTsk(t: nat, poll: bool, timed: bool) returns (r: Ercd)
      requires Valid() && t < |tcb| && (tcb[t].state.Ready? || tcb[t].state.Suspend?)
      modifies this
      ensures Valid()
      ensures r == if old(tcb)[t].wupcnt > 0 then E_OK else E_TMOUT
      ensures r == E_OK ==> tcb == old(tcb)[t := old(tcb)[t].(wupcnt := old(tcb)[t].wupcnt - 1)]
      ensures r == E_OK || poll ==> log == old(log) && ring == old(ring) && timerq == old(timerq)
      ensures r == E_TMOUT && poll ==> tcb == old(tcb)
      ensures r == E_TMOUT && !poll ==>
        && tcb == old(tcb)[t := old(tcb)[t].(state := if old(tcb)[t].state.Ready? then Wait else WaitSus, obj := None, wercd := E_TMOUT)]
        && log == old(log) + [Begun(t)] && timerq == (if timed then old(timerq) + {t} else old(timerq))
        && forall p: nat :: On(ring, ReadyAt(p)) == if old(tcb)[t].state.Ready? &&
            p == old(tcb)[t].pri then Without(On(old(ring), ReadyAt(p)), t) else On(old(ring), ReadyAt(p))
    {
      if tcb[t].wupcnt > 0 {
        assert TcbOk(tcb[t]);
        LinkSame(tcb, ring, t, tcb[t].(wupcnt := tcb[t].wupcnt - 1));
        tcb := tcb[t := tcb[t].(wupcnt := tcb[t].wupcnt - 1)];
        return E_OK;
      }
      if !poll { MakeWait(t, None, 0, timed); }
      return E_TMOUT;
    }

    /** tk_wup_tsk: the sleep ends, or the wakeup is kept for the next. */
    method WupTsk(t: nat) returns (r: Ercd)
      requires Valid() && t < |tcb|
      modifies this
      ensures Valid()
      ensures var x := old(tcb)[t]; var asleep := Waiting(x) && x.obj.None?;
        && (r == if x.state.NonExist? then E_NOEXS else if x.state.Dormant? then E_OBJ
                 else if !asleep && x.wupcnt == INT_MAX then E_QOVR else E_OK)
        && (r == E_OK && asleep ==> log == old(log) + [Ended(t, E_OK)] && timerq == old(timerq) - {t} && Released(old(ring), ring, x, t))
        && (r == E_OK && asleep ==> tcb == old(tcb)[t := x.(state := if x.state.Wait? then Ready else Suspend, wercd := E_OK)])
        && (r == E_OK && !asleep ==> log == old(log) && ring == old(ring) && tcb == old(tcb)[t := x.(wupcnt := x.wupcnt + 1)])
        && (r != E_OK ==> log == old(log) && ring == old(ring) && tcb == old(tcb))
    {
      var x := tcb[t];
      assert TcbOk(x);
      if x.state.NonExist? { return E_NOEXS; }
      if x.state.Dormant? { return E_OBJ; }
      if Waiting(x) && x.obj.None? {
        WaitRelease(t, E_OK);
        return E_OK;
      }
      if x.wupcnt == INT_MAX { return E_QOVR; }
      LinkSame(tcb, ring, t, x.(wupcnt := x.wupcnt + 1));
      tcb := tcb[t := x.(wupcnt := x.wupcnt + 1)];
      return E_OK;
    }

    /** tk_sus_tsk; klocked: t holds an object lock; undispatchable: t runs on a processor that has
        dispatching disabled. */
    method SusTsk(t: nat, klocked: bool, undispatchable: bool) returns (r: Ercd)
      requires Valid() && t < |tcb|
      modifies this
      ensures Valid() && log == old(log)
      ensures var x := old(tcb)[t];
        && (r == if x.state.NonExist? then E_NOEXS else if x.state.Dormant? || klocked then E_OBJ
                 else if undispatchable then E_CTX else if x.suscnt == INT_MAX then E_QOVR else E_OK)
        && tcb == if r != E_OK then old(tcb)
                  else old(tcb)[t := x.(suscnt := x.suscnt + 1, state := if x.state.Ready? then Suspend
                      else if x.state.Wait? then WaitSus else x.state)]
      ensures var x := old(tcb)[t];
        ring == if r == E_OK && x.state.Ready? then old(ring)[ReadyAt(x.pri) := Without(On(old(ring), ReadyAt(x.pri)), t)] else old(ring)
    {
      var x := tcb[t];
      assert TcbOk(x);
      if x.state.NonExist? { return E_NOEXS; }
      if x.state.Dormant? { return E_OBJ; }
      if klocked { return E_OBJ; }
      if undispatchable { return E_CTX; }
      if x.suscnt == INT_MAX { return E_QOVR; }
      var y := x.(suscnt := x.suscnt + 1, state := if x.state.Ready? then Suspend else if x.state.Wait? then WaitSus else x.state);
      LogSame(log, tcb, t, y);
      if x.state.Ready? {
        MakeNonReady(t, y);
      } else {
        LinkSame(tcb, ring, t, y);
        tcb := tcb[t := y];
      }
      return E_OK;
    }

    /** tk_rsm_tsk, or, with force, tk_frsm_tsk. */
    method RsmTsk(t: nat, force: bool) returns (r: Ercd)
      requires Valid() && t < |tcb|
      modifies this
      ensures Valid() && log == old(log)
      ensures var x := old(tcb)[t]; var n := if force then 0 else x.suscnt - 1;
        && (r == if x.state.NonExist? then E_NOEXS else if x.state.Suspend? || x.state.WaitSus? then E_OK else E_OBJ)
        && tcb == if r != E_OK then old(tcb)
                  else old(tcb)[t := x.(suscnt := n, state := if n > 0 then x.state else if x.state.Suspend? then Ready else Wait)]
      ensures var x := old(tcb)[t];
        ring == if r == E_OK && (force || x.suscnt == 1) &&
            x.state.Suspend? then old(ring)[ReadyAt(x.pri) := On(old(ring), ReadyAt(x.pri)) + [t]] else old(ring)
    {
      var x := tcb[t];
      assert TcbOk(x);
      if x.state.NonExist? { return E_NOEXS; }
      if !(x.state.Suspend? || x.state.WaitSus?) { return E_OBJ; }
      var y := x.(suscnt := if force then 0 else x.suscnt - 1);
      if y.suscnt > 0 || x.state.WaitSus? {
        var z := if y.suscnt > 0 then y else y.(state := Wait);
        LogSame(log, tcb, t, z);
        LinkSame(tcb, ring, t, z);
        tcb := tcb[t := z];
      } else {
        LogSame(log, tcb, t, y.(state := Ready));
        LinkSame(tcb, ring, t, y);
        ghost var T := tcb;
        tcb := tcb[t := y];
        MakeReady(t);
        assert tcb == T[t := y.(state := Ready)];
      }
      return E_OK;
    }

    lemma LogSame(l: seq<Event>, ts: seq<Tcb>, t: nat, x: Tcb)
      requires LogOk(l, ts) && t < |ts| && Waiting(x) == Waiting(ts[t])
      ensures LogOk(l, ts[t := x])
    {
    }

    // ----- Lives

    /** A new task takes the first free control block. */
    method CreTsk(pri: nat) returns (r: Option<nat>)
      requires Valid() && pri < NUM_TSKPRI
      modifies this
      ensures Valid() && log == old(log)
      ensures r.None? <==> On(old(ring), Free) == []
      ensures r.None? ==> tcb == old(tcb)
      ensures r.Some? ==>
        r.value < |old(tcb)| && r.value == On(old(ring), Free)[0] && tcb == old(tcb)[r.value := Tcb(Dormant, pri, None, 0, 0, false, E_OK)]
    {
      var q := On(ring, Free);
      if q == [] { return None; }
      var t := q[0];
      assert RingOk(tcb, ring, Free) && t in q;
      var x := Tcb(Dormant, pri, None, 0, 0, false, E_OK);
      LinkOut(tcb, ring, t, x);
      WithoutHead(q);
      LineKeepsBits(ring, Free, q[1..], bitmap, top);
      LogSame(log, tcb, t, x);
      ring := ring[Free := q[1..]];
      tcb := tcb[t := x];
      return Some(t);
    }

    /** tk_sta_tsk; loaded: the task's old context is still current on some processor. */
    method StaTsk(t: nat, loaded: bool) returns (r: Ercd)
      requires Valid() && t < |tcb|
      modifies this
      ensures Valid() && log == old(log)
      ensures var x := old(tcb)[t]; r == if x.state.NonExist? then E_NOEXS else if !x.state.Dormant? || loaded then E_OBJ else E_OK
      ensures r != E_OK ==> tcb == old(tcb) && ring == old(ring)
      ensures r == E_OK ==> tcb == old(tcb)[t := old(tcb)[t].(state := Ready)]
      ensures r == E_OK ==> var h := ReadyAt(old(tcb)[t].pri); ring == old(ring)[h := On(old(ring), h) + [t]]
    {
      if tcb[t].state.NonExist? { return E_NOEXS; }
      if !tcb[t].state.Dormant? || loaded { return E_OBJ; }
      assert TcbOk(tcb[t]);
      LogSame(log, tcb, t, tcb[t].(state := Ready));
      MakeReady(t);
      return E_OK;
    }

    /** tk_ter_tsk; klocked: t holds an object lock. */
    method TerTsk(t: nat, ipri: nat, klocked: bool) returns (r: Ercd)
      requires Valid() && t < |tcb| && ipri < NUM_TSKPRI
      modifies this
      ensures Valid()
      ensures var x := old(tcb)[t]; r == if x.state.NonExist? then E_NOEXS else if x.state.Dormant? || klocked then E_OBJ else E_OK
      ensures r != E_OK ==> tcb == old(tcb) && ring == old(ring) && log == old(log) && timerq == old(timerq)
      ensures r == E_OK ==> log == (if Waiting(old(tcb)[t]) then old(log) + [Cancelled(t)] else old(log)) && timerq == old(timerq) - {t}
      ensures r == E_OK ==> tcb == old(tcb)[t := Tcb(Dormant, ipri, None, 0, 0, false, E_OK)]
      ensures r == E_OK ==> var h := HomeOf(old(tcb)[t]); ring == if h == Nowhere then old(ring) else old(ring)[h := Without(On(old(ring), h), t)]
    {
      if tcb[t].state.NonExist? { return E_NOEXS; }
      if tcb[t].state.Dormant? || klocked { return E_OBJ; }
      EndTask(t, ipri, false);
      return E_OK;
    }

    /** knl_ter_tsk and what follows it: tk_ext_tsk and tk_ter_tsk make the task dormant with its
        first priority, tk_exd_tsk (delete) leaves its block to be reclaimed after the dispatch. */
    method EndTask(t: nat, ipri: nat, delete: bool)
      requires Valid() && t < |tcb| && ipri < NUM_TSKPRI && !tcb[t].state.NonExist? && !tcb[t].state.Dormant?
      modifies this
      ensures Valid() && timerq == old(timerq) - {t}
      ensures log == if Waiting(old(tcb)[t]) then old(log) + [Cancelled(t)] else old(log)
      ensures tcb == old(tcb)[t := Tcb(if delete then NonExist else Dormant, ipri, None, 0, 0, delete, E_OK)]
      ensures var h := HomeOf(old(tcb)[t]); ring == if h == Nowhere then old(ring) else old(ring)[h := Without(On(old(ring), h), t)]
    {
      var x := Tcb(if delete then NonExist else Dormant, ipri, None, 0, 0, delete, E_OK);
      assert TcbOk(tcb[t]);
      if Waiting(tcb[t]) {
        LogStep(log, tcb, Cancelled(t), x);
        log := log + [Cancelled(t)];
      } else {
        LogSame(log, tcb, t, x);
      }
      timerq := timerq - {t};
      if tcb[t].state.Ready? {
        MakeNonReady(t, x);
      } else if Waiting(tcb[t]) && tcb[t].obj.Some? {
        var h := HomeOf(tcb[t]);
        LinkOut(tcb, ring, t, x);
        LineKeepsBits(ring, h, Without(On(ring, h), t), bitmap, top);
        ring := ring[h := Without(On(ring, h), t)];
        tcb := tcb[t := x];
      } else {
        LinkSame(tcb, ring, t, x);
        tcb := tcb[t := x];
      }
    }

    /** tk_del_tsk: a dormant task's block is free, or, while the task is still loaded, waits for the
        dispatch. */
    method DelTsk(t: nat, loaded: bool) returns (r: Ercd)
      requires Valid() && t < |tcb|
      modifies this
      ensures Valid() && log == old(log)
      ensures var x := old(tcb)[t]; r == if x.state.NonExist? then E_NOEXS else if !x.state.Dormant? then E_OBJ else E_OK
      ensures r != E_OK ==> tcb == old(tcb) && ring == old(ring)
      ensures r == E_OK ==> tcb == old(tcb)[t := old(tcb)[t].(state := NonExist, stkfree := loaded)]
      ensures r == E_OK ==> ring == if loaded then old(ring) else old(ring)[Free := On(old(ring), Free) + [t]]
    {
      if tcb[t].state.NonExist? { return E_NOEXS; }
      if !tcb[t].state.Dormant? { return E_OBJ; }
      if loaded {
        var x := tcb[t].(state := NonExist, stkfree := true);
        assert TcbOk(tcb[t]);
        LogSame(log, tcb, t, x);
        LinkSame(tcb, ring, t, x);
        tcb := tcb[t := x];
      } else {
        FreeBlock(t);
      }
      return E_OK;
    }

    /** knl_smp_dispatch_release, under the lock, for the task just saved. */
    method DispatchRelease(t: nat, loaded: bool)
      requires Valid() && t < |tcb|
      modifies this
      ensures Valid() && log == old(log)
      ensures tcb == if old(tcb)[t].stkfree && !loaded then old(tcb)[t := old(tcb)[t].(state := NonExist, stkfree := false)] else old(tcb)
      ensures ring == if old(tcb)[t].stkfree && !loaded then old(ring)[Free := On(old(ring), Free) + [t]] else old(ring)
    {
      assert TcbOk(tcb[t]);
      if tcb[t].stkfree && !loaded { FreeBlock(t); }
    }

    /** knl_del_tsk: the block goes to the end of the free list. */
    method FreeBlock(t: nat)
      requires Valid() && t < |tcb| && (tcb[t].state.Dormant? || tcb[t].stkfree)
      modifies this`tcb, this`ring
      ensures Valid() && tcb == old(tcb)[t := old(tcb)[t].(state := NonExist, stkfree := false)]
      ensures ring == old(ring)[Free := On(old(ring), Free) + [t]]
    {
      var x := tcb[t].(state := NonExist, stkfree := false);
      assert TcbOk(tcb[t]);
      LogSame(log, tcb, t, x);
      var q := On(ring, Free);
      LinkIn(tcb, ring, t, x, |q|);
      assert InsertAt(q, |q|, t) == q + [t];
      LineKeepsBits(ring, Free, q + [t], bitmap, top);
      ring := ring[Free := q + [t]];
      tcb := tcb[t := x];
    }
  }

  /** One E_DLT for each task of a line. */
  function Ends(q: seq<nat>): seq<Event> {
    if q == [] then [] else Ends(q[..|q| - 1]) + [Ended(q[|q| - 1], E_DLT)]
  }

  lemma EndsSnoc(q: seq<nat>, t: nat)
    ensures Ends(q + [t]) == Ends(q) + [Ended(t, E_DLT)]
  {
    assert (q + [t])[..|q|] == q;
  }

  lemma WithoutHead(q: seq<nat>)
    requires q != [] && Distinct(q)
    ensures Without(q, q[0]) == q[1..]
  {
    assert forall i :: 0 <= i < |q[1..]| ==> q[1..][i] == q[i + 1];
    WithoutAbsent(q[1..], q[0]);
  }
}
