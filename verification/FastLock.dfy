/** The fast lock: an atomic counter in front of a semaphore (lib/libtk/fastlock.c:37-108), for any
    number of tasks. A step is one atomic operation: the counter's, or one semaphore call. Waits
    are not released by force. */
module FastLock {
  import opened Lists

  /** Where a task is. Calling: counted, about to call tk_wai_sem. Queued: in the semaphore's
      waiting line. Inside: between Lock and Unlock. Leaving: counted out, about to call tk_sig_sem. */
  datatype Place = Outside | Calling | Queued | Inside | Leaving

  /** cnt and sem are the counter and the semaphore's count, queue its waiting line; contended
      counts the Unlocks that had to signal, handed the waits that came to an end. */
  datatype Lock = Lock(cnt: int, sem: nat, queue: seq<nat>, task: seq<Place>, contended: nat, handed: nat)

  const MAXSEM := 1

  /** CreateLock. */
  function Created(n: nat): Lock {
    Lock(-1, 0, [], seq(n, _ => Outside), 0, 0)
  }

  /** 'at': where in the line a priority-ordered semaphore puts the task; 'first': whether it comes
      before every task already in line. */
  datatype Action = IncStep(t: nat) | WaitStep(t: nat, first: bool, at: nat) | DecStep(t: nat) | SignalStep(t: nat) | MoveStep(from: nat, to: nat)

  /** What the step needs: only where the task is, and that the line has such a place. */
  predicate Enabled(x: Lock, a: Action) {
    match a
    case IncStep(t) => t < |x.task| && x.task[t].Outside?
    case WaitStep(t, first, at) => t < |x.task| && x.task[t].Calling? && at <= |x.queue| && (first ==> at == 0) && (x.queue == [] ==> first)
    case DecStep(t) => t < |x.task| && x.task[t].Inside?
    case SignalStep(t) => t < |x.task| && x.task[t].Leaving?
    case MoveStep(from, to) => from < |x.queue| && to < |x.queue|
  }

  function Dropped(q: seq<nat>, i: nat): (r: seq<nat>)
    requires i < |q|
    ensures forall t :: t in r ==> t in q
    ensures forall t :: t in q ==> t in r || t == q[i]
    ensures Distinct(q) ==> Distinct(r) && q[i] !in r
  {
    assert q == q[..i] + [q[i]] + q[i + 1..];
    q[..i] + q[i + 1..]
  }

  function With(q: seq<nat>, i: nat, t: nat): (r: seq<nat>)
    requires i <= |q|
    ensures r != [] && forall u :: u in r <==> u in q || u == t
    ensures Distinct(q) && t !in q ==> Distinct(r)
  {
    assert q == q[..i] + q[i..];
    q[..i] + [t] + q[i..]
  }

  /** The step. A signal beyond the semaphore's maximum would be refused and lost. */
  function Do(x: Lock, a: Action): Lock
    requires Enabled(x, a)
  {
    match a
    case IncStep(t) =>
      x.(cnt := x.cnt + 1, task := x.task[t := if x.cnt + 1 > 0 then Calling else Inside])
    case WaitStep(t, first, at) =>
      if first && x.sem >= 1 then x.(sem := x.sem - 1, task := x.task[t := Inside], handed := x.handed + 1)
      else x.(queue := With(x.queue, at, t), task := x.task[t := Queued])
    case DecStep(t) =>
      if x.cnt > 0 then x.(cnt := x.cnt - 1, task := x.task[t := Leaving], contended := x.contended + 1)
      else x.(cnt := x.cnt - 1, task := x.task[t := Outside])
    case SignalStep(t) =>
      var y := x.(task := x.task[t := Outside]);
      if 1 > MAXSEM - x.sem then y
      else if x.queue == [] then y.(sem := x.sem + 1)
      else if x.queue[0] < |x.task| then y.(queue := x.queue[1..], task := y.task[x.queue[0] := Inside], handed := x.handed + 1)
      else y
    case MoveStep(from, to) =>
      x.(queue := With(Dropped(x.queue, from), to, x.queue[from]))
  }

  // ----- Counting tasks

  function Count(ts: seq<Place>, p: Place): nat {
    if ts == [] then 0 else (if ts[0] == p then 1 else 0) + Count(ts[1..], p)
  }

  lemma {:induction false} CountMove(ts: seq<Place>, t: nat, to: Place, p: Place)
    requires t < |ts|
    ensures Count(ts[t := to], p) == Count(ts, p) - (if ts[t] == p then 1 else 0) + (if to == p then 1 else 0)
  {
    if t > 0 {
      assert ts[t := to][1..] == ts[1..][t - 1 := to];
      CountMove(ts[1..], t - 1, to, p);
    } else {
      assert ts[t := to][1..] == ts[1..];
    }
  }

  lemma {:induction false} CountPositive(ts: seq<Place>, p: Place, t: nat)
    requires t < |ts| && ts[t] == p
    ensures Count(ts, p) >= 1
  {
    if t > 0 { CountPositive(ts[1..], p, t - 1); }
  }

  lemma {:induction false} CountTwo(ts: seq<Place>, p: Place, t: nat, u: nat)
    requires t < u < |ts| && ts[t] == p && ts[u] == p
    ensures Count(ts, p) >= 2
  {
    if t > 0 { CountTwo(ts[1..], p, t - 1, u - 1); } else { CountPositive(ts[1..], p, u - 1); }
  }

  lemma {:induction false} CountWitness(ts: seq<Place>, p: Place) returns (t: nat)
    requires Count(ts, p) >= 1
    ensures t < |ts| && ts[t] == p
  {
    if ts[0] == p { t := 0; } else { var u := CountWitness(ts[1..], p); t := u + 1; }
  }

  lemma {:induction false} CountNone(n: nat, p: Place)
    requires !p.Outside?
    ensures Count(seq(n, _ => Outside), p) == 0
  {
    if n > 0 {
      assert seq(n, _ => Outside)[1..] == seq(n - 1, _ => Outside);
      CountNone(n - 1, p);
    }
  }

  // ----- The invariant

  function Waiting(x: Lock): nat {
    Count(x.task, Calling) + Count(x.task, Queued)
  }

  /** The counter is one less than the tasks counted in. While there are any, exactly one token is
      about: held by the task inside, on its way back with a leaving one, or in the semaphore. */
  ghost predicate Tokens(x: Lock) {
    var inside := Count(x.task, Inside);
    && x.cnt == Waiting(x) + inside - 1
    && inside + Count(x.task, Leaving) + x.sem == (if Waiting(x) + inside > 0 then 1 else 0)
    && x.contended == x.handed + x.sem + Count(x.task, Leaving)
  }

  /** The waiting line is the queued tasks, each once. */
  ghost predicate InLine(q: seq<nat>, ts: seq<Place>) {
    Distinct(q) && forall t: nat :: t in q <==> t < |ts| && ts[t].Queued?
  }

  /** A token in the semaphore means nobody is in line. */
  ghost predicate Line(x: Lock) {
    InLine(x.queue, x.task) && (x.queue != [] ==> x.sem == 0)
  }

  ghost predicate Inv(x: Lock) {
    Tokens(x) && Line(x)
  }

  lemma CreatedInv(n: nat)
    ensures Inv(Created(n))
  {
    CountNone(n, Calling);
    CountNone(n, Queued);
    CountNone(n, Inside);
    CountNone(n, Leaving);
  }

  lemma Moved(x: Lock, t: nat, to: Place)
    requires t < |x.task|
    ensures forall p :: Count(x.task[t := to], p) == Count(x.task, p) - (if x.task[t] == p then 1 else 0) + (if to == p then 1 else 0)
  {
    forall p ensures Count(x.task[t := to], p) == Count(x.task, p) - (if x.task[t] == p then 1 else 0) + (if to == p then 1 else 0) {
      CountMove(x.task, t, to, p);
    }
  }

  lemma StepTokens(x: Lock, a: Action)
    requires Inv(x) && Enabled(x, a)
    ensures Tokens(Do(x, a))
  {
    match a
    case IncStep(t) =>
      Moved(x, t, Do(x, a).task[t]);
    case WaitStep(t, first, at) =>
      Moved(x, t, Do(x, a).task[t]);
    case DecStep(t) =>
      CountPositive(x.task, Inside, t);
      Moved(x, t, Do(x, a).task[t]);
    case SignalStep(t) => SignalTokens(x, t);
    case MoveStep(from, to) =>
  }

  lemma SignalTokens(x: Lock, t: nat)
    requires Inv(x) && Enabled(x, SignalStep(t))
    ensures Tokens(Do(x, SignalStep(t)))
  {
    CountPositive(x.task, Leaving, t);
    Moved(x, t, Outside);
    if x.queue != [] {
      var h := x.queue[0];
      assert h in x.queue;
      Moved(x.(task := x.task[t := Outside]), h, Inside);
    }
  }

  lemma LineJoin(q: seq<nat>, ts: seq<Place>, at: nat, t: nat)
    requires InLine(q, ts) && t < |ts| && !ts[t].Queued? && at <= |q|
    ensures InLine(With(q, at, t), ts[t := Queued])
  {
  }

  lemma LineSame(q: seq<nat>, ts: seq<Place>, t: nat, to: Place)
    requires InLine(q, ts) && t < |ts| && !ts[t].Queued? && !to.Queued?
    ensures InLine(q, ts[t := to])
  {
  }

  lemma LineServe(q: seq<nat>, ts: seq<Place>)
    requires InLine(q, ts) && q != []
    ensures q[0] < |ts| && ts[q[0]].Queued? && InLine(q[1..], ts[q[0] := Inside])
  {
    assert q[0] in q;
    assert Dropped(q, 0) == q[1..];
  }

  lemma StepLine(x: Lock, a: Action)
    requires Inv(x) && Enabled(x, a)
    ensures Line(Do(x, a))
  {
    match a
    case IncStep(t) =>
      LineSame(x.queue, x.task, t, Do(x, a).task[t]);
    case WaitStep(t, first, at) =>
      if first && x.sem >= 1 { LineSame(x.queue, x.task, t, Inside); } else { LineJoin(x.queue, x.task, at, t); }
    case DecStep(t) =>
      LineSame(x.queue, x.task, t, Do(x, a).task[t]);
    case SignalStep(t) =>
      LineSame(x.queue, x.task, t, Outside);
      if x.queue != [] { LineServe(x.queue, x.task[t := Outside]); }
    case MoveStep(from, to) =>
  }

  lemma StepInv(x: Lock, a: Action)
    requires Inv(x) && Enabled(x, a)
    ensures Inv(Do(x, a))
  {
    StepTokens(x, a);
    StepLine(x, a);
  }

  // ----- What it gives, after any run from CreateLock

  /** run is a sequence of steps, each possible where it is taken. */
  ghost predicate Possible(x: Lock, run: seq<Action>)
    decreases run
  {
    run == [] || (Enabled(x, run[0]) && Possible(Do(x, run[0]), run[1..]))
  }

  function After(x: Lock, run: seq<Action>): Lock
    requires Possible(x, run)
    decreases run
  {
    if run == [] then x else After(Do(x, run[0]), run[1..])
  }

  lemma {:induction false} RunInv(x: Lock, run: seq<Action>)
    requires Inv(x) && Possible(x, run)
    ensures Inv(After(x, run))
    decreases run
  {
    if run != [] {
      StepInv(x, run[0]);
      RunInv(Do(x, run[0]), run[1..]);
    }
  }

  /** At most one task is between Lock and Unlock, and the semaphore stays at most 1. */
  lemma MutualExclusion(n: nat, run: seq<Action>, t: nat, u: nat)
    requires Possible(Created(n), run) && t < u
    ensures var x := After(Created(n), run);
      && x.sem <= MAXSEM && (t < |x.task| && u < |x.task| && x.task[t].Inside? ==> !x.task[u].Inside?)
  {
    CreatedInv(n);
    RunInv(Created(n), run);
    var x := After(Created(n), run);
    if t < |x.task| && u < |x.task| && x.task[t].Inside? && x.task[u].Inside? { CountTwo(x.task, Inside, t, u); }
  }

  lemma {:induction false} CountThree(ts: seq<Place>, p: Place, q: Place, r: Place)
    requires p != q && q != r && p != r
    ensures Count(ts, p) + Count(ts, q) + Count(ts, r) <= |ts|
  {
    if ts != [] { CountThree(ts[1..], p, q, r); }
  }

  lemma {:induction false} AfterTasks(x: Lock, run: seq<Action>)
    requires Possible(x, run)
    ensures |After(x, run).task| == |x.task|
    decreases run
  {
    if run != [] { AfterTasks(Do(x, run[0]), run[1..]); }
  }

  /** The counter stays between -1 and the number of tasks, so a 32-bit word never wraps. */
  lemma CounterBounded(n: nat, run: seq<Action>)
    requires Possible(Created(n), run)
    ensures -1 <= After(Created(n), run).cnt < n
  {
    CreatedInv(n);
    RunInv(Created(n), run);
    AfterTasks(Created(n), run);
    CountThree(After(Created(n), run).task, Calling, Queued, Inside);
  }

  /** A signal is never refused: it ends one wait, or leaves the one token in the semaphore. */
  lemma SignalOne(x: Lock, t: nat)
    requires Inv(x) && Enabled(x, SignalStep(t))
    ensures x.sem == 0 && forall h :: h in x.queue ==> h < |x.task|
    ensures var y := Do(x, SignalStep(t));
      if x.queue == [] then y.sem == 1 && y.handed == x.handed else y.sem == 0 && y.handed == x.handed + 1 && y.task[x.queue[0]].Inside?
  {
    CountPositive(x.task, Leaving, t);
    if x.queue != [] { assert x.queue[0] in x.queue; }
  }

  /** Every contended Unlock hands over exactly one token: of the signals due so far, each has ended
      one wait, or is still to be made, or is the one token the semaphore holds. */
  lemma SignalHandsOver(n: nat, run: seq<Action>)
    requires Possible(Created(n), run)
    ensures var x := After(Created(n), run); x.contended == x.handed + Count(x.task, Leaving) + x.sem && x.sem <= 1
    ensures forall t :: Enabled(After(Created(n), run), SignalStep(t)) ==> After(Created(n), run).sem == 0
  {
    CreatedInv(n);
    RunInv(Created(n), run);
    var x := After(Created(n), run);
    forall t | Enabled(x, SignalStep(t)) ensures x.sem == 0 { SignalOne(x, t); }
  }

  /** With the token in the semaphore nobody is in line. */
  lemma NobodyInLine(x: Lock)
    requires Line(x) && x.sem > 0
    ensures Count(x.task, Queued) == 0
  {
    assert forall t: nat :: t < |x.task| && x.task[t].Queued? ==> t in x.queue;
    CountAllOther(x.task, Queued);
  }

  lemma {:induction false} CountAllOther(ts: seq<Place>, p: Place)
    requires forall t: nat :: t < |ts| ==> ts[t] != p
    ensures Count(ts, p) == 0
  {
    if ts != [] { CountAllOther(ts[1..], p); }
  }

  /** No wakeup is lost: while a task waits for the lock, another is inside, or is about to signal,
      or the token is in the semaphore, nobody is in line, and a task about to wait will have it. */
  lemma NoLostWakeup(n: nat, run: seq<Action>, w: nat) returns (t: nat)
    requires Possible(Created(n), run)
    requires var x := After(Created(n), run); w < |x.task| && (x.task[w].Calling? || x.task[w].Queued?)
    ensures var x := After(Created(n), run);
      t < |x.task| && (x.task[t].Inside? || x.task[t].Leaving? ||
          (x.task[t].Calling? && Enabled(x, WaitStep(t, true, 0)) && Do(x, WaitStep(t, true, 0)).task[t].Inside?))
  {
    CreatedInv(n);
    RunInv(Created(n), run);
    var x := After(Created(n), run);
    CountPositive(x.task, x.task[w], w);
    if Count(x.task, Inside) >= 1 {
      t := CountWitness(x.task, Inside);
    } else if Count(x.task, Leaving) >= 1 {
      t := CountWitness(x.task, Leaving);
    } else {
      NobodyInLine(x);
      t := CountWitness(x.task, Calling);
    }
  }

  /** An Unlock that nobody waits behind makes no semaphore call, and one that somebody waits behind
      always makes one. */
  lemma UnlockSignalsIffContended(n: nat, run: seq<Action>, t: nat)
    requires Possible(Created(n), run) && Enabled(After(Created(n), run), DecStep(t))
    ensures var x := After(Created(n), run); Do(x, DecStep(t)).task[t].Leaving? <==> Waiting(x) > 0
  {
    CreatedInv(n);
    RunInv(Created(n), run);
    CountPositive(After(Created(n), run).task, Inside, t);
  }

  lemma LineLast(q: seq<nat>, at: nat, t: nat)
    requires at <= |q|
    ensures With(q, at, t)[at] == t && With(q, at, t)[..at] == q[..at] && With(q, at, t)[at + 1..] == q[at..]
  {
  }

  /** What one step makes of its task, after any run. A Lock is inside at once exactly if nobody is
      counted in; a wait takes the token exactly if the semaphore has it, and queues in its place
      else; an Unlock is out at once exactly if nobody waits; a signal is out and lets the first in. */
  lemma CallsMoveOn(n: nat, run: seq<Action>, a: Action)
    requires Possible(Created(n), run) && Enabled(After(Created(n), run), a)
    ensures var x := After(Created(n), run); var y := Do(x, a);
      match a
      case IncStep(t) => y == x.(cnt := y.cnt, task := x.task[t := if Waiting(x) + Count(x.task, Inside) == 0 then Inside else Calling])
      case WaitStep(t, first, at) =>
        if x.sem > 0 then y.task == x.task[t := Inside] && y.queue == x.queue && y.sem == 0
        else y.task == x.task[t := Queued] && at < |y.queue| && y.queue[at] == t &&
             y.queue[..at] == x.queue[..at] && y.queue[at + 1..] == x.queue[at..]
      case DecStep(t) => y.task == x.task[t := if Waiting(x) > 0 then Leaving else Outside] && y.queue == x.queue && y.sem == x.sem
      case SignalStep(t) =>
        if x.queue == [] then y.task == x.task[t := Outside] && y.sem == 1
        else x.queue[0] < |x.task| && y.task == x.task[t := Outside][x.queue[0] := Inside] && y.queue == x.queue[1..] && y.sem == 0
      case MoveStep(from, to) => y.task == x.task && y.sem == x.sem
  {
    CreatedInv(n);
    RunInv(Created(n), run);
    var x := After(Created(n), run);
    match a
    case IncStep(t) =>
    case WaitStep(t, first, at) =>
      CountPositive(x.task, Calling, t);
      LineLast(x.queue, at, t);
    case DecStep(t) => CountPositive(x.task, Inside, t);
    case SignalStep(t) => SignalOne(x, t);
    case MoveStep(from, to) =>
  }
}
