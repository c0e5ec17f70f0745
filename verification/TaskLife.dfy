/** The life of a task control block on two processors (kernel/tkernel/task_manage.c): create,
    start, exit, terminate, delete, and the deferred reclamation of the dispatcher. */
module TaskLife {
  import opened Options

  const CORES := 2

  datatype State = NonExistent | Dormant | Alive

  /** free: on knl_free_tcb. creates and backs count the block's trips off and onto that list. */
  datatype Tcb = Tcb(state: State, stkfree: bool, free: bool, creates: nat, backs: nat)

  /** A dispatcher after its save: before the unlocked test of stkfree, or past it. */
  datatype Release = Idle | Outgoing(t: nat) | Tested(t: nat)

  /** deleting: tk_del_tsk, under the kernel lock, has found this task current on some processor and is
      about to defer the deletion. */
  datatype Sys = Sys(ctx: seq<Option<nat>>, pub: seq<Option<nat>>, release: seq<Release>, tcb: seq<Tcb>, deleting: Option<nat>)

  predicate Sized(x: Sys) {
    |x.ctx| == CORES && |x.pub| == CORES && |x.release| == CORES
  }

  /** knl_is_ctxtsk */
  predicate Current(x: Sys, t: nat)
    requires Sized(x)
  {
    x.ctx[0] == Some(t) || x.ctx[1] == Some(t)
  }

  /** p is what a reschedule may publish: tasks that are alive. */
  predicate Publishable(x: Sys, p: seq<Option<nat>>) {
    |p| == CORES && forall c :: 0 <= c < CORES && p[c].Some? ==> p[c].value < |x.tcb| && x.tcb[p[c].value].state == Alive
  }

  /** Delete is tk_del_tsk of a task that is not current; of one that is, DeleteSeen and DeleteMark
      are the two halves of it: the test of knl_is_ctxtsk, and the marking. */
  datatype Act =
    | Create(t: nat)
    | Start(t: nat)
    | Publish(p: seq<Option<nat>>)
    | Exit(c: nat, p: seq<Option<nat>>)
    | ExitDelete(c: nat, p: seq<Option<nat>>)
    | Terminate(t: nat, p: seq<Option<nat>>)
    | Delete(t: nat)
    | DeleteSeen(t: nat)
    | DeleteMark
    | Save(c: nat)
    | Test(c: nat)
    | Reclaim(c: nat)
    | Install(c: nat)

  function With(x: Sys, t: nat, b: Tcb): Sys
    requires t < |x.tcb|
  {
    x.(tcb := x.tcb[t := b])
  }

  /** knl_del_tsk: the stack is freed and the block goes back to the free list. */
  function Returned(b: Tcb): Tcb {
    b.(state := NonExistent, free := true, backs := b.backs + 1)
  }

  predicate AliveOn(x: Sys, c: nat)
    requires Sized(x)
  {
    c < CORES && x.ctx[c].Some? && x.ctx[c].value < |x.tcb| && x.tcb[x.ctx[c].value].state == Alive
  }

  /** The calls that succeed; a call whose check fails backs an error and changes nothing. What takes
      the kernel lock waits while a deletion is under way. */
  predicate Enabled(x: Sys, a: Act)
    requires Sized(x)
  {
    match a
    case Create(t) => x.deleting.None? && t < |x.tcb| && x.tcb[t].free
    case Start(t) => x.deleting.None? && t < |x.tcb| && x.tcb[t].state == Dormant && !Current(x, t)
    case Publish(p) => x.deleting.None? && Publishable(x, p)
    case Exit(c, p) => x.deleting.None? && AliveOn(x, c) && Publishable(x, p) && x.ctx[c] !in p
    case ExitDelete(c, p) => x.deleting.None? && AliveOn(x, c) && Publishable(x, p) && x.ctx[c] !in p
    case Terminate(t, p) => x.deleting.None? && t < |x.tcb| && x.tcb[t].state == Alive && Publishable(x, p) && Some(t) !in p
    case Delete(t) => x.deleting.None? && t < |x.tcb| && x.tcb[t].state == Dormant && !Current(x, t)
    case DeleteSeen(t) => x.deleting.None? && t < |x.tcb| && x.tcb[t].state == Dormant && Current(x, t)
    case DeleteMark => x.deleting.Some? && x.deleting.value < |x.tcb|
    case Save(c) => c < CORES && x.ctx[c].Some? && x.release[c].Idle?
    case Test(c) => c < CORES && x.release[c].Outgoing? && x.release[c].t < |x.tcb|
    case Reclaim(c) => x.deleting.None? && c < CORES && x.release[c].Tested? && x.release[c].t < |x.tcb|
    case Install(c) => c < CORES && x.ctx[c].None? && x.release[c].Idle?
  }

  function Do(x: Sys, a: Act): (y: Sys)
    requires Sized(x) && Enabled(x, a)
    ensures Sized(y) && |y.tcb| == |x.tcb|
  {
    match a
    case Create(t) => With(x, t, x.tcb[t].(state := Dormant, stkfree := false, free := false, creates := x.tcb[t].creates + 1))
    case Start(t) => With(x, t, x.tcb[t].(state := Alive))
    case Publish(p) => x.(pub := p)
    case Exit(c, p) => With(x, x.ctx[c].value, x.tcb[x.ctx[c].value].(state := Dormant, stkfree := false)).(pub := p)
    case ExitDelete(c, p) => With(x, x.ctx[c].value, x.tcb[x.ctx[c].value].(state := NonExistent, stkfree := true)).(pub := p)
    case Terminate(t, p) => With(x, t, x.tcb[t].(state := Dormant, stkfree := false)).(pub := p)
    case Delete(t) => With(x, t, Returned(x.tcb[t]))
    case DeleteSeen(t) => x.(deleting := Some(t))
    case DeleteMark => With(x, x.deleting.value, x.tcb[x.deleting.value].(state := NonExistent, stkfree := true)).(deleting := None)
    case Save(c) => x.(ctx := x.ctx[c := None], release := x.release[c := Outgoing(x.ctx[c].value)])
    case Test(c) => x.(release := x.release[c := if x.tcb[x.release[c].t].stkfree then Tested(x.release[c].t) else Idle])
    case Reclaim(c) =>
      var t := x.release[c].t;
      var y := if x.tcb[t].stkfree && !Current(x, t) then With(x, t, Returned(x.tcb[t].(stkfree := false))) else x;
      y.(release := x.release[c := Idle])
    case Install(c) => x.(ctx := x.ctx[c := x.pub[c]])
  }

  // ----- What every reachable state satisfies

  ghost predicate BlockOk(x: Sys, t: nat)
    requires Sized(x) && t < |x.tcb|
  {
    var b := x.tcb[t];
    && (b.state == NonExistent <==> b.free || b.stkfree)
    && !(b.free && b.stkfree)
    && (b.free ==> !Current(x, t))
    && b.creates == b.backs + if b.free then 0 else 1
  }

  ghost predicate Inv(x: Sys) {
    && Sized(x) && Publishable(x, x.pub)
    && (forall c :: 0 <= c < CORES && x.ctx[c].Some? ==> x.ctx[c].value < |x.tcb| && x.release[c].Idle?)
    && (forall c :: 0 <= c < CORES && !x.release[c].Idle? ==> x.release[c].t < |x.tcb|)
    && (x.deleting.Some? ==> x.deleting.value < |x.tcb| && x.tcb[x.deleting.value].state == Dormant)
    && (forall t :: 0 <= t < |x.tcb| ==> BlockOk(x, t))
  }

  lemma StepInv(x: Sys, a: Act)
    requires Inv(x) && Enabled(x, a)
    ensures Inv(Do(x, a))
  {
    var y := Do(x, a);
    forall t | 0 <= t < |y.tcb| ensures BlockOk(y, t) {
      assert BlockOk(x, t);
      if a.Install? && x.pub[a.c] == Some(t) { assert x.tcb[t].state == Alive; }
    }
    StepPublishable(x, a);
  }

  lemma StepPublishable(x: Sys, a: Act)
    requires Inv(x) && Enabled(x, a)
    ensures Publishable(Do(x, a), Do(x, a).pub)
  {
    var y := Do(x, a);
    forall c | 0 <= c < CORES && y.pub[c].Some? ensures y.pub[c].value < |y.tcb| && y.tcb[y.pub[c].value].state == Alive {
      var t := y.pub[c].value;
      assert y.pub[c] in y.pub;
      assert t < |x.tcb| && BlockOk(x, t);
    }
  }

  ghost predicate Run(xs: seq<Sys>, acts: seq<Act>) {
    && |xs| == |acts| + 1 && Inv0(xs[0])
    && (forall i :: 0 <= i < |acts| ==> Sized(xs[i]) && Enabled(xs[i], acts[i]) && xs[i + 1] == Do(xs[i], acts[i]))
  }

  /** Power-up (knl_task_initialize): every block on the free list, nothing current. */
  predicate Inv0(x: Sys) {
    && x.ctx == [None, None] && x.pub == [None, None] && x.release == [Idle, Idle] && x.deleting == None
    && forall t :: 0 <= t < |x.tcb| ==> x.tcb[t] == Tcb(NonExistent, false, true, 0, 0)
  }

  lemma {:induction false} RunInv(xs: seq<Sys>, acts: seq<Act>, i: nat)
    requires Run(xs, acts) && i < |xs|
    ensures Inv(xs[i]) && |xs[i].tcb| == |xs[0].tcb|
  {
    if i > 0 {
      RunInv(xs, acts, i - 1);
      StepInv(xs[i - 1], acts[i - 1]);
    }
  }

  // ----- The state is what the last call about the task made it

  /** What the step makes of t, if it is about t. */
  function Fate(x: Sys, a: Act, t: nat): Option<State>
    requires Sized(x)
  {
    match a
    case Create(u) => if u == t then Some(Dormant) else None
    case Start(u) => if u == t then Some(Alive) else None
    case Exit(c, _) => if c < CORES && x.ctx[c] == Some(t) then Some(Dormant) else None
    case ExitDelete(c, _) => if c < CORES && x.ctx[c] == Some(t) then Some(NonExistent) else None
    case Terminate(u, _) => if u == t then Some(Dormant) else None
    case Delete(u) => if u == t then Some(NonExistent) else None
    case DeleteMark => if x.deleting == Some(t) then Some(NonExistent) else None
    case _ => None
  }

  lemma FateStep(x: Sys, a: Act, t: nat)
    requires Inv(x) && Enabled(x, a) && t < |x.tcb|
    ensures Do(x, a).tcb[t].state == if Fate(x, a, t).Some? then Fate(x, a, t).value else x.tcb[t].state
  {
    assert BlockOk(x, t);
  }

  /** Step k of the run is not about t. */
  predicate NotAbout(xs: seq<Sys>, acts: seq<Act>, k: nat, t: nat) {
    k < |xs| && k < |acts| && Sized(xs[k]) && Fate(xs[k], acts[k], t).None?
  }

  /** In every run a task is in the state the last call about it put it in, and a processor that let go
      of an ended task installs it no more (EndedStaysOff). */
  lemma {:induction false} LastCallDecides(xs: seq<Sys>, acts: seq<Act>, j: nat, i: nat, t: nat)
    requires Run(xs, acts) && j < i < |xs| && Sized(xs[j]) && t < |xs[j].tcb| && Fate(xs[j], acts[j], t).Some?
    requires forall k :: j < k < i ==> NotAbout(xs, acts, k, t)
    ensures t < |xs[i].tcb| && xs[i].tcb[t].state == Fate(xs[j], acts[j], t).value
  {
    if i - 1 > j {
      LastCallDecides(xs, acts, j, i - 1, t);
      assert NotAbout(xs, acts, i - 1, t);
    }
    RunStep(xs, acts, i - 1);
    FateStep(xs[i - 1], acts[i - 1], t);
  }

  /** A processor that dispatches runs the task published for it, when nothing is in between. */
  lemma DispatchRuns(x: Sys, c: nat)
    requires Inv(x) && Enabled(x, Save(c))
    ensures var y := Do(x, Save(c));
      && y.ctx[c] == None && Enabled(y, Test(c))
      && var z := Do(y, Test(c)); z.release[c].Idle? ==> Enabled(z, Install(c)) && Do(z, Install(c)).ctx[c] == x.pub[c]
  {
  }

  // ----- Stacks

  /** The stack of t is freed between x and y: its block comes to the free list. */
  predicate Freed(x: Sys, y: Sys, t: nat) {
    t < |x.tcb| == |y.tcb| && !x.tcb[t].free && y.tcb[t].free
  }

  /** A new stack or a new context is made for t between x and y. */
  predicate Rebuilt(x: Sys, y: Sys, t: nat) {
    t < |x.tcb| == |y.tcb| && ((x.tcb[t].free && !y.tcb[t].free) || (x.tcb[t].state != Alive && y.tcb[t].state == Alive))
  }

  /** A task that is not alive and not current does not become current before it is alive again. */
  lemma OffStep(x: Sys, a: Act, t: nat)
    requires Inv(x) && Enabled(x, a) && t < |x.tcb| && x.tcb[t].state != Alive && !Current(x, t)
    ensures !Current(Do(x, a), t) && (a != Start(t) ==> Do(x, a).tcb[t].state != Alive)
  {
    assert BlockOk(x, t);
  }

  /** In every run a stack is freed, and a context rebuilt, only while no processor has the task as
      current, before or after the step. */
  lemma StackSafe(xs: seq<Sys>, acts: seq<Act>, i: nat, t: nat)
    requires Run(xs, acts) && i < |acts| && (Freed(xs[i], xs[i + 1], t) || Rebuilt(xs[i], xs[i + 1], t))
    ensures Sized(xs[i]) && Sized(xs[i + 1]) && !Current(xs[i], t) && !Current(xs[i + 1], t)
  {
    RunInv(xs, acts, i);
    RunInv(xs, acts, i + 1);
    assert BlockOk(xs[i], t) && BlockOk(xs[i + 1], t);
  }

  lemma RunStep(xs: seq<Sys>, acts: seq<Act>, i: nat)
    requires Run(xs, acts) && i < |acts|
    ensures Inv(xs[i]) && Enabled(xs[i], acts[i]) && xs[i + 1] == Do(xs[i], acts[i]) && Inv(xs[i + 1]) && |xs[i + 1].tcb| == |xs[i].tcb|
  {
    RunInv(xs, acts, i);
    StepInv(xs[i], acts[i]);
  }

  lemma {:induction false} FreeStays(xs: seq<Sys>, acts: seq<Act>, i: nat, j: nat, t: nat)
    requires Run(xs, acts) && i <= j < |xs| && t < |xs[i].tcb| && xs[i].tcb[t].free
    requires forall k :: i <= k < j ==> acts[k] != Create(t)
    ensures t < |xs[j].tcb| && xs[j].tcb[t].free
  {
    if j > i {
      FreeStays(xs, acts, i, j - 1, t);
      RunStep(xs, acts, j - 1);
      FreeStep(xs[j - 1], acts[j - 1], t);
    }
  }

  /** Once its stack is freed a task is current nowhere until its block is created again. */
  lemma FreedStaysOff(xs: seq<Sys>, acts: seq<Act>, i: nat, j: nat, t: nat)
    requires Run(xs, acts) && i < j < |xs| && Freed(xs[i], xs[i + 1], t)
    requires forall k :: i < k < j ==> acts[k] != Create(t)
    ensures Sized(xs[j]) && t < |xs[j].tcb| && xs[j].tcb[t].free && !Current(xs[j], t)
  {
    FreeStays(xs, acts, i + 1, j, t);
    RunInv(xs, acts, j);
    assert BlockOk(xs[j], t);
  }

  lemma FreeStep(x: Sys, a: Act, t: nat)
    requires Inv(x) && Enabled(x, a) && t < |x.tcb| && x.tcb[t].free && a != Create(t)
    ensures Do(x, a).tcb[t].free
  {
    assert BlockOk(x, t);
  }

  /** A task that ended, and whose processor has let it go, is current nowhere until it is started. */
  lemma {:induction false} EndedStaysOff(xs: seq<Sys>, acts: seq<Act>, i: nat, j: nat, t: nat)
    requires Run(xs, acts) && i <= j < |xs| && Sized(xs[i]) && t < |xs[i].tcb| && xs[i].tcb[t].state != Alive && !Current(xs[i], t)
    requires forall k :: i <= k < j ==> acts[k] != Start(t)
    ensures Sized(xs[j]) && t < |xs[j].tcb| && xs[j].tcb[t].state != Alive && !Current(xs[j], t)
  {
    if j > i {
      EndedStaysOff(xs, acts, i, j - 1, t);
      RunStep(xs, acts, j - 1);
      OffStep(xs[j - 1], acts[j - 1], t);
    }
  }

  /** In every run a control block has come back to the free list at most once per creation. */
  lemma ReturnedOncePerCreation(xs: seq<Sys>, acts: seq<Act>, i: nat, t: nat)
    requires Run(xs, acts) && i < |xs| && t < |xs[i].tcb|
    ensures xs[i].tcb[t].backs <= xs[i].tcb[t].creates <= xs[i].tcb[t].backs + 1
    ensures xs[i].tcb[t].free <==> xs[i].tcb[t].backs == xs[i].tcb[t].creates
  {
    RunInv(xs, acts, i);
    assert BlockOk(xs[i], t);
  }

  // ----- Deferred deletions

  /** The dispatcher steps still to come on processor c before it has finished with t. */
  function Left(x: Sys, c: nat, t: nat): nat
    requires Sized(x) && c < CORES
  {
    (if x.ctx[c] == Some(t) then 3 else 0) + (if x.release[c] == Outgoing(t) then 2 else if x.release[c] == Tested(t) then 1 else 0)
  }

  /** A deleted task is on its way to the free list: some dispatcher has not finished with it. */
  predicate OnItsWay(x: Sys, t: nat)
    requires Sized(x)
  {
    Left(x, 0, t) + Left(x, 1, t) > 0
  }

  /** The step is one of t's own dispatcher steps. */
  predicate Serves(x: Sys, a: Act, t: nat)
    requires Sized(x)
  {
    match a
    case Save(c) => c < CORES && x.ctx[c] == Some(t)
    case Test(c) => c < CORES && x.release[c] == Outgoing(t)
    case Reclaim(c) => c < CORES && x.release[c] == Tested(t)
    case _ => false
  }

  /** A deferred deletion stays deferred, keeps its way, and comes nearer with each of its dispatcher
      steps, until the step that returns its block. */
  lemma DeferredStep(x: Sys, a: Act, t: nat)
    requires Inv(x) && Enabled(x, a) && t < |x.tcb| && x.tcb[t].stkfree
    ensures var y := Do(x, a);
      if y.tcb[t].stkfree then
        && (OnItsWay(x, t) ==> OnItsWay(y, t))
        && Left(y, 0, t) + Left(y, 1, t) <= Left(x, 0, t) + Left(x, 1, t) - (if Serves(x, a, t) then 1 else 0)
      else Freed(x, y, t) && OnItsWay(x, t) && Serves(x, a, t)
  {
    assert BlockOk(x, t);
  }

  /** Dispatcher steps of t among the acts i .. j. */
  function Served(xs: seq<Sys>, acts: seq<Act>, i: nat, j: nat, t: nat): nat
    requires i <= j <= |acts| < |xs|
  {
    if i == j then 0 else Served(xs, acts, i, j - 1, t) + if Sized(xs[j - 1]) && Serves(xs[j - 1], acts[j - 1], t) then 1 else 0
  }

  ghost predicate FreedAmong(xs: seq<Sys>, i: nat, j: nat, t: nat) {
    exists k :: i <= k < j < |xs| && Freed(xs[k], xs[k + 1], t)
  }

  /** Still deferred in x, and with at most 'steps' dispatcher steps to come. */
  predicate Waiting(x: Sys, t: nat, steps: int) {
    Sized(x) && t < |x.tcb| && x.tcb[t].stkfree && OnItsWay(x, t) && Left(x, 0, t) + Left(x, 1, t) <= steps
  }

  /** Between i and j the block was returned, or that many fewer steps are to come. */
  ghost predicate Nearer(xs: seq<Sys>, acts: seq<Act>, i: nat, j: nat, t: nat, steps: nat)
    requires i <= j <= |acts| < |xs|
  {
    FreedAmong(xs, i, j, t) || Waiting(xs[j], t, steps - Served(xs, acts, i, j, t))
  }

  /** Over a run: a deferred deletion that is on its way has its block returned, at the latest when as
      many steps of its own dispatchers were made as are still to come (at most six); until then one
      of them is still to come. */
  lemma {:induction false} DeferredIsReclaimed(xs: seq<Sys>, acts: seq<Act>, i: nat, j: nat, t: nat, steps: nat)
    requires Run(xs, acts) && i <= j < |xs| && Waiting(xs[i], t, steps)
    ensures Nearer(xs, acts, i, j, t, steps)
  {
    if j > i {
      DeferredIsReclaimed(xs, acts, i, j - 1, t, steps);
      RunStep(xs, acts, j - 1);
      ReclaimTurn(xs, acts, i, j, t, steps);
    }
  }

  lemma ReclaimTurn(xs: seq<Sys>, acts: seq<Act>, i: nat, j: nat, t: nat, steps: nat)
    requires i < j < |xs| == |acts| + 1 && Inv(xs[j - 1]) && Enabled(xs[j - 1], acts[j - 1]) && xs[j] == Do(xs[j - 1], acts[j - 1])
    requires Nearer(xs, acts, i, j - 1, t, steps)
    ensures Nearer(xs, acts, i, j, t, steps)
  {
    if FreedAmong(xs, i, j - 1, t) {
      AmongMore(xs, i, j, t);
    } else {
      WaitingStep(xs[j - 1], acts[j - 1], t, steps - Served(xs, acts, i, j - 1, t));
      if Freed(xs[j - 1], xs[j], t) { AmongLast(xs, i, j, t); }
    }
  }

  lemma WaitingStep(x: Sys, a: Act, t: nat, steps: int)
    requires Inv(x) && Enabled(x, a) && Waiting(x, t, steps)
    ensures var y := Do(x, a); Freed(x, y, t) || Waiting(y, t, steps - if Serves(x, a, t) then 1 else 0)
  {
    DeferredStep(x, a, t);
  }

  lemma AmongLast(xs: seq<Sys>, i: nat, j: nat, t: nat)
    requires i < j < |xs| && Freed(xs[j - 1], xs[j], t)
    ensures FreedAmong(xs, i, j, t)
  {
    assert Freed(xs[j - 1], xs[(j - 1) + 1], t);
  }

  lemma AmongMore(xs: seq<Sys>, i: nat, j: nat, t: nat)
    requires i < j < |xs| && FreedAmong(xs, i, j - 1, t)
    ensures FreedAmong(xs, i, j, t)
  {
    var k :| i <= k < j - 1 < |xs| && Freed(xs[k], xs[k + 1], t);
  }

  /** While one is to come it can be taken, once a deletion under way is marked. */
  lemma WayIsOpen(x: Sys, t: nat)
    requires Inv(x) && t < |x.tcb| && x.tcb[t].stkfree && OnItsWay(x, t) && x.deleting.None?
    ensures exists a: Act :: Enabled(x, a) && Serves(x, a, t)
  {
    var c := if Left(x, 0, t) > 0 then 0 else 1;
    assert Serves(x, if x.release[c].Outgoing? then Test(c) else if x.release[c].Tested? then Reclaim(c) else Save(c), t);
  }

  /** A deferred deletion that is not on its way is lost: its block is never returned, and never
      created again. */
  lemma {:induction false} LostStaysLost(xs: seq<Sys>, acts: seq<Act>, i: nat, j: nat, t: nat)
    requires Run(xs, acts) && i <= j < |xs| && Sized(xs[i]) && t < |xs[i].tcb| && xs[i].tcb[t].stkfree && !OnItsWay(xs[i], t)
    ensures Sized(xs[j]) && t < |xs[j].tcb| && xs[j].tcb[t].stkfree && !xs[j].tcb[t].free && !OnItsWay(xs[j], t)
  {
    RunInv(xs, acts, j);
    assert t < |xs[j].tcb| by { RunInv(xs, acts, i); }
    if j > i {
      LostStaysLost(xs, acts, i, j - 1, t);
      RunStep(xs, acts, j - 1);
      DeferredStep(xs[j - 1], acts[j - 1], t);
    }
    assert BlockOk(xs[j], t);
  }

  // ----- Which deletions are lost

  /** A run from any state that keeps the invariant. */
  ghost predicate Path(xs: seq<Sys>, acts: seq<Act>) {
    && |xs| == |acts| + 1 && Inv(xs[0])
    && (forall i :: 0 <= i < |acts| ==> Sized(xs[i]) && Enabled(xs[i], acts[i]) && xs[i + 1] == Do(xs[i], acts[i]))
  }

  lemma {:induction false} PathInv(xs: seq<Sys>, acts: seq<Act>, i: nat)
    requires Path(xs, acts) && i < |xs|
    ensures Inv(xs[i]) && |xs[i].tcb| == |xs[0].tcb|
  {
    if i > 0 {
      PathInv(xs, acts, i - 1);
      StepInv(xs[i - 1], acts[i - 1]);
    }
  }

  /** The step is the unlocked test of stkfree that processor c makes for t. */
  predicate Tests(x: Sys, a: Act, c: nat, t: nat)
    requires Sized(x) && c < CORES
  {
    a == Test(c) && x.release[c] == Outgoing(t)
  }

  ghost predicate TestedAmong(xs: seq<Sys>, acts: seq<Act>, i: nat, j: nat, c: nat, t: nat) {
    c < CORES && exists k :: i <= k < j && k < |xs| && k < |acts| && Sized(xs[k]) && Tests(xs[k], acts[k], c, t)
  }

  /** While a deletion of t is under way a dispatcher loses sight of t by its test, and only so. */
  lemma UnderWayStep(x: Sys, a: Act, c: nat, t: nat)
    requires Inv(x) && Enabled(x, a) && c < CORES && x.deleting == Some(t) && a != DeleteMark
    ensures Do(x, a).deleting == Some(t)
    ensures Left(Do(x, a), c, t) > 0 <==> Left(x, c, t) > 0 && !Tests(x, a, c, t)
    ensures x.release[c] == Tested(t) ==> Do(x, a).release[c] == Tested(t)
  {
    assert BlockOk(x, t);
    if a.Install? { assert x.pub[a.c] != Some(t); }
  }

  lemma {:induction false} UnderWay(xs: seq<Sys>, acts: seq<Act>, i: nat, j: nat, c: nat, t: nat)
    requires Path(xs, acts) && i <= j < |xs| && c < CORES && xs[i].deleting == Some(t)
    requires forall k :: i <= k < j ==> acts[k] != DeleteMark
    ensures Inv(xs[i]) && Inv(xs[j]) && xs[j].deleting == Some(t)
    ensures Left(xs[j], c, t) > 0 <==> Left(xs[i], c, t) > 0 && !TestedAmong(xs, acts, i, j, c, t)
    ensures xs[i].release[c] == Tested(t) ==> xs[j].release[c] == Tested(t)
  {
    PathInv(xs, acts, i);
    PathInv(xs, acts, j);
    if j > i {
      UnderWay(xs, acts, i, j - 1, c, t);
      UnderWayStep(xs[j - 1], acts[j - 1], c, t);
      assert TestedAmong(xs, acts, i, j, c, t) <==> TestedAmong(xs, acts, i, j - 1, c, t) || Tests(xs[j - 1], acts[j - 1], c, t) by {
        if Tests(xs[j - 1], acts[j - 1], c, t) { assert Sized(xs[j - 1]); }
      }
    }
  }

  /** A processor that has not finished with t when tk_del_tsk looks, and makes no test of stkfree
      for t before the mark. */
  ghost predicate Watches(xs: seq<Sys>, acts: seq<Act>, i: nat, j: nat, c: nat, t: nat)
    requires i < |xs| && Sized(xs[i])
  {
    c < CORES && Left(xs[i], c, t) > 0 && !TestedAmong(xs, acts, i + 1, j, c, t)
  }

  /** Over every run: with the two halves of tk_del_tsk at i and j, the deferred deletion is on its
      way if and only if some processor that had not finished with the task at i makes no test
      for it between i and j. */
  lemma DeferredOnItsWay(xs: seq<Sys>, acts: seq<Act>, i: nat, j: nat, t: nat)
    requires Path(xs, acts) && i < j < |acts| && acts[i] == DeleteSeen(t) && acts[j] == DeleteMark
    requires forall k :: i < k < j ==> acts[k] != DeleteMark
    ensures Inv(xs[i]) && Inv(xs[j + 1]) && t < |xs[j + 1].tcb| && xs[j + 1].tcb[t].stkfree
    ensures OnItsWay(xs[j + 1], t) <==> exists c: nat :: Watches(xs, acts, i, j, c, t)
  {
    PathInv(xs, acts, i);
    PathInv(xs, acts, j + 1);
    UnderWay(xs, acts, i + 1, j, 0, t);
    UnderWay(xs, acts, i + 1, j, 1, t);
    forall c: nat | c < CORES ensures Left(xs[j + 1], c, t) > 0 <==> Watches(xs, acts, i, j, c, t) {
      assert c == 0 || c == 1;
    }
    if OnItsWay(xs[j + 1], t) {
      assert Watches(xs, acts, i, j, if Left(xs[j + 1], 0, t) > 0 then 0 else 1, t);
    }
  }

  /** A task that deletes itself is on its way. */
  lemma OwnDeletionOnItsWay(x: Sys, c: nat, p: seq<Option<nat>>)
    requires Inv(x) && Enabled(x, ExitDelete(c, p))
    ensures var t := x.ctx[c].value; Waiting(Do(x, ExitDelete(c, p)), t, 6)
  {
  }

  /** A call of tk_del_tsk for t from xs[0] on, with the steps of the dispatchers during it. */
  ghost predicate DeletionCall(xs: seq<Sys>, acts: seq<Act>, t: nat) {
    && Path(xs, acts) && acts != []
    && if Current(xs[0], t) then
         && |acts| >= 2 && acts[0] == DeleteSeen(t) && acts[|acts| - 1] == DeleteMark
         && forall k :: 0 < k < |acts| - 1 ==> acts[k] != DeleteMark
       else acts == [Delete(t)]
  }

  /** The block will never come back: deferred, and no dispatcher will look for it. */
  predicate Lost(x: Sys, t: nat) {
    Sized(x) && t < |x.tcb| && x.tcb[t].stkfree && !OnItsWay(x, t)
  }

  ghost predicate LosingCall(xs: seq<Sys>, acts: seq<Act>, x: Sys, t: nat) {
    DeletionCall(xs, acts, t) && xs[0] == x && Lost(xs[|acts|], t)
  }

  /** The exact condition before the call: some timing of the dispatchers loses the block if and only
      if the task is current, and no dispatcher is about to reclaim it in any case. */
  lemma DeletionLosesIff(x: Sys, t: nat)
    requires Inv(x) && (Enabled(x, Delete(t)) || Enabled(x, DeleteSeen(t)))
    ensures (exists xs: seq<Sys>, acts: seq<Act> :: LosingCall(xs, acts, x, t)) <==> Current(x, t) && Tested(t) !in x.release
  {
    if Current(x, t) && Tested(t) !in x.release {
      LoseIt(x, t);
    }
    if xs: seq<Sys>, acts: seq<Act> :| LosingCall(xs, acts, x, t) {
      OnlyLostSo(xs, acts, x, t);
    }
  }

  lemma OnlyLostSo(xs: seq<Sys>, acts: seq<Act>, x: Sys, t: nat)
    requires LosingCall(xs, acts, x, t)
    ensures Current(x, t) && Tested(t) !in x.release
  {
    var j := |acts| - 1;
    assert xs[0 + 1] == Do(x, acts[0]);
    assert t < |x.tcb| && BlockOk(x, t);
    assert Current(x, t);
    DeferredOnItsWay(xs, acts, 0, j, t);
    forall c: nat | c < CORES ensures x.release[c] != Tested(t) {
      if x.release[c] == Tested(t) { NeverTested(xs, acts, 1, j, c, t); }
      assert !Watches(xs, acts, 0, j, c, t);
    }
  }

  lemma NeverTested(xs: seq<Sys>, acts: seq<Act>, i: nat, j: nat, c: nat, t: nat)
    requires Path(xs, acts) && i <= j < |xs| && c < CORES && Sized(xs[i]) && xs[i].deleting == Some(t) && xs[i].release[c] == Tested(t)
    requires forall k :: i <= k < j ==> acts[k] != DeleteMark
    ensures !TestedAmong(xs, acts, i, j, c, t)
  {
    forall k | i <= k < j && Sized(xs[k]) ensures !Tests(xs[k], acts[k], c, t) {
      UnderWay(xs, acts, i, k, c, t);
    }
  }

  /** These acts can be taken from x and end in y. */
  ghost predicate Leads(x: Sys, acts: seq<Act>, y: Sys)
    decreases acts
  {
    Sized(x) && if acts == [] then y == x else Enabled(x, acts[0]) && Leads(Do(x, acts[0]), acts[1..], y)
  }

  lemma LeadsOne(x: Sys, a: Act)
    requires Sized(x) && Enabled(x, a)
    ensures Leads(x, [a], Do(x, a))
  {
    assert [a][1..] == [];
    assert Leads(Do(x, a), [], Do(x, a));
  }

  lemma {:induction false} LeadsConcat(x: Sys, a: seq<Act>, y: Sys, b: seq<Act>, z: Sys)
    requires Leads(x, a, y) && Leads(y, b, z)
    ensures Leads(x, a + b, z)
    decreases a
  {
    if a == [] {
      assert a + b == b;
    } else {
      assert (a + b)[0] == a[0] && (a + b)[1..] == a[1..] + b;
      LeadsConcat(Do(x, a[0]), a[1..], y, b, z);
    }
  }

  lemma {:induction false} LeadsPath(x: Sys, acts: seq<Act>, y: Sys) returns (xs: seq<Sys>)
    requires Inv(x) && Leads(x, acts, y)
    ensures Path(xs, acts) && xs[0] == x && xs[|acts|] == y
    decreases acts
  {
    if acts == [] {
      xs := [x];
    } else {
      StepInv(x, acts[0]);
      var rest := LeadsPath(Do(x, acts[0]), acts[1..], y);
      xs := [x] + rest;
      forall i | 0 <= i < |acts| ensures Sized(xs[i]) && Enabled(xs[i], acts[i]) && xs[i + 1] == Do(xs[i], acts[i]) {
        if i > 0 { assert xs[i] == rest[i - 1] && acts[i] == acts[1..][i - 1] && xs[i + 1] == rest[i - 1 + 1]; }
      }
    }
  }

  predicate Unmarked(acts: seq<Act>) {
    DeleteMark !in acts
  }

  /** The deletion of t is under way. */
  ghost predicate Deleting(x: Sys, t: nat) {
    Inv(x) && x.deleting == Some(t)
  }

  /** A processor can finish with t while its deletion is under way. */
  lemma Finish(x: Sys, c: nat, t: nat) returns (acts: seq<Act>, y: Sys)
    requires Deleting(x, t) && c < CORES && x.release[c] != Tested(t)
    ensures Leads(x, acts, y) && Unmarked(acts) && Deleting(y, t) && Left(y, c, t) == 0
    ensures forall d :: 0 <= d < CORES && d != c ==> y.ctx[d] == x.ctx[d] && y.release[d] == x.release[d]
  {
    if x.ctx[c] == Some(t) {
      var x1 := Do(x, Save(c));
      StepInv(x, Save(c));
      LeadsOne(x, Save(c));
      y := FinishTest(x1, c, t);
      acts := [Save(c)] + [Test(c)];
      LeadsConcat(x, [Save(c)], x1, [Test(c)], y);
    } else if x.release[c] == Outgoing(t) {
      y := FinishTest(x, c, t);
      acts := [Test(c)];
    } else {
      acts, y := [], x;
    }
  }

  lemma FinishTest(x: Sys, c: nat, t: nat) returns (y: Sys)
    requires Deleting(x, t) && c < CORES && x.release[c] == Outgoing(t) && x.ctx[c].None?
    ensures Leads(x, [Test(c)], y) && Deleting(y, t) && Left(y, c, t) == 0
    ensures forall d :: 0 <= d < CORES && d != c ==> y.ctx[d] == x.ctx[d] && y.release[d] == x.release[d]
  {
    assert BlockOk(x, t);
    StepInv(x, Test(c));
    LeadsOne(x, Test(c));
    y := Do(x, Test(c));
  }

  /** Both processors finish, and the mark comes too late. */
  lemma BothFinish(x: Sys, t: nat) returns (acts: seq<Act>, z: Sys)
    requires Deleting(x, t) && x.release[0] != Tested(t) && x.release[1] != Tested(t)
    ensures Leads(x, acts + [DeleteMark], z) && Unmarked(acts) && Lost(z, t)
  {
    var a, y := Finish(x, 0, t);
    var b, y' := Finish(y, 1, t);
    LeadsConcat(x, a, y, b, y');
    acts, z := a + b, Do(y', DeleteMark);
    LeadsOne(y', DeleteMark);
    LeadsConcat(x, acts, y', [DeleteMark], z);
  }

  lemma LoseIt(x: Sys, t: nat)
    requires Inv(x) && Enabled(x, DeleteSeen(t)) && Tested(t) !in x.release
    ensures exists xs: seq<Sys>, acts: seq<Act> :: LosingCall(xs, acts, x, t)
  {
    var x1 := Do(x, DeleteSeen(t));
    StepInv(x, DeleteSeen(t));
    assert x.release[0] in x.release && x.release[1] in x.release;
    var mid, z := BothFinish(x1, t);
    LeadsOne(x, DeleteSeen(t));
    LeadsConcat(x, [DeleteSeen(t)], x1, mid + [DeleteMark], z);
    Called(x, t, mid, z);
  }

  lemma Called(x: Sys, t: nat, mid: seq<Act>, z: Sys)
    requires Inv(x) && Current(x, t) && Unmarked(mid) && Lost(z, t)
    requires Leads(x, [DeleteSeen(t)] + (mid + [DeleteMark]), z)
    ensures exists xs: seq<Sys>, acts: seq<Act> :: LosingCall(xs, acts, x, t)
  {
    var acts := [DeleteSeen(t)] + (mid + [DeleteMark]);
    var xs := LeadsPath(x, acts, z);
    assert acts[|acts| - 1] == DeleteMark;
    forall k | 0 < k < |acts| - 1 ensures acts[k] != DeleteMark { assert acts[k] == mid[k - 1]; }
    assert LosingCall(xs, acts, x, t);
  }

  function LostActs(): seq<Act> {
    [Create(0), Start(0), Publish([Some(0), None]), Install(0), Terminate(0, [None, None]), DeleteSeen(0), Save(0), Test(0), DeleteMark]
  }

  function LostStates(): seq<Sys> {
    var unused, dormant := Tcb(NonExistent, false, true, 0, 0), Tcb(Dormant, false, false, 1, 0);
    [ Sys([None, None], [None, None], [Idle, Idle], [unused], None),
      Sys([None, None], [None, None], [Idle, Idle], [dormant], None),
      Sys([None, None], [None, None], [Idle, Idle], [dormant.(state := Alive)], None),
      Sys([None, None], [Some(0), None], [Idle, Idle], [dormant.(state := Alive)], None),
      Sys([Some(0), None], [Some(0), None], [Idle, Idle], [dormant.(state := Alive)], None),
      Sys([Some(0), None], [None, None], [Idle, Idle], [dormant], None),
      Sys([Some(0), None], [None, None], [Idle, Idle], [dormant], Some(0)),
      Sys([None, None], [None, None], [Outgoing(0), Idle], [dormant], Some(0)),
      Sys([None, None], [None, None], [Idle, Idle], [dormant], Some(0)),
      Sys([None, None], [None, None], [Idle, Idle], [Tcb(NonExistent, true, false, 1, 0)], None) ]
  }

  lemma LostStep(i: nat)
    requires i < |LostActs()|
    ensures var x, a := LostStates()[i], LostActs()[i]; Sized(x) && Enabled(x, a) && Do(x, a) == LostStates()[i + 1]
  {
    var x, a := LostStates()[i], LostActs()[i];
    if i < 3 {
      assert i == 0 || i == 1 || i == 2;
    } else if i < 6 {
      assert i == 3 || i == 4 || i == 5;
    } else {
      assert i == 6 || i == 7 || i == 8;
    }
  }

  /** From power-up: one task runs on processor 0, is terminated by the other processor, and then
      deleted while its dispatcher saves it and tests stkfree between the two halves of the deletion.
      The mark comes too late: nobody will return the block. */
  lemma DeletionCanBeLost()
    ensures Run(LostStates(), LostActs())
    ensures var x := LostStates()[9]; x.tcb[0].stkfree && !OnItsWay(x, 0)
  {
    forall i | 0 <= i < |LostActs()|
      ensures Sized(LostStates()[i]) && Enabled(LostStates()[i], LostActs()[i]) && LostStates()[i + 1] == Do(LostStates()[i], LostActs()[i])
    {
      LostStep(i);
    }
  }

  // ----- The install is two instructions: a deletion can fall between them

  /** latch[c]: the task processor c has loaded from its slot but not yet stored as current. */
  ghost predicate SafeWith(x: Sys, latch: seq<Option<nat>>) {
    && Inv(x) && |latch| == CORES
    && (forall c :: 0 <= c < CORES && latch[c].Some? ==> latch[c].value < |x.tcb| && !x.tcb[latch[c].value].free)
  }

  /** The store keeps the invariant exactly when the loaded block was not freed meanwhile. */
  lemma StoreSafe(x: Sys, latch: seq<Option<nat>>, c: nat)
    requires Inv(x) && |latch| == CORES && c < CORES && latch[c].Some? && latch[c].value < |x.tcb| && x.release[c].Idle?
    ensures Inv(x.(ctx := x.ctx[c := latch[c]])) <==> !x.tcb[latch[c].value].free
  {
    var y, t := x.(ctx := x.ctx[c := latch[c]]), latch[c].value;
    assert BlockOk(x, t);
    if !x.tcb[t].free {
      forall u | 0 <= u < |y.tcb| ensures BlockOk(y, u) { assert BlockOk(x, u); }
    } else {
      assert Current(y, t) && !BlockOk(y, t);
    }
  }

  /** A deletion of a task that is not current keeps loaded blocks off the free list exactly when the
      task is not loaded; the other steps always do, but for a reclamation of a loaded task. */
  lemma DeleteSafe(x: Sys, latch: seq<Option<nat>>, a: Act)
    requires SafeWith(x, latch) && Enabled(x, a)
    ensures SafeWith(Do(x, a), latch) <==>
      !(a.Delete? && Some(a.t) in latch)
      && !(a.Reclaim? && x.tcb[x.release[a.c].t].stkfree && !Current(x, x.release[a.c].t) && Some(x.release[a.c].t) in latch)
  {
    StepInv(x, a);
    var y := Do(x, a);
    assert latch == [latch[0], latch[1]];
    forall c | 0 <= c < CORES && latch[c].Some? ensures BlockOk(x, latch[c].value) {}
  }

  function LoadedActs(): seq<Act> {
    [Create(0), Start(0), Publish([None, Some(0)]), Terminate(0, [None, None]), Delete(0)]
  }

  function LoadedStates(): seq<Sys> {
    var unused, dormant := Tcb(NonExistent, false, true, 0, 0), Tcb(Dormant, false, false, 1, 0);
    [ Sys([None, None], [None, None], [Idle, Idle], [unused], None),
      Sys([None, None], [None, None], [Idle, Idle], [dormant], None),
      Sys([None, None], [None, None], [Idle, Idle], [dormant.(state := Alive)], None),
      Sys([None, None], [None, Some(0)], [Idle, Idle], [dormant.(state := Alive)], None),
      Sys([None, None], [None, None], [Idle, Idle], [dormant], None),
      Sys([None, None], [None, None], [Idle, Idle], [Tcb(NonExistent, false, true, 1, 1)], None) ]
  }

  lemma LoadedStep(i: nat)
    requires i < |LoadedActs()|
    ensures var x, a := LoadedStates()[i], LoadedActs()[i]; Sized(x) && Enabled(x, a) && Do(x, a) == LoadedStates()[i + 1]
  {
    if i < 3 { assert i == 0 || i == 1 || i == 2; } else { assert i == 3 || i == 4; }
  }

  /** From power-up: the task is published to processor 1, which loads it (after the third act);
      processor 0 terminates and deletes it, and its stack is freed; then processor 1 stores it as
      its current task. */
  lemma DeletedWhileLoaded()
    ensures Run(LoadedStates(), LoadedActs())
    ensures var x := LoadedStates()[3]; x.ctx[1].None? && x.pub[1] == Some(0)
    ensures var y := LoadedStates()[5]; y.tcb[0].free && !Inv(y.(ctx := y.ctx[1 := Some(0)]))
  {
    forall i | 0 <= i < |LoadedActs()|
      ensures Sized(LoadedStates()[i]) && Enabled(LoadedStates()[i], LoadedActs()[i]) &&
          LoadedStates()[i + 1] == Do(LoadedStates()[i], LoadedActs()[i])
    {
      LoadedStep(i);
    }
    RunInv(LoadedStates(), LoadedActs(), 5);
    StoreSafe(LoadedStates()[5], [None, Some(0)], 1);
  }

  /** A block taken by tk_cre_tsk is current and published nowhere. */
  lemma CreatedIsUnheld(x: Sys, t: nat)
    requires Inv(x) && Enabled(x, Create(t))
    ensures !Current(x, t) && Some(t) !in x.pub
  {
    assert BlockOk(x, t);
    assert x.pub == [x.pub[0], x.pub[1]];
  }
}
