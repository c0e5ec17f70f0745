/** When a falling priority comes back to where it started: deletion of a mutex and
    termination of a task inside a deadlock (kernel/tkernel/mutex.c, task_manage.c). */
module MutexRounds {
  import opened Options
  import opened Lists
  import opened MutexState

  // ----- The condition, on the tables before the priorities start to fall

  /** Nothing but task w holds u at its priority. */
  ghost predicate Loose(T: seq<Tcb>, M: seq<Mtx>, u: nat, w: nat) {
    && u < |T| && !OwnSource(T, M, NoPledge, u, T[u].pri)
    && (forall v: nat :: Feeds(T, M, v, u) && T[v].pri == T[u].pri ==> v == w)
  }

  /** Something other than task w asks more of u than 'low'. */
  ghost predicate AskedBelow(T: seq<Tcb>, M: seq<Mtx>, u: nat, w: nat, low: int) {
    && u < |T|
    && ((exists p: int :: p < low && OwnSource(T, M, NoPledge, u, p)) || (exists v: nat :: Feeds(T, M, v, u) && v != w && T[v].pri < low))
  }

  /** A fall of w reaches u and takes u along. x names what the call has taken apart:
      waiters of that mutex, and that task, pass nothing on in the ordinary way. */
  ghost predicate Link(T: seq<Tcb>, M: seq<Mtx>, x: Exempt, w: nat, u: nat) {
    Blocks(T, M, w, u) && x.mutex != Some(T[w].status.m) && x.task != Some(w) && Loose(T, M, u, w)
  }

  ghost predicate Chain(T: seq<Tcb>, M: seq<Mtx>, x: Exempt, path: seq<nat>) {
    && Distinct(path) && Within(path, |T|)
    && (forall i: nat :: i + 1 < |path| ==> Link(T, M, x, path[i], path[i + 1]))
  }

  /** Somebody further down the path is asked for more than the new priority of its start. */
  ghost predicate Sinks(T: seq<Tcb>, M: seq<Mtx>, path: seq<nat>, low: int) {
    exists i: nat :: SinksAt(T, M, path, low, i)
  }

  ghost predicate SinksAt(T: seq<Tcb>, M: seq<Mtx>, path: seq<nat>, low: int, i: nat) {
    i + 1 < |path| && AskedBelow(T, M, path[i + 1], path[i], low)
  }

  /** Waiting for an inheritance mutex. */
  predicate Inherits(T: seq<Tcb>, M: seq<Mtx>, w: nat)
    ensures Inherits(T, M, w) ==> w < |T| && T[w].status.WaitMutex?
  {
    w < |T| && T[w].status.WaitMutex? && T[w].status.m < |M| && M[T[w].status.m].proto == Inherit
  }

  /** The fall of 'start' to 'low' follows this path and comes back: to the task x names,
      or, with a higher priority than 'low', to a waiter of the mutex x names. */
  ghost predicate Round(T: seq<Tcb>, M: seq<Mtx>, x: Exempt, start: nat, low: int, path: seq<nat>) {
    && path != [] && path[0] == start && Chain(T, M, x, path) && T[start].pri < low
    && var last := path[|path| - 1];
    && Inherits(T, M, last)
    && (x.task == Some(last) || (x.mutex == Some(T[last].status.m) && Sinks(T, M, path, low)))
  }

  // ----- A fall under way

  /** Tables and exemption when the fall began, its first task and that task's new
      priority, and the tasks that fell so far. */
  datatype Fall = Fall(T: seq<Tcb>, M: seq<Mtx>, x: Exempt, start: nat, low: int, path: seq<nat>)

  const NO_FALL := Fall([], [], WHOLE, 0, 0, [])

  ghost predicate Returns(f: Fall, t: nat) {
    exists path: seq<nat> :: f.path + [t] <= path && Round(f.T, f.M, f.x, f.start, f.low, path)
  }

  function Grown(f: Fall, t: nat): Fall {
    f.(path := f.path + [t])
  }

  /** Tables that differ from those at the start only by the fallen tasks. */
  ghost predicate Fallen(f: Fall, T: seq<Tcb>, M: seq<Mtx>) {
    && f.start < |T| == |f.T| && |M| == |f.M|
    && Balanced(f.T, f.M, NoPledge, {f.start})
    && (forall u :: 0 <= u < |T| ==> T[u] == f.T[u].(pri := T[u].pri))
    && (forall u: nat :: u < |T| && u !in f.path ==> T[u].pri == f.T[u].pri)
    && (forall u: nat :: u in f.path ==> u < |T| && f.T[u].pri == f.T[f.start].pri < T[u].pri)
    && (forall m :: 0 <= m < |M| ==> M[m] == f.M[m].(queue := M[m].queue))
    && (forall m, w :: 0 <= m < |M| ==> (w in M[m].queue <==> w in f.M[m].queue))
  }

  /** The path walked so far, and the last priority on it. */
  ghost predicate Walked(f: Fall, T: seq<Tcb>) {
    && |T| == |f.T|
    && Chain(f.T, f.M, f.x, f.path)
    && (f.path != [] ==>
      var last := f.path[|f.path| - 1];
      && f.path[0] == f.start && last < |T| && f.start < |T| && f.T[f.start].pri < f.low && T[f.start].pri == f.low
      && (T[last].pri < f.low <==> Sinks(f.T, f.M, f.path, f.low)))
  }

  /** t is next: it is the first, or its predecessor on the path waits for it. */
  ghost predicate Next(f: Fall, t: nat) {
    && t !in f.path && t < |f.T|
    && (f.path == [] ==> t == f.start)
    && (f.path != [] ==>
      var w := f.path[|f.path| - 1];
      Blocks(f.T, f.M, w, t) && f.x.mutex != Some(f.T[w].status.m) && f.x.task != Some(w))
  }

  /** The fall has arrived at t, whose priority is still the old one. */
  ghost predicate Arriving(f: Fall, T: seq<Tcb>, M: seq<Mtx>, x: Exempt, t: nat) {
    && x == f.x && Fallen(f, T, M) && Walked(f, T) && Next(f, t)
    && (f.path == [] ==> Effective(f.T, f.M, NoPledge, t, f.low))
    && f.T[f.start].pri == T[t].pri
  }

  /** The fall will take t down to p. */
  ghost predicate Falling(f: Fall, T: seq<Tcb>, M: seq<Mtx>, x: Exempt, t: nat, p: int) {
    && Arriving(f, T, M, x, t) && T[t].pri < p
    && (f.path != [] ==> Link(f.T, f.M, f.x, f.path[|f.path| - 1], t))
    && (f.path == [] ==> p == f.low)
    && (p < f.low <==> Sinks(f.T, f.M, f.path + [t], f.low))
  }

  /** A longer chain goes on with a link. */
  lemma Onward(T: seq<Tcb>, M: seq<Mtx>, x: Exempt, path: seq<nat>, before: seq<nat>, t: nat) returns (u: nat)
    requires before + [t] <= path && Chain(T, M, x, path) && path != before + [t]
    ensures Link(T, M, x, t, u) && before + [t] + [u] <= path
  {
    var k := |before|;
    assert path[k] == t;
    assert Link(T, M, x, path[k], path[k + 1]);
    u := path[k + 1];
  }

  lemma LinkInto(T: seq<Tcb>, M: seq<Mtx>, x: Exempt, path: seq<nat>, before: seq<nat>, t: nat)
    requires before != [] && before + [t] <= path && Chain(T, M, x, path)
    ensures Link(T, M, x, before[|before| - 1], t)
  {
    var k: nat := |before| - 1;
    assert path[k] == before[k] && path[k + 1] == t;
    assert Link(T, M, x, path[k], path[k + 1]);
  }

  lemma BlocksOne(T: seq<Tcb>, M: seq<Mtx>, w: nat, o: nat, u: nat)
    requires Blocks(T, M, w, o) && Blocks(T, M, w, u)
    ensures o == u
  {
  }

  /** Who feeds a task, blocks on it. */
  lemma FeedsBlocks(T: seq<Tcb>, M: seq<Mtx>, x: Exempt, v: nat, u: nat)
    requires Wf(T, M, x) && Feeds(T, M, v, u)
    ensures Blocks(T, M, v, u)
  {
    assert TaskOk(T, M, x, u);
  }

  /** Who blocks on a task in the ordinary way, feeds it. */
  lemma BlocksFeeds(T: seq<Tcb>, M: seq<Mtx>, x: Exempt, v: nat, u: nat)
    requires Wf(T, M, x) && Blocks(T, M, v, u) && x.mutex != Some(T[v].status.m) && x.task != Some(v)
    ensures Feeds(T, M, v, u)
  {
    assert TaskOk(T, M, x, v) && MutexOk(T, M, x, T[v].status.m);
  }

  lemma SameFeeds(f: Fall, T: seq<Tcb>, M: seq<Mtx>, v: nat, u: nat)
    requires Fallen(f, T, M)
    ensures Feeds(T, M, v, u) <==> Feeds(f.T, f.M, v, u)
    ensures Blocks(T, M, v, u) <==> Blocks(f.T, f.M, v, u)
    ensures u < |T| ==> forall p :: OwnSource(T, M, NoPledge, u, p) <==> OwnSource(f.T, f.M, NoPledge, u, p)
  {
  }

  /** Of those who feed t, only its predecessor on the path has fallen. */
  lemma OthersStand(f: Fall, T: seq<Tcb>, M: seq<Mtx>, x: Exempt, t: nat, v: nat)
    requires Arriving(f, T, M, x, t) && Wf(T, M, x) && Feeds(T, M, v, t)
    ensures v !in f.path || (f.path != [] && v == f.path[|f.path| - 1])
  {
    if v in f.path {
      var i :| 0 <= i < |f.path| && f.path[i] == v;
      if i + 1 < |f.path| {
        FeedsBlocks(T, M, x, v, t);
        SameFeeds(f, T, M, v, t);
        assert Link(f.T, f.M, f.x, f.path[i], f.path[i + 1]);
        BlocksOne(f.T, f.M, v, t, f.path[i + 1]);
      }
    }
  }

  /** A donated priority comes from somebody who feeds the task. */
  lemma Donor(T: seq<Tcb>, M: seq<Mtx>, x: Exempt, u: nat, p: int) returns (v: nat)
    requires Wf(T, M, x) && u < |T| && DonatedSource(T, M, u, p)
    ensures Feeds(T, M, v, u) && T[v].pri == p
  {
    var m: nat, w: nat :| m in T[u].held && m < |M| && M[m].proto == Inherit && w in M[m].queue && w < |T| && p == T[w].pri;
    assert MutexOk(T, M, x, m);
    v := w;
  }

  lemma FedBound(T: seq<Tcb>, M: seq<Mtx>, v: nat, u: nat, p: int)
    requires Feeds(T, M, v, u) && AtMost(T, M, NoPledge, u, p)
    ensures p <= T[v].pri
  {
  }

  /** A task the fall reaches is taken along exactly when nothing else holds it up. */
  lemma ArriveLoose(f: Fall, T: seq<Tcb>, M: seq<Mtx>, x: Exempt, t: nat, q: int)
    requires Arriving(f, T, M, x, t) && Wf(T, M, x) && f.path != [] && Effective(T, M, NoPledge, t, q) && T[t].pri <= q
    ensures q != T[t].pri <==> Loose(f.T, f.M, t, f.path[|f.path| - 1])
  {
    var w := f.path[|f.path| - 1];
    SameFeeds(f, T, M, w, t);
    assert w in f.path;
    if q == T[t].pri {
      if DonatedSource(T, M, t, q) {
        var v := Donor(T, M, x, t, q);
        SameFeeds(f, T, M, v, t);
        assert v !in f.path;
      }
    } else {
      forall v: nat | Feeds(f.T, f.M, v, t) && f.T[v].pri == f.T[t].pri ensures v == w {
        SameFeeds(f, T, M, v, t);
        OthersStand(f, T, M, x, t, v);
        FedBound(T, M, v, t, q);
      }
    }
  }

  /** The new priority of the task reached is below 'low' exactly when the longer path sinks. */
  lemma ArriveSinks(f: Fall, T: seq<Tcb>, M: seq<Mtx>, x: Exempt, t: nat, q: int)
    requires Arriving(f, T, M, x, t) && Wf(T, M, x) && f.path != [] && Effective(T, M, NoPledge, t, q)
    ensures q < f.low <==> Sinks(f.T, f.M, f.path + [t], f.low)
  {
    var w := f.path[|f.path| - 1];
    var longer := f.path + [t];
    SameFeeds(f, T, M, w, t);
    BlocksFeeds(T, M, x, w, t);
    FedBound(T, M, w, t, q);
    if q < f.low {
      if OwnSource(T, M, NoPledge, t, q) {
        assert AskedBelow(f.T, f.M, t, w, f.low);
      } else {
        var v := Donor(T, M, x, t, q);
        OthersStand(f, T, M, x, t, v);
        SameFeeds(f, T, M, v, t);
        if v != w { assert AskedBelow(f.T, f.M, t, w, f.low); }
      }
      SinksLonger(f, t);
    }
    if AskedBelow(f.T, f.M, t, w, f.low) {
      if p: int :| p < f.low && OwnSource(f.T, f.M, NoPledge, t, p) {
        assert OwnSource(T, M, NoPledge, t, p);
      } else {
        var v: nat :| Feeds(f.T, f.M, v, t) && v != w && f.T[v].pri < f.low;
        SameFeeds(f, T, M, v, t);
        OthersStand(f, T, M, x, t, v);
        FedBound(T, M, v, t, q);
      }
    }
    SinksLonger(f, t);
  }

  lemma SinksLonger(f: Fall, t: nat)
    requires f.path != []
    ensures Sinks(f.T, f.M, f.path + [t], f.low) <==> Sinks(f.T, f.M, f.path, f.low) || AskedBelow(f.T, f.M, t, f.path[|f.path| - 1], f.low)
  {
    var longer := f.path + [t];
    var k: nat := |f.path| - 1;
    assert longer[k] == f.path[k] && longer[k + 1] == t;
    forall i: nat ensures SinksAt(f.T, f.M, longer, f.low, i) <==>
      SinksAt(f.T, f.M, f.path, f.low, i) || (i == k && AskedBelow(f.T, f.M, t, f.path[k], f.low)) {
      if i < k { assert longer[i] == f.path[i] && longer[i + 1] == f.path[i + 1]; }
    }
    SinksEither(f.T, f.M, f.path, longer, f.low, k, AskedBelow(f.T, f.M, t, f.path[k], f.low));
  }

  lemma SinksEither(T: seq<Tcb>, M: seq<Mtx>, path: seq<nat>, longer: seq<nat>, low: int, k: nat, more: bool)
    requires forall i: nat :: SinksAt(T, M, longer, low, i) <==> SinksAt(T, M, path, low, i) || (i == k && more)
    ensures Sinks(T, M, longer, low) <==> Sinks(T, M, path, low) || more
  {
    if Sinks(T, M, path, low) {
      var i: nat :| SinksAt(T, M, path, low, i);
      assert SinksAt(T, M, longer, low, i);
    }
    if more { assert SinksAt(T, M, longer, low, k); }
  }

  /** t falls. */
  lemma ArriveFalls(f: Fall, T: seq<Tcb>, M: seq<Mtx>, x: Exempt, t: nat, q: int)
    requires Arriving(f, T, M, x, t) && Wf(T, M, x) && Effective(T, M, NoPledge, t, q) && T[t].pri < q
    ensures Falling(f, T, M, x, t, q)
  {
    if f.path == [] {
      SameStart(f, T, M, x, t, q);
      EffectiveUnique(T, M, NoPledge, t, q, f.low);
    } else {
      ArriveLoose(f, T, M, x, t, q);
      ArriveSinks(f, T, M, x, t, q);
    }
  }

  lemma SameStart(f: Fall, T: seq<Tcb>, M: seq<Mtx>, x: Exempt, t: nat, q: int)
    requires Arriving(f, T, M, x, t) && Wf(T, M, x) && f.path == []
    ensures Effective(T, M, NoPledge, t, f.low)
  {
    SameFeeds(f, T, M, t, t);
    if DonatedSource(f.T, f.M, t, f.low) {
      var m: nat, w: nat :| m in f.T[t].held && m < |f.M| && f.M[m].proto == Inherit && w in f.M[m].queue && w < |f.T| && f.low == f.T[w].pri;
      assert m in T[t].held && w in M[m].queue && T[w].pri == f.low;
    }
  }

  /** t stays: the fall ends here. */
  lemma ArriveStays(f: Fall, T: seq<Tcb>, M: seq<Mtx>, x: Exempt, t: nat)
    requires Arriving(f, T, M, x, t) && Wf(T, M, x) && Effective(T, M, NoPledge, t, T[t].pri)
    ensures !Returns(f, t)
  {
    if f.path == [] {
      SameStart(f, T, M, x, t, T[t].pri);
      EffectiveUnique(T, M, NoPledge, t, T[t].pri, f.low);
    } else {
      ArriveLoose(f, T, M, x, t, T[t].pri);
      forall path: seq<nat> | f.path + [t] <= path && Chain(f.T, f.M, f.x, path) ensures false {
        LinkInto(f.T, f.M, f.x, path, f.path, t);
      }
    }
  }

  lemma ChainGrows(T: seq<Tcb>, M: seq<Mtx>, x: Exempt, path: seq<nat>, t: nat)
    requires Chain(T, M, x, path) && t !in path && t < |T| && (path != [] ==> Link(T, M, x, path[|path| - 1], t))
    ensures Chain(T, M, x, path + [t])
  {
    var longer := path + [t];
    forall i: nat | i + 1 < |longer| ensures Link(T, M, x, longer[i], longer[i + 1]) {
      if i + 1 < |path| { assert Link(T, M, x, path[i], path[i + 1]); }
    }
  }

  /** After the change of t the fall is one task longer. */
  lemma FallGrows(f: Fall, T: seq<Tcb>, M: seq<Mtx>, x: Exempt, t: nat, p: int, T': seq<Tcb>, M': seq<Mtx>)
    requires Falling(f, T, M, x, t, p) && Wf(T, M, x) && x.task != Some(t) && RepriStep(T, M, t, p, T', M')
    ensures Fallen(Grown(f, t), T', M') && Walked(Grown(f, t), T')
  {
    ChainGrows(f.T, f.M, f.x, f.path, t);
    RepriMembers(T, M, x, t, p, T', M');
    FallenGrows(f, T, M, t, p, T', M');
    WalkedGrows(f, T, M, x, t, p, T');
  }

  lemma FallenGrows(f: Fall, T: seq<Tcb>, M: seq<Mtx>, t: nat, p: int, T': seq<Tcb>, M': seq<Mtx>)
    requires Fallen(f, T, M) && t < |T| && t !in f.path && f.T[f.start].pri == T[t].pri < p && T' == T[t := T[t].(pri := p)]
    requires |M'| == |M| && forall m :: 0 <= m < |M| ==> M'[m] == M[m].(queue := M'[m].queue)
    requires forall m, w :: 0 <= m < |M| ==> (w in M'[m].queue <==> w in M[m].queue)
    ensures Fallen(Grown(f, t), T', M')
  {
    var g := Grown(f, t);
    assert forall u :: u in g.path <==> u in f.path || u == t;
    forall u | 0 <= u < |T'| ensures T'[u] == f.T[u].(pri := T'[u].pri) { assert T[u] == f.T[u].(pri := T[u].pri); }
    forall m | 0 <= m < |M'| ensures M'[m] == f.M[m].(queue := M'[m].queue) { assert M[m] == f.M[m].(queue := M[m].queue); }
  }

  lemma WalkedGrows(f: Fall, T: seq<Tcb>, M: seq<Mtx>, x: Exempt, t: nat, p: int, T': seq<Tcb>)
    requires Falling(f, T, M, x, t, p) && T' == T[t := T[t].(pri := p)] && Chain(f.T, f.M, f.x, f.path + [t])
    ensures Walked(Grown(f, t), T')
  {
    var path := f.path + [t];
    assert path[|path| - 1] == t;
    if f.path != [] { assert path[0] == f.path[0] && f.path[0] in f.path; }
  }

  /** No path goes on from a task that passes nothing on. */
  lemma EndsHere(f: Fall, t: nat)
    requires t < |f.T|
    requires !Inherits(f.T, f.M, t)
    ensures !Returns(f, t)
  {
    forall path: seq<nat> | f.path + [t] <= path && Round(f.T, f.M, f.x, f.start, f.low, path) ensures false {
      if path != f.path + [t] { var u := Onward(f.T, f.M, f.x, path, f.path, t); }
    }
  }

  /** The fall reaches the task x names. */
  lemma TaskReached(f: Fall, T: seq<Tcb>, M: seq<Mtx>, x: Exempt, t: nat, p: int)
    requires Falling(f, T, M, x, t, p) && x.task == Some(t) && Inherits(T, M, t)
    ensures Returns(f, t)
  {
    ChainGrows(f.T, f.M, f.x, f.path, t);
    var path := f.path + [t];
    assert f.path != [] ==> path[0] == f.path[0];
    assert Round(f.T, f.M, f.x, f.start, f.low, path);
  }

  /** The fall reaches a waiter of the mutex x names. */
  lemma WaiterReached(f: Fall, T: seq<Tcb>, M: seq<Mtx>, x: Exempt, t: nat, p: int)
    requires Falling(f, T, M, x, t, p) && Inherits(T, M, t) && x.mutex == Some(T[t].status.m) && x.task.None?
    ensures Returns(f, t) <==> p < f.low
  {
    ChainGrows(f.T, f.M, f.x, f.path, t);
    var path := f.path + [t];
    assert f.path != [] ==> path[0] == f.path[0];
    if p < f.low {
      assert Round(f.T, f.M, f.x, f.start, f.low, path);
    }
    forall other: seq<nat> | path <= other && Round(f.T, f.M, f.x, f.start, f.low, other) ensures p < f.low {
      if other != path { var u := Onward(f.T, f.M, f.x, other, f.path, t); }
    }
  }

  /** A task that passes its fall on to o in the ordinary way. */
  ghost predicate PassesTo(T: seq<Tcb>, M: seq<Mtx>, x: Exempt, t: nat, o: nat) {
    Blocks(T, M, t, o) && x.mutex != Some(T[t].status.m) && x.task != Some(t)
  }

  /** The fall goes on to o or nowhere. */
  lemma GoesOn(f: Fall, t: nat, o: nat)
    requires PassesTo(f.T, f.M, f.x, t, o)
    ensures Returns(f, t) <==> Returns(Grown(f, t), o)
  {
    var g := Grown(f, t);
    if Returns(g, o) {
      var path: seq<nat> :| g.path + [o] <= path && Round(f.T, f.M, f.x, f.start, f.low, path);
      assert f.path + [t] <= path;
    }
    if Returns(f, t) {
      var path: seq<nat> :| f.path + [t] <= path && Round(f.T, f.M, f.x, f.start, f.low, path);
      var u := Onward(f.T, f.M, f.x, path, f.path, t);
      BlocksOne(f.T, f.M, t, o, u);
    }
  }

  /** A holder whose priority is not the old one is not taken along. */
  lemma HolderAside(g: Fall, T: seq<Tcb>, M: seq<Mtx>, t: nat, o: nat)
    requires Fallen(g, T, M) && Walked(g, T) && Wf(T, M, g.x) && g.path != [] && g.path[|g.path| - 1] == t && o < |T|
    requires T[o].pri != g.T[g.start].pri
    ensures !Returns(g, o)
  {
    assert t in g.path && g.path[0] in g.path;
    forall path: seq<nat> | g.path + [o] <= path && Chain(g.T, g.M, g.x, path) ensures false {
      LinkInto(g.T, g.M, g.x, path, g.path, o);
      NotOnPath(path, g.path, o);
      LooseSame(g, T, M, o, t);
    }
  }

  lemma NotOnPath(path: seq<nat>, before: seq<nat>, o: nat)
    requires Distinct(path) && before + [o] <= path
    ensures o !in before
  {
    assert path[|before|] == o;
    forall i | 0 <= i < |before| ensures before[i] != o { assert path[i] == before[i]; }
  }

  /** A balanced task that only w holds up has w's priority. */
  lemma LooseSame(f: Fall, T: seq<Tcb>, M: seq<Mtx>, u: nat, w: nat)
    requires Fallen(f, T, M) && Wf(T, M, f.x) && u < |T| && u != f.start && Loose(f.T, f.M, u, w)
    ensures w < |T| && f.T[w].pri == f.T[u].pri
  {
    assert Effective(f.T, f.M, NoPledge, u, f.T[u].pri);
    var m: nat, v: nat :| m in f.T[u].held && m < |f.M| && f.M[m].proto == Inherit && v in f.M[m].queue && v < |f.T| && f.T[u].pri == f.T[v].pri;
    assert MutexOk(T, M, f.x, m) && v in M[m].queue;
    assert T[v] == f.T[v].(pri := T[v].pri);
    assert Feeds(f.T, f.M, v, u);
  }
}
