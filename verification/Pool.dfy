/** A variable memory pool: the allocator with a queue of waiting tasks
    (kernel/tkernel/mempool.c:190-216, 374-495). */
module MemoryPool {
  import opened WaitLine
  import opened Options
  import opened HeapSpec
  import opened HeapLinks
  import opened HeapTheory
  import opened HeapKernel

  /** A task and the block size it waits for. */
  type Asker = Waiter<int>

  /** A block handed to a waiting task. */
  datatype Grant = Grant(task: nat, blk: int)

  datatype Ercd = E_OK | E_PAR | E_TMOUT

  /** The areas the granted blocks are, given their sizes. */
  function Blocks(gs: seq<Grant>, sizes: seq<int>): multiset<Block>
    requires |gs| == |sizes|
  {
    if gs == [] then multiset{} else Blocks(gs[..|gs| - 1], sizes[..|gs| - 1]) + multiset{(gs[|gs| - 1].blk, sizes[|gs| - 1])}
  }

  lemma BlocksSnoc(gs: seq<Grant>, sizes: seq<int>, g: Grant, size: int)
    requires |gs| == |sizes|
    ensures Blocks(gs + [g], sizes + [size]) == Blocks(gs, sizes) + multiset{(g.blk, size)}
  {
    assert (gs + [g])[..|gs|] == gs && (sizes + [size])[..|gs|] == sizes;
  }

  /** The grants serve the first waiters of q, each with room enough. */
  ghost predicate Serve(gs: seq<Grant>, sizes: seq<int>, q: seq<Asker>) {
    && |gs| == |sizes| && |gs| <= |q|
    && forall i :: 0 <= i < |gs| ==> gs[i].task == q[i].task && q[i].want <= sizes[i] < q[i].want + MIN_FRAGMENT + UNIT
  }

  /** gs served the beginning of q0, w is the rest, and the blocks in use grew from u0 by the grants. */
  ghost predicate Serving(gs: seq<Grant>, sizes: seq<int>, q0: seq<Asker>, u0: multiset<Block>, w: seq<Asker>, used: multiset<Block>) {
    Serve(gs, sizes, q0) && w == q0[|gs|..] && used == u0 + Blocks(gs, sizes)
  }

  lemma ServingStep(gs: seq<Grant>, sizes: seq<int>, q0: seq<Asker>, u0: multiset<Block>, w: seq<Asker>, used: multiset<Block>, g: Grant, size: int)
    requires Serve(gs, sizes, q0) && w == q0[|gs|..] && w != [] && used == u0 + (Blocks(gs, sizes) + multiset{(g.blk, size)})
    requires g.task == w[0].task && w[0].want <= size < w[0].want + MIN_FRAGMENT + UNIT
    ensures Serving(gs + [g], sizes + [size], q0, u0, w[1..], used)
  {
    BlocksSnoc(gs, sizes, g, size);
    assert w[0] == q0[|gs|] && w[1..] == q0[|gs| + 1..];
  }

  predicate RequestsOk(q: seq<Asker>) {
    forall i :: 0 <= i < |q| ==> q[i].want >= MIN_FRAGMENT && Aligned(q[i].want)
  }

  lemma QueuedOk(q: seq<Asker>, w: Asker, tpri: bool)
    ensures RequestsOk(q) && RequestsOk([w]) ==> RequestsOk(Queued(q, w, tpri))
    ensures tpri && ByPriority(q) ==> ByPriority(Queued(q, w, tpri))
  {
    assert RequestsOk([w]) ==> [w][0].want >= MIN_FRAGMENT;
    if tpri && ByPriority(q) { QueuedByPriority(q, w); }
  }

  /** knl_MaxFreeSize. */
  function MaxFree(gs: seq<Group>): int {
    if gs == [] then 0 else gs[|gs| - 1].size
  }

  /** It is the size of the largest free area, or 0. */
  lemma MaxFreeIsLargest(gs: seq<Group>, b: int)
    requires Sorted(gs) && b > 0
    ensures b > MaxFree(gs) <==> forall x :: x in Listed(gs) ==> x.1 < b
  {
    if b > MaxFree(gs) {
      forall x | x in Listed(gs) ensures x.1 < b { ListedMember(gs, x); }
    }
    if gs != [] { HeadListed(gs, |gs| - 1); }
  }

  /** Handing out a block leaves no larger free area than before. */
  lemma AllocatedNoLarger(ss: seq<Span>, i: nat, size: int, b: int)
    requires i < |ss| && !ss[i].used && 0 <= size && forall x :: x in Sel(ss, false) ==> x.1 < b
    ensures forall x :: x in Sel(Allocated(ss, i, size), false) ==> x.1 < b
  {
    AllocatedBlocks(ss, i, size);
    SelMember(ss, false, (ss[i].at, ss[i].size));
    forall x | x in Sel(Allocated(ss, i, size), false) ensures x.1 < b {
      assert x in Sel(ss, false) + Rest(ss[i], size);
    }
  }

  class Pool {
    const heap: Heap
    const tpri: bool
    var waitq: seq<Asker>

    ghost predicate Sound()
      reads this, heap
    {
      heap.Valid() && heap.f.bound && RequestsOk(waitq) && (tpri ==> ByPriority(waitq))
    }

    /** No free area is large enough for the first waiter. */
    ghost predicate Valid()
      reads this, heap
    {
      Sound() && (waitq != [] ==> waitq[0].want > MaxFree(heap.freeq))
    }

    constructor (frame: Frame, tp: bool)
      requires Framed(frame) && frame.bound && frame.limit - frame.base >= MIN_FRAGMENT
      ensures Valid() && fresh(heap) && waitq == [] && tpri == tp && heap.spans == [Span(frame.base, frame.limit - frame.base, false)]
    {
      heap := new Heap(frame);
      tpri := tp;
      waitq := [];
    }

    /** knl_mpl_wakeup: serve the first waiter while a free area is large enough for it; the block
        is never missing. */
    method Wakeup() returns (grants: seq<Grant>, ghost sizes: seq<int>)
      requires Sound()
      modifies this, heap
      ensures Valid() && Serve(grants, sizes, old(waitq)) && waitq == old(waitq)[|grants|..]
      ensures Sel(heap.spans, true) == Sel(old(heap.spans), true) + Blocks(grants, sizes)
    {
      grants, sizes := [], [];
      ghost var q0, u0 := waitq, Sel(heap.spans, true);
      while waitq != []
        invariant Sound() && Serving(grants, sizes, q0, u0, waitq, Sel(heap.spans, true))
        decreases |waitq|
      {
        if waitq[0].want > MaxFree(heap.freeq) { break; }
        ghost var w := waitq;
        var g;
        ghost var size;
        g, size := ServeHead(u0, Blocks(grants, sizes));
        ServingStep(grants, sizes, q0, u0, w, Sel(heap.spans, true), g, size);
        grants, sizes := grants + [g], sizes + [size];
      }
    }

    /** The head of the line gets its block. */
    method ServeHead(ghost u0: multiset<Block>, ghost b: multiset<Block>) returns (g: Grant, ghost size: int)
      requires Sound() && waitq != [] && waitq[0].want <= MaxFree(heap.freeq) && Sel(heap.spans, true) == u0 + b
      modifies this`waitq, heap
      ensures Sound() && waitq == old(waitq)[1..]
      ensures g.task == old(waitq)[0].task && old(waitq)[0].want <= size < old(waitq)[0].want + MIN_FRAGMENT + UNIT
      ensures Sel(heap.spans, true) == u0 + (b + multiset{(g.blk, size)})
    {
      var top := waitq[0];
      var blk;
      blk, size := Serviced(top.want, u0, b);
      g := Grant(top.task, blk);
      waitq := waitq[1..];
    }

    lemma Regroup(s: multiset<Block>, u0: multiset<Block>, b: multiset<Block>, x: multiset<Block>, u: multiset<Block>)
      requires u == u0 + b && s == u + x
      ensures s == u0 + (b + x)
    {
    }

    lemma Swap(s: multiset<Block>, u: multiset<Block>, b: multiset<Block>, x: multiset<Block>, u0: multiset<Block>)
      requires s == u + b && u + x == u0
      ensures s + x == u0 + b
    {
    }

    /** A request that passed the test against knl_MaxFreeSize gets its block. */
    method Serviced(blksz: int, ghost u0: multiset<Block>, ghost b: multiset<Block>) returns (blk: int, ghost size: int)
      requires heap.Valid() && Aligned(blksz) && MIN_FRAGMENT <= blksz <= MaxFree(heap.freeq) && Sel(heap.spans, true) == u0 + b
      modifies heap
      ensures heap.Valid() && blksz <= size < blksz + MIN_FRAGMENT + UNIT
      ensures Sel(heap.spans, true) == u0 + (b + multiset{(blk, size)})
    {
      MaxFreeIsLargest(heap.freeq, blksz);
      ghost var ss := heap.spans;
      var r, i := heap.GetBlk(blksz);
      assert r.Some?;
      blk, size := r.value, Taken(ss[i], blksz)[0].size;
      ServicedBlocks(ss, i, blksz, u0, b);
    }

    lemma ServicedBlocks(ss: seq<Span>, i: nat, blksz: int, u0: multiset<Block>, b: multiset<Block>)
      requires i < |ss| && !ss[i].used && Sel(ss, true) == u0 + b
      ensures Sel(Allocated(ss, i, blksz), true) == u0 + (b + multiset{(ss[i].at, Taken(ss[i], blksz)[0].size)})
    {
      AllocatedBlocks(ss, i, blksz);
      Regroup(Sel(Allocated(ss, i, blksz), true), u0, b, multiset{(ss[i].at, Taken(ss[i], blksz)[0].size)}, Sel(ss, true));
    }

    /** tk_get_mpl. */
    method GetMpl(task: nat, pri: int, size: int, poll: bool) returns (r: Ercd, blk: Option<int>, ghost i: nat)
      requires Valid() && size <= INT_MAX
      modifies this, heap
      ensures Valid()
      ensures r == E_PAR <==> size <= 0 || size > MAX_ALLOCATE || Rounded(size) > heap.f.limit - heap.f.base
      ensures r == E_PAR ==> heap.spans == old(heap.spans) && waitq == old(waitq)
      // served when nobody is before this task and some free area is large enough
      ensures r != E_PAR ==>
        (r == E_OK <==> Top(old(waitq), pri, tpri) && exists b :: b in Sel(old(heap.spans), false) && b.1 >= Rounded(size))
      ensures r == E_OK ==>
        && waitq == old(waitq) && i < |old(heap.spans)| && !old(heap.spans)[i].used
        && blk == Some(old(heap.spans)[i].at) && heap.spans == Allocated(old(heap.spans), i, Rounded(size)) &&
            Rounded(size) <= old(heap.spans)[i].size
      ensures r == E_TMOUT ==>
        && blk == None && heap.spans == old(heap.spans)
        && waitq == if poll then old(waitq) else Queued(old(waitq), Waiter(task, pri, Rounded(size)), tpri)
    {
      r, blk, i := E_PAR, None, 0;
      if 0 < size <= MAX_ALLOCATE {
        var blksz := RoundSize(size);
        if blksz <= heap.f.limit - heap.f.base { r, blk, i := GetRounded(task, pri, blksz, poll); }
      }
    }

    /** The part of tk_get_mpl inside the critical section. */
    method GetRounded(task: nat, pri: int, blksz: int, poll: bool) returns (r: Ercd, blk: Option<int>, ghost i: nat)
      requires Valid() && Aligned(blksz) && blksz >= MIN_FRAGMENT
      modifies this, heap
      ensures Valid() && (r == E_OK || r == E_TMOUT)
      ensures r == E_OK <==> Top(old(waitq), pri, tpri) && exists b :: b in Sel(old(heap.spans), false) && b.1 >= blksz
      ensures r == E_OK ==>
        && waitq == old(waitq) && i < |old(heap.spans)| && !old(heap.spans)[i].used
        && blk == Some(old(heap.spans)[i].at) && heap.spans == Allocated(old(heap.spans), i, blksz) && blksz <= old(heap.spans)[i].size
      ensures r == E_TMOUT ==>
        && blk == None && heap.spans == old(heap.spans)
        && waitq == if poll then old(waitq) else Queued(old(waitq), Waiter(task, pri, blksz), tpri)
    {
      r, blk, i := E_OK, None, 0;
      assert [Waiter(task, pri, blksz)][0].want == blksz;
      if Top(waitq, pri, tpri) { blk, i := TryGet(blksz); }
      if blk.None? {
        r := E_TMOUT;
        if !poll { Enqueue(Waiter(task, pri, blksz)); }
      }
    }

    /** A task joins the waiting line, where nobody can be served yet. */
    method Enqueue(w: Asker)
      requires Valid() && RequestsOk([w]) && (Top(waitq, w.pri, tpri) ==> w.want > MaxFree(heap.freeq))
      modifies this`waitq
      ensures Valid() && waitq == Queued(old(waitq), w, tpri)
    {
      QueuedOk(waitq, w, tpri);
      waitq := Insert(waitq, w, tpri);
    }

    /** knl_get_blk for a task nobody is before: the first waiter still cannot be served. */
    method TryGet(blksz: int) returns (blk: Option<int>, ghost i: nat)
      requires Valid() && Aligned(blksz) && blksz >= MIN_FRAGMENT
      modifies heap
      ensures Valid()
      ensures blk.Some? <==> exists b :: b in Sel(old(heap.spans), false) && b.1 >= blksz
      ensures blk.None? ==> heap.spans == old(heap.spans) && blksz > MaxFree(heap.freeq)
      ensures blk.Some? ==>
        && i < |old(heap.spans)| && !old(heap.spans)[i].used && blk.value == old(heap.spans)[i].at
        && heap.spans == Allocated(old(heap.spans), i, blksz) && blksz <= old(heap.spans)[i].size
    {
      ghost var ss := heap.spans;
      if waitq != [] { MaxFreeIsLargest(heap.freeq, waitq[0].want); }
      blk, i := heap.GetBlk(blksz);
      MaxFreeIsLargest(heap.freeq, blksz);
      if waitq != [] {
        if blk.Some? { AllocatedNoLarger(ss, i, blksz, waitq[0].want); }
        MaxFreeIsLargest(heap.freeq, waitq[0].want);
      }
    }

    /** tk_rel_mpl. */
    method RelMpl(blk: int, ghost n: nat) returns (r: Ercd, grants: seq<Grant>, ghost sizes: seq<int>)
      requires Valid()
      requires heap.f.base <= blk <= heap.f.limit ==> n < |heap.spans| && heap.spans[n].at == blk
      modifies this, heap
      ensures Valid()
      ensures r == E_OK <==> heap.f.base <= blk <= heap.f.limit && old(heap.spans)[n].used
      ensures r != E_OK ==> r == E_PAR && heap.spans == old(heap.spans) && waitq == old(waitq)
      ensures r == E_OK ==>
        && Serve(grants, sizes, old(waitq)) && waitq == old(waitq)[|grants|..]
        && Sel(heap.spans, true) + multiset{(blk, old(heap.spans)[n].size)} == Sel(old(heap.spans), true) + Blocks(grants, sizes)
    {
      grants, sizes := [], [];
      if blk < heap.f.base || blk > heap.f.limit { return E_PAR, grants, sizes; }
      ghost var ss := heap.spans;
      var ok := heap.RelBlk(blk, n);
      if !ok { return E_PAR, grants, sizes; }
      FreedBlocks(ss, n);
      ghost var u := Sel(heap.spans, true);
      grants, sizes := Wakeup();
      Swap(Sel(heap.spans, true), u, Blocks(grants, sizes), multiset{(blk, ss[n].size)}, Sel(ss, true));
      r := E_OK;
    }

    /** mpl_rel_wai: the wait of the i-th waiter ended without a block. */
    method RelWai(i: nat) returns (grants: seq<Grant>, ghost sizes: seq<int>)
      requires Valid() && i < |waitq|
      modifies this, heap
      ensures Valid()
      ensures var q := Without(old(waitq), i); Serve(grants, sizes, q) && waitq == q[|grants|..]
      ensures Sel(heap.spans, true) == Sel(old(heap.spans), true) + Blocks(grants, sizes)
    {
      if tpri { WithoutByPriority(waitq, i); }
      waitq := Without(waitq, i);
      grants, sizes := Wakeup();
    }

    /** mpl_chg_pri: the i-th waiter's priority changed. */
    method ChgPri(i: nat, pri: int) returns (grants: seq<Grant>, ghost sizes: seq<int>)
      requires Valid() && tpri && i < |waitq|
      modifies this, heap
      ensures Valid()
      ensures var q := Queued(Without(old(waitq), i), old(waitq)[i].(pri := pri), true); Serve(grants, sizes, q) && waitq == q[|grants|..]
      ensures Sel(heap.spans, true) == Sel(old(heap.spans), true) + Blocks(grants, sizes)
    {
      var w := waitq[i].(pri := pri);
      WithoutByPriority(waitq, i);
      waitq := Without(waitq, i);
      QueuedOk(waitq, w, true);
      waitq := Insert(waitq, w, true);
      grants, sizes := Wakeup();
    }
  }
}
