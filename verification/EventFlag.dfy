/** Event flags: a word of bits and the tasks waiting for patterns of them
    (kernel/tkernel/eventflag.c:130-281, eventflag.h:45-52). A word is the set of the places of its
    one bits: its AND, OR and AND NOT are intersection, union and difference. */
module EventFlags {
  import opened WaitLine

  type Word = set<nat>

  datatype Mode = Mode(orw: bool, clr: bool, bitclr: bool)

  /** What a task waits for. */
  datatype Request = Request(waiptn: Word, mode: Mode)

  type Asker = Waiter<Request>

  /** A released task and the pattern it is told. */
  datatype Release = Release(task: nat, ptn: Word)

  datatype Ercd = E_OK | E_PAR | E_OBJ | E_TMOUT

  /** knl_eventflag_cond. */
  predicate Cond(ptn: Word, waiptn: Word, orw: bool) {
    if orw then ptn * waiptn != {} else ptn * waiptn == waiptn
  }

  /** What a released task leaves of the pattern. */
  function Cleared(ptn: Word, waiptn: Word, mode: Mode): Word {
    if mode.clr then {} else if mode.bitclr then ptn - waiptn else ptn
  }

  /** What the condition asks of the bits: with TWF_ORW one of those waited for, else every one. */
  ghost predicate Meets(ptn: Word, want: Request) {
    if want.mode.orw then exists b :: b in want.waiptn && b in ptn else forall b :: b in want.waiptn ==> b in ptn
  }

  lemma CondMeans(ptn: Word, want: Request)
    ensures Cond(ptn, want.waiptn, want.mode.orw) <==> Meets(ptn, want)
  {
    if want.mode.orw {
      if Meets(ptn, want) {
        var b :| b in want.waiptn && b in ptn;
        assert b in ptn * want.waiptn;
      }
    } else {
      assert forall b :: b in ptn * want.waiptn <==> b in ptn && b in want.waiptn;
    }
  }

  /** What is left of ptn, bit by bit: TWF_CLR takes all, TWF_BITCLR those waited for. */
  ghost predicate Leaves(ptn: Word, want: Request, left: Word) {
    forall b :: b in left <==> b in ptn && !want.mode.clr && !(want.mode.bitclr && b in want.waiptn)
  }

  /** No bit of small is missing in big. */
  predicate Within(small: Word, big: Word) {
    small <= big
  }

  /** Losing bits never makes a condition true. */
  lemma CondShrinks(small: Word, big: Word, waiptn: Word, orw: bool)
    requires Within(small, big) && Cond(small, waiptn, orw)
    ensures Cond(big, waiptn, orw)
  {
  }

  lemma ClearedWithin(ptn: Word, waiptn: Word, mode: Mode)
    ensures Within(Cleared(ptn, waiptn, mode), ptn)
  {
  }

  lemma WithinTransitive(a: Word, b: Word, c: Word)
    requires Within(a, b) && Within(b, c)
    ensures Within(a, c)
  {
  }

  predicate Asking(q: seq<Asker>) {
    forall i :: 0 <= i < |q| ==> q[i].want.waiptn != {}
  }

  /** No waiter's condition holds. */
  ghost predicate NoneSatisfied(q: seq<Asker>, ptn: Word) {
    forall i :: 0 <= i < |q| ==> !Meets(ptn, q[i].want)
  }

  // ----- What one pass over the queue does

  datatype Outcome = Outcome(released: seq<Release>, waiting: seq<Asker>, ptn: Word)

  function Pass(q: seq<Asker>, ptn: Word): Outcome {
    if q == [] then Outcome([], [], ptn)
    else if Cond(ptn, q[0].want.waiptn, q[0].want.mode.orw) then
      (var o := Pass(q[1..], Cleared(ptn, q[0].want.waiptn, q[0].want.mode)); o.(released := [Release(q[0].task, ptn)] + o.released))
    else (var o := Pass(q[1..], ptn); o.(waiting := [q[0]] + o.waiting))
  }

  /** After the pass nobody waits whose condition holds, and only bits were lost. */
  lemma {:induction false} PassLeavesNone(q: seq<Asker>, ptn: Word)
    requires Asking(q)
    ensures var o := Pass(q, ptn); NoneSatisfied(o.waiting, o.ptn) && Asking(o.waiting) && Within(o.ptn, ptn)
  {
    if q != [] {
      if Cond(ptn, q[0].want.waiptn, q[0].want.mode.orw) {
        var p := Cleared(ptn, q[0].want.waiptn, q[0].want.mode);
        PassLeavesNone(q[1..], p);
        ClearedWithin(ptn, q[0].want.waiptn, q[0].want.mode);
        WithinTransitive(Pass(q[1..], p).ptn, p, ptn);
      } else {
        PassLeavesNone(q[1..], ptn);
        var o := Pass(q[1..], ptn);
        CondMeans(o.ptn, q[0].want);
        if Cond(o.ptn, q[0].want.waiptn, q[0].want.mode.orw) { CondShrinks(o.ptn, ptn, q[0].want.waiptn, q[0].want.mode.orw); }
      }
    }
  }

  /** The next waiter is released exactly when its condition holds for what those before it left,
      and it is told that pattern. */
  lemma {:induction false} PassNext(q: seq<Asker>, w: Asker, ptn: Word)
    ensures var o, o' := Pass(q, ptn), Pass(q + [w], ptn);
      if Cond(o.ptn, w.want.waiptn, w.want.mode.orw) then
        o' == Outcome(o.released + [Release(w.task, o.ptn)], o.waiting, Cleared(o.ptn, w.want.waiptn, w.want.mode))
      else o' == Outcome(o.released, o.waiting + [w], o.ptn)
  {
    if q == [] {
      assert q + [w] == [w];
    } else {
      assert (q + [w])[1..] == q[1..] + [w];
      if Cond(ptn, q[0].want.waiptn, q[0].want.mode.orw) {
        var p := Cleared(ptn, q[0].want.waiptn, q[0].want.mode);
        PassNext(q[1..], w, p);
        var o := Pass(q[1..], p);
        assert [Release(q[0].task, ptn)] + (o.released + [Release(w.task, o.ptn)])
               == [Release(q[0].task, ptn)] + o.released + [Release(w.task, o.ptn)];
      } else {
        PassNext(q[1..], w, ptn);
        var o := Pass(q[1..], ptn);
        assert [q[0]] + (o.waiting + [w]) == [q[0]] + o.waiting + [w];
      }
    }
  }

  predicate Holds(a: Asker, ptn: Word) {
    Cond(ptn, a.want.waiptn, a.want.mode.orw)
  }

  /** The part of the line whose condition holds for ptn, or does not, in order. */
  function Split(q: seq<Asker>, ptn: Word, holds: bool): (r: seq<Asker>)
    ensures forall a :: a in r <==> a in q && Holds(a, ptn) == holds
  {
    if q == [] then []
    else
      assert q == [q[0]] + q[1..];
      if Holds(q[0], ptn) == holds then [q[0]] + Split(q[1..], ptn, holds) else Split(q[1..], ptn, holds)
  }

  function Told(q: seq<Asker>, ptn: Word): seq<Release> {
    if q == [] then [] else [Release(q[0].task, ptn)] + Told(q[1..], ptn)
  }

  /** When nobody clears, exactly those whose condition holds are released, in the order of the
      line and all told the same pattern, and the others keep their order. */
  lemma {:induction false} PassWithoutClear(q: seq<Asker>, ptn: Word)
    requires forall k :: 0 <= k < |q| ==> !q[k].want.mode.clr && !q[k].want.mode.bitclr
    ensures Pass(q, ptn) == Outcome(Told(Split(q, ptn, true), ptn), Split(q, ptn, false), ptn)
  {
    if q != [] {
      PassWithoutClear(q[1..], ptn);
    }
  }

  /** With no bit left nobody is released. */
  lemma {:induction false} PassNothing(q: seq<Asker>)
    requires Asking(q)
    ensures Pass(q, {}) == Outcome([], q, {})
  {
    if q != [] {
      PassNothing(q[1..]);
      assert q == [q[0]] + q[1..];
    }
  }

  /** A task that finds the queue with nobody satisfied and takes bits leaves it so. */
  lemma StillNone(q: seq<Asker>, ptn: Word, less: Word)
    requires NoneSatisfied(q, ptn) && Within(less, ptn)
    ensures NoneSatisfied(q, less)
  {
    forall i | 0 <= i < |q| ensures !Meets(less, q[i].want) {
      CondMeans(less, q[i].want);
      CondMeans(ptn, q[i].want);
      var want := q[i].want;
      if Meets(less, want) { CondShrinks(less, ptn, want.waiptn, want.mode.orw); }
    }
  }

  lemma {:induction false} PassShortens(q: seq<Asker>, ptn: Word)
    ensures |Pass(q, ptn).waiting| <= |q|
  {
    if q != [] {
      PassShortens(q[1..], ptn);
      PassShortens(q[1..], Cleared(ptn, q[0].want.waiptn, q[0].want.mode));
    }
  }

  // ----- The same by bits

  /** at lists places of the line in order. */
  ghost predicate Places(at: seq<nat>, n: nat) {
    (forall j :: 0 <= j < |at| ==> at[j] < n) && (forall j, k :: 0 <= j < k < |at| ==> at[j] < at[k])
  }

  /** The k-th waiter finds ptns[k]: it clears by its mode if its condition holds, and else nothing. */
  ghost predicate Finds(q: seq<Asker>, ptns: seq<Word>, k: nat)
    requires |ptns| == |q| + 1
  {
    k < |q| ==> if Meets(ptns[k], q[k].want) then Leaves(ptns[k], q[k].want, ptns[k + 1]) else ptns[k + 1] == ptns[k]
  }

  /** The waiters in turn find ptns. */
  ghost predicate Found(q: seq<Asker>, ptns: seq<Word>) {
    |ptns| == |q| + 1 && forall k: nat :: Finds(q, ptns, k)
  }

  ghost predicate Chosen(q: seq<Asker>, ptns: seq<Word>, k: nat, holds: bool)
    requires |ptns| == |q| + 1
  {
    k < |q| && Meets(ptns[k], q[k].want) == holds
  }

  /** at are the places of q whose condition holds (or does not) for what they find. */
  ghost predicate Exactly(q: seq<Asker>, ptns: seq<Word>, at: seq<nat>, holds: bool)
    requires |ptns| == |q| + 1
  {
    Places(at, |q|) && forall k: nat :: k in at <==> Chosen(q, ptns, k, holds)
  }

  /** The waiters at these places are released, each told what it found. */
  ghost predicate ToldAt(q: seq<Asker>, ptns: seq<Word>, at: seq<nat>, released: seq<Release>) {
    && |released| == |at| && |ptns| > |q| && Places(at, |q|)
    && forall j :: 0 <= j < |at| ==> released[j] == Release(q[at[j]].task, ptns[at[j]])
  }

  ghost predicate WaitingAt(q: seq<Asker>, at: seq<nat>, waiting: seq<Asker>) {
    |waiting| == |at| && Places(at, |q|) && forall j :: 0 <= j < |at| ==> waiting[j] == q[at[j]]
  }

  /** Those whose condition holds for what they find are released in the order of the line and told
      just that; the others stay in order. */
  ghost predicate Served(q: seq<Asker>, ptns: seq<Word>, at: seq<nat>, left: seq<nat>, o: Outcome) {
    && Found(q, ptns) && o.ptn == ptns[|q|]
    && Exactly(q, ptns, at, true) && ToldAt(q, ptns, at, o.released)
    && Exactly(q, ptns, left, false) && WaitingAt(q, left, o.waiting)
  }

  ghost predicate ServedByBits(q: seq<Asker>, ptn: Word, o: Outcome) {
    exists ptns: seq<Word>, at: seq<nat>, left: seq<nat> :: Served(q, ptns, at, left, o) && ptns[0] == ptn
  }

  /** One waiter more. */
  lemma ServedNext(q: seq<Asker>, ptns: seq<Word>, at: seq<nat>, left: seq<nat>, o: Outcome, w: Asker, p: Word)
    requires Served(q, ptns, at, left, o)
    requires if Meets(o.ptn, w.want) then Leaves(o.ptn, w.want, p) else p == o.ptn
    ensures Meets(o.ptn, w.want) ==>
      Served(q + [w], ptns + [p], at + [|q|], left, Outcome(o.released + [Release(w.task, o.ptn)], o.waiting, p))
    ensures !Meets(o.ptn, w.want) ==> Served(q + [w], ptns + [p], at, left + [|q|], Outcome(o.released, o.waiting + [w], p))
  {
    FoundNext(q, ptns, w, p);
    ExactlyNext(q, ptns, at, true, w, p);
    ExactlyNext(q, ptns, left, false, w, p);
    ToldNext(q, ptns, at, o.released, w, p);
    WaitingNext(q, left, o.waiting, w);
  }

  lemma FoundNext(q: seq<Asker>, ptns: seq<Word>, w: Asker, p: Word)
    requires Found(q, ptns)
    requires var last := ptns[|q|]; if Meets(last, w.want) then Leaves(last, w.want, p) else p == last
    ensures Found(q + [w], ptns + [p])
  {
    forall k: nat ensures Finds(q + [w], ptns + [p], k) { assert Finds(q, ptns, k); }
  }

  lemma ToldNext(q: seq<Asker>, ptns: seq<Word>, at: seq<nat>, released: seq<Release>, w: Asker, p: Word)
    requires |ptns| == |q| + 1 && ToldAt(q, ptns, at, released)
    ensures ToldAt(q + [w], ptns + [p], at, released)
    ensures ToldAt(q + [w], ptns + [p], at + [|q|], released + [Release(w.task, ptns[|q|])])
  {
  }

  lemma WaitingNext(q: seq<Asker>, at: seq<nat>, waiting: seq<Asker>, w: Asker)
    requires WaitingAt(q, at, waiting)
    ensures WaitingAt(q + [w], at, waiting) && WaitingAt(q + [w], at + [|q|], waiting + [w])
  {
  }

  lemma ExactlyNext(q: seq<Asker>, ptns: seq<Word>, at: seq<nat>, holds: bool, w: Asker, p: Word)
    requires |ptns| == |q| + 1 && Exactly(q, ptns, at, holds)
    ensures Exactly(q + [w], ptns + [p], if Meets(ptns[|q|], w.want) == holds then at + [|q|] else at, holds)
  {
    var at' := if Meets(ptns[|q|], w.want) == holds then at + [|q|] else at;
    forall k: nat ensures k in at' <==> Chosen(q + [w], ptns + [p], k, holds) {
      assert k in at <==> Chosen(q, ptns, k, holds);
    }
  }

  /** What the pass does, by bits. */
  lemma {:induction false} PassByBits(q: seq<Asker>, ptn: Word)
    ensures ServedByBits(q, ptn, Pass(q, ptn))
  {
    if q == [] {
      assert Served(q, [ptn], [], [], Pass(q, ptn));
    } else {
      var n := |q| - 1;
      var w, o := q[n], Pass(q[..n], ptn);
      PassByBits(q[..n], ptn);
      PassNext(q[..n], w, ptn);
      assert q[..n] + [w] == q;
      ServedMore(q[..n], ptn, o, w, Pass(q, ptn));
    }
  }

  lemma ServedMore(q: seq<Asker>, ptn: Word, o: Outcome, w: Asker, o': Outcome)
    requires ServedByBits(q, ptn, o)
    requires if Cond(o.ptn, w.want.waiptn, w.want.mode.orw) then
        o' == Outcome(o.released + [Release(w.task, o.ptn)], o.waiting, Cleared(o.ptn, w.want.waiptn, w.want.mode))
      else o' == Outcome(o.released, o.waiting + [w], o.ptn)
    ensures ServedByBits(q + [w], ptn, o')
  {
    var ptns, at, left :| Served(q, ptns, at, left, o) && ptns[0] == ptn;
    CondMeans(o.ptn, w.want);
    ServedNext(q, ptns, at, left, o, w, o'.ptn);
    assert (ptns + [o'.ptn])[0] == ptn;
  }

  lemma {:induction false} PassByPriority(q: seq<Asker>, ptn: Word, low: int)
    requires ByPriority(q) && forall i :: 0 <= i < |q| ==> low <= q[i].pri
    ensures var o := Pass(q, ptn); ByPriority(o.waiting) && forall i :: 0 <= i < |o.waiting| ==> low <= o.waiting[i].pri
  {
    if q != [] {
      assert forall i :: 0 <= i < |q[1..]| ==> q[1..][i] == q[i + 1];
      if Cond(ptn, q[0].want.waiptn, q[0].want.mode.orw) {
        PassByPriority(q[1..], Cleared(ptn, q[0].want.waiptn, q[0].want.mode), low);
      } else {
        PassByPriority(q[1..], ptn, q[0].pri);
      }
    }
  }

  // ----- A pass under way: 'rel' released, the first i of q passed over, ptn left

  ghost predicate Progress(o: Outcome, rel: seq<Release>, q: seq<Asker>, i: nat, ptn: Word)
    requires i <= |q|
  {
    var p := Pass(q[i..], ptn);
    o == Outcome(rel + p.released, q[..i] + p.waiting, p.ptn)
  }

  lemma ReleaseStep(o: Outcome, rel: seq<Release>, q: seq<Asker>, i: nat, ptn: Word)
    requires i < |q| && Cond(ptn, q[i].want.waiptn, q[i].want.mode.orw) && Progress(o, rel, q, i, ptn)
    ensures Progress(o, rel + [Release(q[i].task, ptn)], q[..i] + q[i + 1..], i, Cleared(ptn, q[i].want.waiptn, q[i].want.mode))
  {
    var q' := q[..i] + q[i + 1..];
    var p := Pass(q[i + 1..], Cleared(ptn, q[i].want.waiptn, q[i].want.mode));
    assert q[i..][1..] == q[i + 1..] == q'[i..] && q'[..i] == q[..i];
    assert rel + ([Release(q[i].task, ptn)] + p.released) == rel + [Release(q[i].task, ptn)] + p.released;
  }

  lemma SkipStep(o: Outcome, rel: seq<Release>, q: seq<Asker>, i: nat, ptn: Word)
    requires i < |q| && !Cond(ptn, q[i].want.waiptn, q[i].want.mode.orw) && Progress(o, rel, q, i, ptn)
    ensures Progress(o, rel, q, i + 1, ptn)
  {
    var p := Pass(q[i + 1..], ptn);
    assert q[i..][1..] == q[i + 1..];
    assert q[..i] + ([q[i]] + p.waiting) == q[..i + 1] + p.waiting;
  }

  lemma StopStep(o: Outcome, rel: seq<Release>, q: seq<Asker>, i: nat, ptn: Word)
    requires i <= |q| && Progress(o, rel, q, i, ptn) && (i == |q| || (ptn == {} && Asking(q)))
    ensures o == Outcome(rel, q, ptn)
  {
    assert q[..i] + q[i..] == q;
    if i < |q| { PassNothing(q[i..]); } else { assert q[i..] == []; }
  }

  lemma QueuedNone(o: seq<Asker>, w: Asker, tpri: bool, ptn: Word)
    requires Asking(o) && NoneSatisfied(o, ptn) && w.want.waiptn != {} && !Meets(ptn, w.want)
    ensures Asking(Queued(o, w, tpri)) && NoneSatisfied(Queued(o, w, tpri), ptn)
  {
  }

  class EventFlag {
    const wmul: bool
    const tpri: bool
    var flgptn: Word
    var waitq: seq<Asker>

    /** No queued waiter's condition holds, without TA_WMUL at most one task waits, and with TA_TPRI they
        wait by priority. */
    ghost predicate Valid()
      reads this
    {
      Asking(waitq) && NoneSatisfied(waitq, flgptn) && (!wmul ==> |waitq| <= 1) && (tpri ==> ByPriority(waitq))
    }

    constructor (iflgptn: Word, multi: bool, tp: bool)
      ensures Valid() && flgptn == iflgptn && waitq == [] && wmul == multi && tpri == tp
    {
      wmul, tpri, flgptn, waitq := multi, tp, iflgptn, [];
    }

    /** tk_set_flg: the tasks released, in order, and what each is told. */
    method SetFlg(setptn: Word) returns (released: seq<Release>)
      requires Valid()
      modifies this
      ensures Valid() && ServedByBits(old(waitq), old(flgptn) + setptn, Outcome(released, waitq, flgptn))
      ensures Outcome(released, waitq, flgptn) == Pass(old(waitq), old(flgptn) + setptn)
    {
      flgptn := flgptn + setptn;
      ghost var o := Pass(waitq, flgptn);
      PassLeavesNone(waitq, flgptn);
      PassShortens(waitq, flgptn);
      PassByBits(waitq, flgptn);
      if tpri && waitq != [] { PassByPriority(waitq, flgptn, waitq[0].pri); }
      released := [];
      var i := 0;
      assert waitq[0..] == waitq;
      while i < |waitq|
        modifies this
        invariant 0 <= i <= |waitq| && Asking(waitq) && Progress(o, released, waitq, i, flgptn)
        decreases |waitq| - i
      {
        var w := waitq[i];
        if Cond(flgptn, w.want.waiptn, w.want.mode.orw) {
          ReleaseStep(o, released, waitq, i, flgptn);
          released := released + [Release(w.task, flgptn)];
          waitq := waitq[..i] + waitq[i + 1..];
          if w.want.mode.bitclr {
            flgptn := flgptn - w.want.waiptn;
            if flgptn == {} { break; }
          }
          if w.want.mode.clr {
            flgptn := {};
            break;
          }
        } else {
          SkipStep(o, released, waitq, i, flgptn);
          i := i + 1;
        }
      }
      StopStep(o, released, waitq, i, flgptn);
    }

    /** tk_clr_flg. */
    method ClrFlg(clrptn: Word)
      requires Valid()
      modifies this`flgptn
      ensures Valid() && flgptn == old(flgptn) * clrptn
    {
      StillNone(waitq, flgptn, flgptn * clrptn);
      flgptn := flgptn * clrptn;
    }

    /** tk_wai_flg. */
    method WaiFlg(task: nat, pri: int, waiptn: Word, mode: Mode, poll: bool) returns (r: Ercd, ptn: Word)
      requires Valid()
      modifies this
      ensures Valid()
      ensures r == if waiptn == {} then E_PAR
                   else if !wmul && old(waitq) != [] then E_OBJ
                   else if Meets(old(flgptn), Request(waiptn, mode)) then E_OK else E_TMOUT
      ensures if r == E_OK then Leaves(old(flgptn), Request(waiptn, mode), flgptn) else flgptn == old(flgptn)
      ensures r == E_OK ==> ptn == old(flgptn)
      ensures waitq == if r == E_TMOUT && !poll then Queued(old(waitq), Waiter(task, pri, Request(waiptn, mode)), tpri) else old(waitq)
    {
      ptn := {};
      if waiptn == {} { return E_PAR, ptn; }
      if !wmul && waitq != [] { return E_OBJ, ptn; }
      CondMeans(flgptn, Request(waiptn, mode));
      if Cond(flgptn, waiptn, mode.orw) {
        ptn := flgptn;
        ClearedWithin(flgptn, waiptn, mode);
        StillNone(waitq, flgptn, Cleared(flgptn, waiptn, mode));
        if mode.bitclr { flgptn := flgptn - waiptn; }
        if mode.clr { flgptn := {}; }
        return E_OK, ptn;
      }
      if !poll {
        QueuedNone(waitq, Waiter(task, pri, Request(waiptn, mode)), tpri, flgptn);
        if tpri { QueuedByPriority(waitq, Waiter(task, pri, Request(waiptn, mode))); }
        waitq := Insert(waitq, Waiter(task, pri, Request(waiptn, mode)), tpri);
      }
      return E_TMOUT, ptn;
    }

    /** flg_chg_pri: the i-th waiter's priority changed. */
    method ChgPri(i: nat, pri: int)
      requires Valid() && tpri && i < |waitq|
      modifies this`waitq
      ensures Valid() && waitq == Queued(Without(old(waitq), i), old(waitq)[i].(pri := pri), true)
    {
      var w := waitq[i].(pri := pri);
      var o := Without(waitq, i);
      assert NoneSatisfied(o, flgptn) && !Meets(flgptn, waitq[i].want);
      QueuedNone(o, w, true, flgptn);
      WithoutByPriority(waitq, i);
      QueuedByPriority(o, w);
      waitq := Insert(o, w, true);
    }
  }
}
