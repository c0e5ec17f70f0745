/** What the scan of the ready queue ranks first, said on the queue itself, and what the selection
    means in those terms (kernel/tkernel/ready_queue_smp.c:243-305). */
module Urgency {
  import opened Options
  import opened CoreMasks
  import opened Matcher

  /** The i-th task of priority p is t. */
  predicate At(q: seq<seq<nat>>, t: nat, p: nat, i: nat) {
    p < |q| && i < |q[p]| && q[p][i] == t
  }

  /** One place in the queue comes before another: a higher priority, or earlier within the same. */
  predicate Earlier(p: nat, i: nat, r: nat, j: nat) {
    p < r || (p == r && i < j)
  }

  /** ... and no place before that one. */
  ghost predicate FirstAt(q: seq<seq<nat>>, t: nat, p: nat, i: nat) {
    At(q, t, p, i) && forall r: nat, j: nat :: At(q, t, r, j) ==> !Earlier(r, j, p, i)
  }

  ghost predicate Ready(s: Sched, t: nat) {
    exists p: nat, i: nat :: At(s.queue, t, p, i)
  }

  /** t's place is before u's. */
  ghost predicate PlacedBefore(q: seq<seq<nat>>, t: nat, u: nat) {
    exists p: nat, i: nat, r: nat, j: nat :: FirstAt(q, t, p, i) && FirstAt(q, u, r, j) && Earlier(p, i, r, j)
  }

  /** t comes before u: a holder of an object lock before everybody else, and among holders as among
      the others a higher priority first, and the longer waiting first within one priority. */
  ghost predicate MoreUrgent(s: Sched, t: nat, u: nat) {
    if (t in s.klocked) == (u in s.klocked) then PlacedBefore(s.queue, t, u) else t in s.klocked
  }

  // ----- The scan goes by urgency

  lemma RankConcat(a: seq<nat>, b: seq<nat>, t: nat)
    ensures Rank(a + b, t) == if t in a then Rank(a, t) else |a| + Rank(b, t)
  {
    var l := a + b;
    if t in a {
      assert l[Rank(a, t)] == t;
      assert forall i :: 0 <= i < Rank(a, t) ==> l[i] == a[i];
    } else if t in b {
      assert l[|a| + Rank(b, t)] == t;
      assert forall i :: 0 <= i < |l| ==> l[i] == if i < |a| then a[i] else b[i - |a|];
      assert Rank(l, t) < |l|;
    } else {
      assert t !in l;
    }
  }

  lemma RankAt(l: seq<nat>, t: nat, i: nat)
    requires i < |l| && l[i] == t && forall j :: 0 <= j < i ==> l[j] != t
    ensures Rank(l, t) == i
  {
    assert l[Rank(l, t)] == t;
  }

  /** t is in the first level, or its first place is one level further down. */
  lemma FirstTail(q: seq<seq<nat>>, t: nat, p: nat, i: nat)
    requires FirstAt(q, t, p, i)
    ensures if p == 0 then t in q[0] && Rank(q[0], t) == i else t !in q[0] && FirstAt(q[1..], t, p - 1, i)
  {
    if p == 0 {
      forall j | 0 <= j < i ensures q[0][j] != t { assert At(q, t, 0, j) <==> q[0][j] == t; }
      RankAt(q[0], t, i);
    } else {
      forall j | 0 <= j < |q[0]| ensures q[0][j] != t { assert At(q, t, 0, j) <==> q[0][j] == t; }
      forall r: nat, j: nat | At(q[1..], t, r, j) ensures !Earlier(r, j, p - 1, i) { assert At(q, t, r + 1, j); }
    }
  }

  /** Read level by level, tasks come by place. */
  lemma {:induction false} FlatByPlace(q: seq<seq<nat>>, t: nat, p: nat, i: nat, u: nat, r: nat, j: nat)
    requires FirstAt(q, t, p, i) && FirstAt(q, u, r, j)
    ensures t in Flat(q) && u in Flat(q)
    ensures Rank(Flat(q), t) < Rank(Flat(q), u) <==> Earlier(p, i, r, j)
  {
    FirstTail(q, t, p, i);
    FirstTail(q, u, r, j);
    RankConcat(q[0], Flat(q[1..]), t);
    RankConcat(q[0], Flat(q[1..]), u);
    if p > 0 && r > 0 {
      FlatByPlace(q[1..], t, p - 1, i, u, r - 1, j);
    } else if p > 0 {
      FlatByPlace(q[1..], t, p - 1, i, t, p - 1, i);
    } else if r > 0 {
      FlatByPlace(q[1..], u, r - 1, j, u, r - 1, j);
    }
  }

  /** Taking the one kind out keeps the order of the other. */
  lemma {:induction false} FilterByPlace(l: seq<nat>, k: set<nat>, locked: bool, t: nat, u: nat)
    requires t in l && u in l && (t in k) == (u in k) == locked
    ensures Rank(Filter(l, k, locked), t) < Rank(Filter(l, k, locked), u) <==> Rank(l, t) < Rank(l, u)
  {
    if l[0] != t && l[0] != u {
      FilterByPlace(l[1..], k, locked, t, u);
      FilterStep(l, k, locked, t);
      FilterStep(l, k, locked, u);
    } else {
      assert Filter(l, k, locked)[0] == l[0];
    }
  }

  lemma FilterStep(l: seq<nat>, k: set<nat>, locked: bool, t: nat)
    requires l != [] && l[0] != t
    ensures Rank(l, t) == 1 + Rank(l[1..], t)
    ensures Rank(Filter(l, k, locked), t) == (if (l[0] in k) == locked then 1 else 0) + Rank(Filter(l[1..], k, locked), t)
  {
    if (l[0] in k) == locked {
      assert Filter(l, k, locked)[1..] == Filter(l[1..], k, locked);
    }
  }

  lemma {:induction false} FilterMember(l: seq<nat>, k: set<nat>, locked: bool, t: nat)
    ensures t in Filter(l, k, locked) <==> t in l && (t in k) == locked
  {
    if l != [] { FilterMember(l[1..], k, locked, t); }
  }

  lemma {:induction false} FlatMember(q: seq<seq<nat>>, t: nat)
    ensures t in Flat(q) <==> exists p: nat, i: nat :: At(q, t, p, i)
  {
    if q != [] {
      FlatMember(q[1..], t);
      if t in q[0] {
        var i: nat :| i < |q[0]| && q[0][i] == t;
        assert At(q, t, 0, i);
      }
      if p: nat, i: nat :| At(q[1..], t, p, i) { assert At(q, t, p + 1, i); }
      if p: nat, i: nat :| At(q, t, p, i) {
        if p > 0 { assert At(q[1..], t, p - 1, i); }
      }
    }
  }

  /** Exactly the ready tasks are scanned. */
  lemma ScannedIffReady(s: Sched, t: nat)
    ensures t in Order(s) <==> Ready(s, t)
  {
    FlatMember(s.queue, t);
    FilterMember(Flat(s.queue), s.klocked, true, t);
    FilterMember(Flat(s.queue), s.klocked, false, t);
  }

  lemma {:induction false} FirstPlace(q: seq<seq<nat>>, t: nat) returns (p: nat, i: nat)
    requires t in Flat(q)
    ensures FirstAt(q, t, p, i)
  {
    if t in q[0] {
      p, i := 0, Rank(q[0], t);
      forall r: nat, j: nat | At(q, t, r, j) ensures !Earlier(r, j, p, i) {}
    } else {
      p, i := FirstPlace(q[1..], t);
      forall r: nat, j: nat | At(q, t, r, j) ensures !Earlier(r, j, p + 1, i) {
        assert r > 0 && At(q[1..], t, r - 1, j);
      }
      p := p + 1;
    }
  }

  /** The scan meets the more urgent of two ready tasks first. */
  lemma RankByUrgency(s: Sched, t: nat, u: nat)
    requires Ready(s, t) && Ready(s, u)
    ensures Rank(Order(s), t) < Rank(Order(s), u) <==> MoreUrgent(s, t, u)
  {
    var l, k := Flat(s.queue), s.klocked;
    FlatMember(s.queue, t);
    FlatMember(s.queue, u);
    RankConcat(Filter(l, k, true), Filter(l, k, false), t);
    RankConcat(Filter(l, k, true), Filter(l, k, false), u);
    FilterMember(l, k, true, t);
    FilterMember(l, k, true, u);
    if (t in k) == (u in k) {
      FilterByPlace(l, k, t in k, t, u);
      PlacedByRank(s.queue, t, u);
    } else {
      FilterMember(l, k, false, t);
      FilterMember(l, k, false, u);
    }
  }

  lemma PlacedByRank(q: seq<seq<nat>>, t: nat, u: nat)
    requires t in Flat(q) && u in Flat(q)
    ensures Rank(Flat(q), t) < Rank(Flat(q), u) <==> PlacedBefore(q, t, u)
  {
    var p, i := FirstPlace(q, t);
    var r, j := FirstPlace(q, u);
    FlatByPlace(q, t, p, i, u, r, j);
    forall p': nat, i': nat, r': nat, j': nat | FirstAt(q, t, p', i') && FirstAt(q, u, r', j') && Earlier(p', i', r', j')
      ensures Rank(Flat(q), t) < Rank(Flat(q), u)
    {
      FlatByPlace(q, t, p', i', u, r', j');
    }
  }

  // ----- The selection, in these terms

  /** Processor c is allowed to t: it is online, and it is the one t is on (or due on, when t is on
      none), or t is on none and its affinity and tk_dis_dsp leave c open. */
  predicate Allowed(s: Sched, t: nat, c: nat)
    requires Sized(s)
  {
    && s.online.Has(c)
    && (if exists d: nat :: d < TK_MAX_CORE && s.ctx[d] == Task(t) then s.ctx[c] == Task(t) && (c == 1 ==> s.ctx[0] != Task(t))
        else if exists d: nat :: d < TK_MAX_CORE && s.pub[d] == Some(t) then s.pub[c] == Some(t) && (c == 1 ==> s.pub[0] != Some(t))
        else Affinity(s, t).Has(c) && !s.masked.Has(c))
  }

  lemma MaskIffAllowed(s: Sched, t: nat, c: nat)
    requires Sized(s) && c < TK_MAX_CORE
    ensures MaskOf(s, t).Has(c) <==> Allowed(s, t, c)
  {
    assert s.ctx[0] == Task(t) || s.ctx[1] == Task(t) <==> exists d: nat :: d < TK_MAX_CORE && s.ctx[d] == Task(t);
    assert s.pub[0] == Some(t) || s.pub[1] == Some(t) <==> exists d: nat :: d < TK_MAX_CORE && s.pub[d] == Some(t);
  }

  /** No ready task is left out while a processor it may run on is idle or given to a less urgent one. */
  ghost predicate NobodyPassedOver(s: Sched, out: seq<Option<nat>>)
    requires Sized(s)
  {
    |out| == TK_MAX_CORE &&
    forall t: nat, c: nat :: Ready(s, t) && Some(t) !in out && c < TK_MAX_CORE && MaskOf(s, t).Has(c) ==>
      out[c].Some? && MoreUrgent(s, out[c].value, t)
  }

  /** ts lists ready tasks that can run at once, the more urgent first. */
  ghost predicate Candidates(s: Sched, ts: seq<nat>)
    requires Sized(s)
  {
    Placeable(s, ts) && (forall i :: 0 <= i < |ts| ==> Ready(s, ts[i])) && (|ts| == 2 ==> MoreUrgent(s, ts[0], ts[1]))
  }

  /** Place by place p is at least as urgent as ts, and at least as long. */
  ghost predicate AtLeastAsUrgent(s: Sched, p: seq<nat>, ts: seq<nat>) {
    |ts| <= |p| && forall k :: 0 <= k < |ts| ==> p[k] == ts[k] || MoreUrgent(s, p[k], ts[k])
  }

  /** out seats ready tasks, each on a processor of its mask and no two on one, that are at least as
      urgent as any others that can run at once. */
  ghost predicate MostUrgent(s: Sched, out: seq<Option<nat>>)
    requires Sized(s)
  {
    exists p: seq<nat> :: Candidates(s, p) && Seats(s, p, out) && forall ts: seq<nat> :: Candidates(s, ts) ==> AtLeastAsUrgent(s, p, ts)
  }

  lemma SameOrMoreUrgent(s: Sched, t: nat, u: nat)
    requires Ready(s, t) && Ready(s, u) && Rank(Order(s), t) <= Rank(Order(s), u)
    ensures t == u || MoreUrgent(s, t, u)
  {
    ScannedIffReady(s, t);
    ScannedIffReady(s, u);
    RankByUrgency(s, t, u);
    assert Order(s)[Rank(Order(s), t)] == t && Order(s)[Rank(Order(s), u)] == u;
  }

  lemma ChosenCandidates(s: Sched)
    requires Sized(s)
    ensures Candidates(s, Chosen(s))
  {
    var p := Chosen(s);
    PickPlaceable(s, Order(s), []);
    forall i | 0 <= i < |p| ensures Ready(s, p[i]) {
      assert p[i] in p;
      ScannedIffReady(s, p[i]);
    }
    ChoiceOrdered(s, Order(s));
    if |p| == 2 { RankByUrgency(s, p[0], p[1]); }
  }

  /** Against everything that could run at once, the tasks chosen are at least as urgent. */
  lemma ChosenAtLeastAsUrgent(s: Sched, ts: seq<nat>)
    requires Sized(s) && Candidates(s, ts)
    ensures AtLeastAsUrgent(s, Chosen(s), ts)
  {
    var l, p := Order(s), Chosen(s);
    ChosenCandidates(s);
    forall i | 0 <= i < |ts| ensures ts[i] in l { ScannedIffReady(s, ts[i]); }
    if |ts| == 2 { RankByUrgency(s, ts[0], ts[1]); }
    ChoiceDominates(s, l, ts);
    forall k | 0 <= k < |ts| ensures p[k] == ts[k] || MoreUrgent(s, p[k], ts[k]) { SameOrMoreUrgent(s, p[k], ts[k]); }
  }

  /** The selection the scheduler arrives at is the most urgent one, and passes nobody over. */
  lemma SelectionByUrgency(s: Sched)
    requires Sized(s)
    ensures MostUrgent(s, Assign(s, Chosen(s))) && NobodyPassedOver(s, Assign(s, Chosen(s)))
  {
    var p, out := Chosen(s), Assign(s, Chosen(s));
    ChosenCandidates(s);
    AssignSeats(s, p);
    forall ts: seq<nat> | Candidates(s, ts) ensures AtLeastAsUrgent(s, p, ts) { ChosenAtLeastAsUrgent(s, ts); }
    forall t: nat, c: nat | Ready(s, t) && Some(t) !in out && c < TK_MAX_CORE && MaskOf(s, t).Has(c)
      ensures out[c].Some? && MoreUrgent(s, out[c].value, t)
    {
      ScannedIffReady(s, t);
      NoneOvertaken(s, t, c);
      SeatedReady(s, p, out, c);
      RankByUrgency(s, out[c].value, t);
    }
  }

  lemma SeatedReady(s: Sched, p: seq<nat>, out: seq<Option<nat>>, c: nat)
    requires Sized(s) && Candidates(s, p) && Seats(s, p, out) && c < TK_MAX_CORE && out[c].Some?
    ensures Ready(s, out[c].value)
  {
    var i :| 0 <= i < |p| && p[i] == out[c].value;
  }

  /** Where both processors would do, the lower one goes to a task bound to it or to the more urgent. */
  ghost predicate LowestFirst(s: Sched, out: seq<Option<nat>>)
    requires Sized(s) && |out| == TK_MAX_CORE
  {
    out[1].Some? && MaskOf(s, out[1].value).Has(0) ==>
      out[0].Some? && (!MaskOf(s, out[0].value).Has(1) || MoreUrgent(s, out[0].value, out[1].value))
  }

  lemma SelectionLowestFirst(s: Sched)
    requires Sized(s)
    ensures LowestFirst(s, Assign(s, Chosen(s)))
  {
    ChosenCandidates(s);
  }
}
