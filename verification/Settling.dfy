/** With its inputs fixed the selection settles, although masks and slots are read and written one by
    one while the dispatchers go on (kernel/tkernel/ready_queue_smp.c:117-375). */
module Settling {
  import opened Options
  import opened Lists
  import opened CoreMasks
  import opened Matcher
  import opened Scheduler
  import opened Ownership

  // ----- The scan as a function of the masks read

  /** The candidates and their masks after the tasks of l were read, in turn, with the masks ks. */
  function Scanned(l: seq<nat>, ks: seq<Mask>): (r: (seq<nat>, seq<Mask>))
    requires |l| == |ks|
    ensures |r.0| == |r.1| <= TK_MAX_CORE
  {
    if l == [] then ([], [])
    else
      var n := |l| - 1;
      var r := Scanned(l[..n], ks[..n]);
      if l[n] !in r.0 && FeasibleWith(r.1, ks[n]) then (r.0 + [l[n]], r.1 + [ks[n]]) else r
  }

  lemma ScannedStep(l: seq<nat>, ks: seq<Mask>, t: nat, k: Mask)
    requires |l| == |ks|
    ensures var r := Scanned(l, ks);
      Scanned(l + [t], ks + [k]) == if t !in r.0 && FeasibleWith(r.1, k) then (r.0 + [t], r.1 + [k]) else r
  {
    assert (l + [t])[..|l|] == l && (ks + [k])[..|ks|] == ks;
  }

  /** The mask t was read with, or, if its turn has not come, the one it has now. */
  function ReadMask(s: Sched, l: seq<nat>, ks: seq<Mask>, t: nat): Mask
    requires Sized(s)
  {
    if Rank(l, t) < |ks| then ks[Rank(l, t)] else MaskOf(s, t)
  }

  /** A state in which every task has the mask it was read with, all at once. */
  function Frozen(s: Sched, l: seq<nat>, ks: seq<Mask>): (f: Sched)
    requires Sized(s)
    ensures Sized(f) && Order(f) == Order(s)
  {
    s.(ctx := [Nobody, Nobody], pub := [None, None], online := ALL_CORES, masked := NO_CORE,
       assprc := map t: nat | t in l :: ReadMask(s, l, ks, t))
  }

  lemma FrozenMask(s: Sched, l: seq<nat>, ks: seq<Mask>, t: nat)
    requires Sized(s) && t in l
    ensures MaskOf(Frozen(s, l, ks), t) == ReadMask(s, l, ks, t)
  {
  }

  lemma RankAt(l: seq<nat>, i: nat)
    requires Distinct(l) && i < |l|
    ensures Rank(l, l[i]) == i
  {
  }

  /** The first n tasks read, and the scan of the frozen state has come as far. */
  lemma {:induction false} ScannedIsPick(s: Sched, l: seq<nat>, ks: seq<Mask>, n: nat)
    requires Sized(s) && Distinct(l) && n <= |ks| <= |l|
    ensures var f, r := Frozen(s, l, ks), Scanned(l[..n], ks[..n]);
      && Pick(f, l, []) == Pick(f, l[n..], r.0)
      && r.1 == MasksOf(f, r.0) && (forall t :: t in r.0 ==> t in l)
  {
    var f := Frozen(s, l, ks);
    if n == 0 {
      assert l[0..] == l;
    } else {
      ScannedIsPick(s, l, ks, n - 1);
      RankAt(l, n - 1);
      FrozenMask(s, l, ks, l[n - 1]);
      ScannedTurn(f, l, ks, n);
    }
  }

  lemma ScannedTurn(f: Sched, l: seq<nat>, ks: seq<Mask>, n: nat)
    requires Sized(f) && 0 < n <= |ks| <= |l| && MaskOf(f, l[n - 1]) == ks[n - 1]
    requires Scanned(l[..n - 1], ks[..n - 1]).1 == MasksOf(f, Scanned(l[..n - 1], ks[..n - 1]).0)
    ensures var q, r := Scanned(l[..n - 1], ks[..n - 1]), Scanned(l[..n], ks[..n]);
      && Pick(f, l[n - 1..], q.0) == Pick(f, l[n..], r.0) && r.1 == MasksOf(f, r.0)
      && forall t :: t in r.0 ==> t in q.0 || t == l[n - 1]
  {
    var q := Scanned(l[..n - 1], ks[..n - 1]);
    assert l[..n - 1] + [l[n - 1]] == l[..n] && ks[..n - 1] + [ks[n - 1]] == ks[..n];
    ScannedStep(l[..n - 1], ks[..n - 1], l[n - 1], ks[n - 1]);
    assert l[n - 1..][0] == l[n - 1] && l[n - 1..][1..] == l[n..];
    PickTurn(f, l[n - 1..], q.0);
  }

  /** One turn of the greedy choice. */
  lemma PickTurn(f: Sched, l: seq<nat>, chosen: seq<nat>)
    requires Sized(f) && l != [] && |chosen| <= TK_MAX_CORE
    ensures var masks := MasksOf(f, chosen);
      var next := if l[0] !in chosen && FeasibleWith(masks, MaskOf(f, l[0])) then chosen + [l[0]] else chosen;
      |next| <= TK_MAX_CORE && Pick(f, l, chosen) == Pick(f, l[1..], next)
    ensures FeasibleWith(MasksOf(f, chosen), MaskOf(f, l[0])) ==> MasksOf(f, chosen + [l[0]]) == MasksOf(f, chosen) + [MaskOf(f, l[0])]
  {
  }

  /** A scan that has read everything, or found two, has made the greedy choice of the frozen state. */
  lemma ScanEnds(s: Sched, l: seq<nat>, ks: seq<Mask>)
    requires Sized(s) && Distinct(l) && |ks| <= |l|
    requires |ks| == |l| || |Scanned(l[..|ks|], ks).0| == TK_MAX_CORE
    ensures var f, r := Frozen(s, l, ks), Scanned(l[..|ks|], ks);
      r.0 == Pick(f, l, []) && r.1 == MasksOf(f, r.0) && (forall t :: t in r.0 ==> t in l)
  {
    assert ks[..|ks|] == ks;
    ScannedIsPick(s, l, ks, |ks|);
  }

  // ----- One selection against the slots it replaces

  function Sum(l: seq<nat>, out: seq<Option<nat>>): nat
    requires |out| == TK_MAX_CORE
  {
    Cost(l, out[0]) + Cost(l, out[1])
  }

  function Differs(a: seq<Option<nat>>, b: seq<Option<nat>>, c: nat): nat
    requires c < |a| && c < |b|
  {
    if a[c] != b[c] then 1 else 0
  }

  /** ts, by rank, sits in the slots 'pub', and everything in them is pinned there. */
  ghost predicate Seated(f: Sched, ts: seq<nat>, pub: seq<Option<nat>>) {
    && Sized(f) && Placeable(f, ts) && Seats(f, ts, pub) && (forall i :: 0 <= i < |ts| ==> ts[i] in Order(f))
    && (|ts| == 2 ==> Rank(Order(f), ts[0]) < Rank(Order(f), ts[1]))
    && (forall c: nat :: c < TK_MAX_CORE && pub[c].Some? ==> MaskOf(f, pub[c].value) == Only(c))
  }

  /** A task that stays published keeps its slot. */
  lemma StaysSeated(f: Sched, ts: seq<nat>, pub: seq<Option<nat>>, sel: seq<Option<nat>>, t: nat) returns (c: nat)
    requires Seated(f, ts, pub) && Seats(f, Chosen(f), sel) && t in ts && t in Chosen(f)
    ensures c < TK_MAX_CORE && sel[c] == pub[c] == Some(t)
  {
    assert Some(t) in pub && Some(t) in sel;
    c := if pub[0] == Some(t) then 0 else 1;
    assert MaskOf(f, t) == Only(c);
  }

  /** A choice by rank never ranks later, and strictly earlier where it differs. */
  lemma ChoiceRanks(f: Sched, ts: seq<nat>, pub: seq<Option<nat>>)
    requires Seated(f, ts, pub)
    ensures var l, p := Order(f), Chosen(f);
      && |ts| <= |p| <= TK_MAX_CORE && (forall i :: 0 <= i < |p| ==> p[i] in l)
      && (forall k :: 0 <= k < |ts| ==> Rank(l, p[k]) <= Rank(l, ts[k]) && (p[k] != ts[k] ==> Rank(l, p[k]) < Rank(l, ts[k])))
  {
    var l, p := Order(f), Chosen(f);
    ChoiceDominates(f, l, ts);
    PickPlaceable(f, l, []);
    forall i | 0 <= i < |p| ensures p[i] in l { assert p[i] in p; }
    forall k | 0 <= k < |ts| && p[k] != ts[k] ensures Rank(l, p[k]) < Rank(l, ts[k]) { StrictRank(l, p[k], ts[k]); }
  }

  lemma StrictRank(l: seq<nat>, a: nat, b: nat)
    requires a in l && b in l && Rank(l, a) <= Rank(l, b) && a != b
    ensures Rank(l, a) < Rank(l, b)
  {
    assert l[Rank(l, a)] == a && l[Rank(l, b)] == b;
  }

  function RankOr(l: seq<nat>, ts: seq<nat>, k: nat): nat {
    if k < |ts| then Rank(l, ts[k]) else |l|
  }

  lemma SumByRank(f: Sched, ts: seq<nat>, out: seq<Option<nat>>)
    requires Sized(f) && Placeable(f, ts) && Seats(f, ts, out)
    ensures Sum(Order(f), out) == RankOr(Order(f), ts, 0) + RankOr(Order(f), ts, 1)
  {
    SeatedWeight(f, ts, out);
  }

  /** What a selection changes, it pays for in ranks: the sum of ranks falls by at least the number of
      slots that differ. */
  lemma ChangesPay(f: Sched, ts: seq<nat>, pub: seq<Option<nat>>, sel: seq<Option<nat>>)
    requires Seated(f, ts, pub) && Seats(f, Chosen(f), sel)
    ensures Sum(Order(f), sel) + Differs(sel, pub, 0) + Differs(sel, pub, 1) <= Sum(Order(f), pub)
  {
    var l, p := Order(f), Chosen(f);
    ChoiceRanks(f, ts, pub);
    SelectedSeats(f);
    SumByRank(f, ts, pub);
    SumByRank(f, p, sel);
    if Differs(sel, pub, 0) == 1 && Differs(sel, pub, 1) == 1 {
      BothChange(f, ts, pub, sel);
      RanksFall(l, ts, p, 2);
    } else if p == ts {
      SameTasks(f, ts, pub, sel);
    } else {
      RanksFall(l, ts, p, 1);
    }
  }

  /** Two choices by rank that differ at n places: the sums differ by as much. */
  lemma RanksFall(l: seq<nat>, ts: seq<nat>, p: seq<nat>, n: nat)
    requires |ts| <= |p| <= 2 && (forall i :: 0 <= i < |p| ==> p[i] in l)
    requires forall k :: 0 <= k < |ts| ==> Rank(l, p[k]) <= Rank(l, ts[k]) && (p[k] != ts[k] ==> Rank(l, p[k]) < Rank(l, ts[k]))
    requires if n == 1 then p != ts else n == 2 && |p| == 2 && forall k :: 0 <= k < |ts| ==> p[k] != ts[k]
    ensures RankOr(l, p, 0) + RankOr(l, p, 1) + n <= RankOr(l, ts, 0) + RankOr(l, ts, 1)
  {
    forall k: nat | k < 2 ensures RankOr(l, p, k) <= RankOr(l, ts, k) &&
        (k < |p| && (k >= |ts| || p[k] != ts[k]) ==> RankOr(l, p, k) < RankOr(l, ts, k)) {
      if k < |p| { assert p[k] in l; }
    }
    if n == 1 {
      var k: nat :| k < |p| && (k >= |ts| || p[k] != ts[k]);
      assert k == 0 || k == 1;
    }
  }

  lemma SameTasks(f: Sched, ts: seq<nat>, pub: seq<Option<nat>>, sel: seq<Option<nat>>)
    requires Seated(f, ts, pub) && Seats(f, Chosen(f), sel) && Chosen(f) == ts
    ensures sel == pub
  {
    forall c: nat | c < TK_MAX_CORE ensures sel[c] == pub[c] {
      if pub[c].Some? {
        var d := StaysSeated(f, ts, pub, sel, pub[c].value);
      } else if sel[c].Some? {
        var d := StaysSeated(f, ts, pub, sel, sel[c].value);
      }
    }
  }

  /** If both slots change, nobody stays, and two tasks are chosen. */
  lemma BothChange(f: Sched, ts: seq<nat>, pub: seq<Option<nat>>, sel: seq<Option<nat>>)
    requires Seated(f, ts, pub) && Seats(f, Chosen(f), sel) && sel[0] != pub[0] && sel[1] != pub[1]
    requires |ts| <= |Chosen(f)|
    ensures |Chosen(f)| == TK_MAX_CORE && forall k :: 0 <= k < |ts| ==> Chosen(f)[k] != ts[k]
  {
    var l, p := Order(f), Chosen(f);
    forall t | t in ts ensures t !in p {
      if t in p { var c := StaysSeated(f, ts, pub, sel, t); }
    }
    forall k | 0 <= k < |ts| ensures p[k] != ts[k] { assert ts[k] in ts && p[k] in p; }
    if |p| == 1 { OneForOne(f, ts, pub, sel); }
    NothingSeated(f, p, sel);
    NothingSeated(f, ts, pub);
  }

  lemma NothingSeated(f: Sched, ts: seq<nat>, out: seq<Option<nat>>)
    requires Sized(f) && Seats(f, ts, out)
    ensures ts == [] <==> out == [None, None]
  {
    if ts != [] { assert ts[0] in ts; }
    if out[0].Some? { assert out[0].value in ts; }
    if out[1].Some? { assert out[1].value in ts; }
  }

  /** One task alone takes the place of one task: it is the same slot. */
  lemma OneForOne(f: Sched, ts: seq<nat>, pub: seq<Option<nat>>, sel: seq<Option<nat>>)
    requires Seated(f, ts, pub) && Seats(f, Chosen(f), sel) && |Chosen(f)| == 1 && |ts| <= 1
    requires forall t :: t in ts ==> t !in Chosen(f)
    ensures sel[0] == pub[0] || sel[1] == pub[1]
  {
    var p := Chosen(f);
    assert p == [p[0]];
    OnlyOne(f, p, sel);
    if ts == [] {
      NothingSeated(f, ts, pub);
    } else {
      var a := ts[0];
      assert a in ts && ts == [a];
      OnlyOne(f, ts, pub);
      RejectedTogether(f, Order(f), a);
      assert Some(p[0]) in sel && Some(a) in pub;
    }
  }

  lemma OnlyOne(f: Sched, ts: seq<nat>, out: seq<Option<nat>>)
    requires Sized(f) && Seats(f, ts, out) && |ts| == 1
    ensures (out[0] == Some(ts[0]) && out[1].None?) || (out[1] == Some(ts[0]) && out[0].None?)
  {
    assert ts == [ts[0]] && ts[0] in ts;
  }

  // ----- The invariant of a run with fixed inputs

  /** The scan has come this far, having read the masks ks; a published task was read as pinned. */
  ghost predicate Traced(m: Machine, ks: seq<Mask>) {
    && Sized(m.s) && m.phase.Scanning?
    && var l, n := Order(m.s), |ks|;
    && n <= |l| && m.phase.rest == l[n..] && (m.phase.chosen, m.phase.masks) == Scanned(l[..n], ks)
    && (forall i: nat, c: nat :: i < n && c < TK_MAX_CORE && m.s.pub[c] == Some(l[i]) ==> ks[i] == Only(c))
    && (forall i :: 0 <= i < |m.phase.masks| ==> m.phase.masks[i].Without(m.s.online) == NO_CORE)
  }

  ghost predicate Selectable(s: Sched, sel: seq<Option<nat>>) {
    |sel| == TK_MAX_CORE && forall c: nat :: c < TK_MAX_CORE && sel[c].Some? ==> sel[c].value in Order(s) && s.online.Has(c)
  }

  ghost predicate Live(m: Machine) {
    && Safe(m) && Settled(m.s) && Distinct(Order(m.s))
    && match m.phase
       case Quiet => true
       case Scanning(rest, chosen, masks, p) => exists ks: seq<Mask> :: Traced(m, ks)
       case Publishing(sel, next) => next < TK_MAX_CORE && Selectable(m.s, sel) && (forall c: nat :: c < next ==> m.s.pub[c] == sel[c])
  }

  /** The ready queue, the object locks, affinities, online and masked processors stay as they are. */
  predicate Fixed(m: Machine, a: Action) {
    match a
    case Enter(q, k) => q == m.s.queue && k == m.s.klocked
    case ScanRead => true
    case Decide(seen) => true
    case PublishSlot => true
    case Save(c) => true
    case Install(c) => true
    case _ => false
  }

  /** The sum of ranks of the slots, or of the selection on its way into them with what it has still
      to change. */
  function Potential(m: Machine): nat
    requires Sized(m.s) && (m.phase.Publishing? ==> |m.phase.sel| == TK_MAX_CORE)
  {
    match m.phase
    case Publishing(sel, next) =>
      Sum(Order(m.s), sel) + (if next == 0 then Differs(sel, m.s.pub, 0) else 0) + (if next <= 1 then Differs(sel, m.s.pub, 1) else 0)
    case _ => Sum(Order(m.s), m.s.pub)
  }

  function Changed(m: Machine, m': Machine): nat {
    if m'.s.pub != m.s.pub then 1 else 0
  }

  /** A published task is read as pinned to its slot, at whatever moments its slots are read. */
  lemma FoundPinned(s: Sched, t: nat, p: Probe, c: nat)
    requires Settled(s) && ProbeOk(s, t, p) && Read(s, t, p).Found? && c < TK_MAX_CORE && s.pub[c] == Some(t)
    ensures Read(s, t, p).mask == Only(c)
  {
    assert Holds(s, t, c) && !Holds(s, t, 1 - c) && s.online.Has(c);
    assert 1 <= p.k <= 4;
  }

  lemma FoundOnline(s: Sched, t: nat, p: Probe)
    requires Sized(s) && ProbeOk(s, t, p) && Read(s, t, p).Found?
    ensures Read(s, t, p).mask.Without(s.online) == NO_CORE
  {
  }

  lemma TraceGrows(m: Machine, m': Machine, ks: seq<Mask>, k: Mask)
    requires Traced(m, ks) && m.phase.rest != [] && (m.phase.rest[0] in m.phase.chosen || k.Without(m.s.online) == NO_CORE)
    requires m'.s == m.s && m'.phase.Scanning? && m'.phase.rest == m.phase.rest[1..]
    requires var t := m.phase.rest[0];
      (m'.phase.chosen, m'.phase.masks) == if t !in m.phase.chosen && FeasibleWith(m.phase.masks, k) then (m.phase.chosen + [t], m.phase.masks + [k])
                                           else (m.phase.chosen, m.phase.masks)
    requires forall c: nat :: c < TK_MAX_CORE && m.s.pub[c] == Some(m.phase.rest[0]) ==> k == Only(c)
    ensures Traced(m', ks + [k])
  {
    var l, n := Order(m.s), |ks|;
    assert l[n] == m.phase.rest[0];
    assert l[..n + 1] == l[..n] + [l[n]] && l[n..][1..] == l[n + 1..];
    ScannedStep(l[..n], ks, l[n], k);
  }

  lemma ScanLive(m: Machine, m': Machine)
    requires Live(m) && Step(m, ScanRead, m')
    ensures exists ks: seq<Mask> :: Traced(m', ks)
  {
    var ks: seq<Mask> :| Traced(m, ks);
    var t, p := m.phase.rest[0], m.phase.probe;
    if t in m.phase.chosen {
      forall c: nat | c < TK_MAX_CORE && m.s.pub[c] == Some(t) ensures MaskOf(m.s, t) == Only(c) { PublishedPinned(m.s, c); }
      TraceGrows(m, m', ks, MaskOf(m.s, t));
    } else {
      match Read(m.s, t, p) {
        case More(q) => assert Traced(m', ks);
        case Found(mask) =>
          forall c: nat | c < TK_MAX_CORE && m.s.pub[c] == Some(t) ensures mask == Only(c) { FoundPinned(m.s, t, p, c); }
          FoundOnline(m.s, t, p);
          TraceGrows(m, m', ks, mask);
      }
    }
  }

  /** In the frozen state of a scan the published tasks are pinned to their slots. */
  lemma FrozenSeated(m: Machine, ks: seq<Mask>)
    requires Settled(m.s) && Distinct(Order(m.s)) && Traced(m, ks)
    ensures Seated(Frozen(m.s, Order(m.s), ks), PublishedByRank(m.s), m.s.pub)
  {
    var s, l := m.s, Order(m.s);
    var f := Frozen(s, l, ks);
    PublishedPlaceable(s);
    forall c: nat | c < TK_MAX_CORE && s.pub[c].Some? ensures MaskOf(f, s.pub[c].value) == Only(c) {
      PublishedPinned(s, c);
      FrozenMask(s, l, ks, s.pub[c].value);
      assert l[Rank(l, s.pub[c].value)] == s.pub[c].value;
    }
    SameSeating(s, f);
  }

  lemma SameSeating(s: Sched, f: Sched)
    requires Settled(s) && Sized(f) && Order(f) == Order(s)
    requires forall c: nat :: c < TK_MAX_CORE && s.pub[c].Some? ==> MaskOf(f, s.pub[c].value) == Only(c)
    ensures Seated(f, PublishedByRank(s), s.pub)
  {
    var ts := PublishedByRank(s);
    PublishedPlaceable(s);
    forall t | t in ts ensures Some(t) in s.pub {}
    forall i | 0 <= i < |ts| ensures MaskOf(f, ts[i]) != NO_CORE && Some(ts[i]) in s.pub { assert ts[i] in ts; }
  }

  lemma DecideLive(m: Machine, seen: set<(nat, nat)>, m': Machine)
    requires Live(m) && Step(m, Decide(seen), m')
    ensures Live(m') && Potential(m') <= Potential(m)
  {
    StepSafe(m, Decide(seen), m');
    DecideSilent(m, seen);
    var ks: seq<Mask> :| Traced(m, ks);
    var s, l := m.s, Order(m.s);
    var f := Frozen(s, l, ks);
    ScanEnds(s, l, ks);
    FrozenSeated(m, ks);
    var sel := m'.phase.sel;
    SeatsFrozen(f, m.phase.chosen, m.phase.masks, sel);
    ChangesPay(f, PublishedByRank(s), s.pub, sel);
    forall c: nat | c < TK_MAX_CORE && sel[c].Some? ensures sel[c].value in l && s.online.Has(c) {
      var i :| 0 <= i < |m.phase.chosen| && m.phase.chosen[i] == sel[c].value && m.phase.masks[i].Has(c);
      assert m.phase.masks[i].Without(s.online) == NO_CORE;
    }
  }

  lemma SeatsFrozen(f: Sched, chosen: seq<nat>, masks: seq<Mask>, sel: seq<Option<nat>>)
    requires Sized(f) && chosen == Chosen(f) && masks == MasksOf(f, chosen) && SeatsWith(chosen, masks, sel)
    ensures Seats(f, Chosen(f), sel)
  {
    forall c: nat | c < |sel| && sel[c].Some? ensures sel[c].value in chosen && MaskOf(f, sel[c].value).Has(c) {
      var i :| 0 <= i < |chosen| && chosen[i] == sel[c].value && masks[i].Has(c);
    }
    forall t | t in chosen ensures Some(t) in sel {
      var i :| 0 <= i < |chosen| && chosen[i] == t;
    }
  }

  lemma PublishLive(m: Machine, m': Machine)
    requires Live(m) && Step(m, PublishSlot, m')
    ensures Live(m') && Potential(m') + Changed(m, m') <= Potential(m)
  {
    StepSafe(m, PublishSlot, m');
    var c, sel := m.phase.next, m.phase.sel;
    assert m'.s.pub == m.s.pub[c := sel[c]];
    assert Order(m'.s) == Order(m.s);
  }

  lemma DispatchLive(m: Machine, c: nat, m': Machine)
    requires Live(m) && (Step(m, Save(c), m') || Step(m, Install(c), m'))
    ensures Live(m') && Potential(m') == Potential(m) && Changed(m, m') == 0
  {
    if Step(m, Save(c), m') { StepSafe(m, Save(c), m'); } else { StepSafe(m, Install(c), m'); }
    assert Order(m'.s) == Order(m.s);
    if m.phase.Scanning? {
      var ks: seq<Mask> :| Traced(m, ks);
      assert Traced(m', ks);
    }
  }

  lemma EnterLive(m: Machine, q: seq<seq<nat>>, k: set<nat>, m': Machine)
    requires Live(m) && Step(m, Enter(q, k), m') && Fixed(m, Enter(q, k))
    ensures Live(m') && Potential(m') == Potential(m) && Changed(m, m') == 0
  {
    StepSafe(m, Enter(q, k), m');
    assert m'.s == m.s;
    assert Order(m.s)[0..] == Order(m.s) && Order(m.s)[..0] == [];
    assert Traced(m', []);
  }

  /** Every step keeps the invariant, and pays for each slot it changes. */
  lemma StepPays(m: Machine, a: Action, m': Machine)
    requires Live(m) && Step(m, a, m') && Fixed(m, a)
    ensures Live(m') && Potential(m') + Changed(m, m') <= Potential(m)
  {
    match a
    case Enter(q, k) => EnterLive(m, q, k, m');
    case ScanRead =>
      StepSafe(m, a, m');
      ScanLive(m, m');
    case Decide(seen) => DecideLive(m, seen, m');
    case PublishSlot => PublishLive(m, m');
    case Save(c) => DispatchLive(m, c, m');
    case Install(c) => DispatchLive(m, c, m');
  }

  /** A run whose inputs are fixed, from some state between two calls. */
  ghost predicate FixedRun(ms: seq<Machine>, acts: seq<Action>) {
    && |ms| == |acts| + 1 && ms[0].phase.Quiet? && Settled(ms[0].s) && Distinct(Order(ms[0].s))
    && (forall i :: 0 <= i < |acts| ==> Sized(ms[i].s) && Step(ms[i], acts[i], ms[i + 1]) && Fixed(ms[i], acts[i]))
  }

  /** How many of the first n steps change a slot. */
  function SlotChanges(ms: seq<Machine>, n: nat): nat
    requires n < |ms|
  {
    if n == 0 then 0 else SlotChanges(ms, n - 1) + Changed(ms[n - 1], ms[n])
  }

  lemma {:induction false} RunPays(ms: seq<Machine>, acts: seq<Action>, n: nat)
    requires FixedRun(ms, acts) && n < |ms|
    ensures Live(ms[n]) && Potential(ms[n]) + SlotChanges(ms, n) <= Weight(ms[0].s)
  {
    if n > 0 {
      RunPays(ms, acts, n - 1);
      StepPays(ms[n - 1], acts[n - 1], ms[n]);
    }
  }

  /** However the reads and writes of reschedules interleave with dispatches, the number of steps that
      change a slot is at most the sum of ranks the run began with: with fixed inputs the selection
      settles. */
  lemma SelectionSettles(ms: seq<Machine>, acts: seq<Action>, n: nat)
    requires FixedRun(ms, acts) && n < |ms|
    ensures SlotChanges(ms, n) <= Weight(ms[0].s)
  {
    RunPays(ms, acts, n);
  }
}
