/** The address-ordered list of areas, linked through their headers, against the areas it stands
    for (kernel/tkernel/memory.c:131-146; kernel/tkernel/mempool.h:30-43). */
module HeapLinks {
  import opened HeapSpec
  import opened Lists

  /** Where a region lies: its bytes are base .. limit; 'first' is the header of the first area,
      'last' the end header, 'before' what precedes 'first' in the ring of headers. The kernel heap
      has them next to the region; a memory pool ('bound') keeps them in its control block. */
  datatype Frame = Frame(first: int, last: int, before: int, base: int, limit: int, bound: bool)

  ghost predicate Framed(f: Frame) {
    && Aligned(f.base) && f.first != f.last && f.before != f.first
    && !(f.base <= f.first < f.limit) && !(f.base <= f.last < f.limit) && !(f.base <= f.before < f.limit)
    && (!f.bound ==> f.first == f.base - UNIT && f.last == f.limit)
  }

  /** The links go from header to header, both ways. */
  ghost predicate Ring(f: Frame, hs: seq<int>, next: map<int, int>, prev: map<int, int>) {
    && |hs| > 1 && hs[0] == f.first && hs[|hs| - 1] == f.last && f.first in prev && prev[f.first] == f.before
    && forall i :: 0 <= i < |hs| - 1 ==> Link(next, prev, hs, i)
  }

  ghost predicate Link(next: map<int, int>, prev: map<int, int>, hs: seq<int>, i: nat)
    requires i + 1 < |hs|
  {
    hs[i] in next && next[hs[i]] == hs[i + 1] && hs[i + 1] in prev && prev[hs[i + 1]] == hs[i]
  }

  /** The flags in the headers say which areas are in use. */
  ghost predicate Flagged(f: Frame, hs: seq<int>, inUse: set<int>, ss: seq<Span>) {
    && |hs| == |ss| + 1 && f.before in inUse && f.last in inUse
    && forall i :: 0 <= i < |ss| ==> (ss[i].used <==> hs[i] in inUse)
  }

  /** Every header but the first stands in front of its area. */
  ghost predicate InFront(hs: seq<int>, ss: seq<Span>) {
    |hs| == |ss| + 1 && forall i :: 0 < i < |ss| ==> hs[i] == ss[i].at - UNIT
  }

  ghost predicate Linked(f: Frame, hs: seq<int>, next: map<int, int>, prev: map<int, int>, inUse: set<int>, ss: seq<Span>) {
    Ring(f, hs, next, prev) && Flagged(f, hs, inUse, ss) && InFront(hs, ss)
  }

  ghost predicate Placed(f: Frame, ss: seq<Span>) {
    Framed(f) && Tiled(ss, f.base, f.limit) && Addressable(ss)
  }

  /** Where an area begins, given its header; and the header, given where it begins. */
  function TopOf(f: Frame, aq: int): int {
    if aq == f.first then f.base else aq + UNIT
  }

  function HeaderOf(f: Frame, q: int): int {
    if q == f.base then f.first else q - UNIT
  }

  function EndOf(f: Frame, next: int): int {
    if next == f.last then f.limit else next
  }

  lemma HeaderPlace(f: Frame, hs: seq<int>, ss: seq<Span>, i: nat)
    requires Placed(f, ss) && InFront(hs, ss) && hs[0] == f.first && hs[|ss|] == f.last && i < |ss|
    ensures TopOf(f, hs[i]) == ss[i].at && HeaderOf(f, ss[i].at) == hs[i] && EndOf(f, hs[i + 1]) == End(ss[i])
    ensures hs[i] != f.last && hs[i] != f.before && (i > 0 ==> hs[i] != f.first)
    ensures hs[i + 1] == f.last <==> i == |ss| - 1
  {
    TiledWithin(ss, f.base, f.limit, i);
    if i + 1 < |ss| {
      TiledWithin(ss, f.base, f.limit, i + 1);
      assert ss[i + 1].at == End(ss[i]) + UNIT;
    }
  }

  lemma HeadersDiffer(f: Frame, hs: seq<int>, ss: seq<Span>)
    requires Placed(f, ss) && InFront(hs, ss) && hs[0] == f.first && hs[|ss|] == f.last
    ensures Distinct(hs)
  {
    forall i, j | 0 <= i < j < |hs| ensures hs[i] != hs[j] {
      HeaderPlace(f, hs, ss, i);
      if j < |ss| {
        HeaderPlace(f, hs, ss, j);
        TiledOrder(ss, f.base, f.limit, i, j);
      }
    }
  }

  /** A flag changed. */
  lemma FlagChanged(f: Frame, hs: seq<int>, inUse: set<int>, ss: seq<Span>, i: nat, u: bool)
    requires Flagged(f, hs, inUse, ss) && Distinct(hs) && i < |ss| && hs[i] != f.last && hs[i] != f.before
    ensures Flagged(f, hs, if u then inUse + {hs[i]} else inUse - {hs[i]}, ss[i := ss[i].(used := u)])
  {
  }

  lemma LinkedFlag(f: Frame, hs: seq<int>, next: map<int, int>, prev: map<int, int>, inUse: set<int>, ss: seq<Span>, i: nat, u: bool)
    requires Placed(f, ss) && Linked(f, hs, next, prev, inUse, ss) && i < |ss|
    ensures var ss' := ss[i := ss[i].(used := u)];
      Placed(f, ss') && Linked(f, hs, next, prev, if u then inUse + {hs[i]} else inUse - {hs[i]}, ss')
  {
    HeaderPlace(f, hs, ss, i);
    HeadersDiffer(f, hs, ss);
    FlagChanged(f, hs, inUse, ss, i, u);
  }

  /** Area i cut into its first 'size' bytes and, behind a header, the rest. */
  function Halves(s: Span, size: int): seq<Span> {
    [Span(s.at, size, s.used), Span(s.at + size + UNIT, s.size - size - UNIT, false)]
  }

  lemma PlacedHalves(f: Frame, ss: seq<Span>, i: nat, size: int)
    requires Placed(f, ss) && i < |ss| && Aligned(size) && MIN_FRAGMENT <= size && size + UNIT + MIN_FRAGMENT <= ss[i].size
    ensures Placed(f, Splice(ss, i, i + 1, Halves(ss[i], size)))
  {
    var mid := Halves(ss[i], size);
    assert Tiled(mid, ss[i].at, End(ss[i]));
    TiledSplice(ss, f.base, f.limit, i, i + 1, mid);
    AlignedSum(ss[i].at, size);
    AlignedSum(ss[i].at + size, UNIT);
    var r := Splice(ss, i, i + 1, mid);
    forall j | 0 <= j < |r| ensures Aligned(r[j].at) {
      assert r[j] == if j < i then ss[j] else if j < i + 2 then mid[j - i] else ss[j - 1];
    }
  }

  lemma RingInsert(f: Frame, hs: seq<int>, next: map<int, int>, prev: map<int, int>, i: nat, ent: int)
    requires Ring(f, hs, next, prev) && Distinct(hs) && i + 1 < |hs| && ent !in hs
    ensures Ring(f, hs[..i + 1] + [ent] + hs[i + 1..], next[ent := hs[i + 1]][hs[i] := ent], prev[ent := hs[i]][hs[i + 1] := ent])
  {
    var hs' := hs[..i + 1] + [ent] + hs[i + 1..];
    var next' := next[ent := hs[i + 1]][hs[i] := ent];
    var prev' := prev[ent := hs[i]][hs[i + 1] := ent];
    assert hs'[0] == hs[0] != hs[i + 1] && hs[0] != ent && hs'[|hs'| - 1] == hs[|hs| - 1];
    forall a | 0 <= a < |hs'| - 1 ensures Link(next', prev', hs', a) {
      if a < i {
        assert Link(next, prev, hs, a);
        assert hs'[a] == hs[a] && hs'[a + 1] == hs[a + 1];
      } else if a > i + 1 {
        assert Link(next, prev, hs, a - 1);
        assert hs'[a] == hs[a - 1] && hs'[a + 1] == hs[a];
      }
    }
  }

  lemma FlagInsert(f: Frame, hs: seq<int>, inUse: set<int>, ss: seq<Span>, i: nat, ent: int, mid: seq<Span>)
    requires Flagged(f, hs, inUse, ss) && InFront(hs, ss) && i < |ss| && ent !in hs && ent != f.before && ent != f.last
    requires |mid| == 2 && mid[0].at == ss[i].at && mid[0].used == ss[i].used && !mid[1].used && mid[1].at == ent + UNIT
    ensures var hs', ss' := hs[..i + 1] + [ent] + hs[i + 1..], Splice(ss, i, i + 1, mid);
      Flagged(f, hs', inUse - {ent}, ss') && InFront(hs', ss')
  {
    var hs', ss' := hs[..i + 1] + [ent] + hs[i + 1..], Splice(ss, i, i + 1, mid);
    forall a | 0 <= a < |ss'| ensures (ss'[a].used <==> hs'[a] in inUse - {ent}) && (a > 0 ==> hs'[a] == ss'[a].at - UNIT) {
      var o := if a <= i then a else a - 1;
      assert a != i + 1 ==> hs'[a] == hs[o];
      assert a < i || a > i + 1 ==> ss'[a] == ss[o];
      assert hs[o] != ent;
    }
  }

  /** knl_insertAreaQue puts a header between hs[i] and hs[i + 1]. */
  lemma LinkedInsert(f: Frame, hs: seq<int>, next: map<int, int>, prev: map<int, int>, inUse: set<int>, ss: seq<Span>, i: nat, size: int, ent: int)
    requires Placed(f, ss) && Linked(f, hs, next, prev, inUse, ss) && i < |ss|
    requires MIN_FRAGMENT <= size && size + UNIT + MIN_FRAGMENT <= ss[i].size && ent == ss[i].at + size
    ensures Linked(f, hs[..i + 1] + [ent] + hs[i + 1..], next[ent := hs[i + 1]][hs[i] := ent], prev[ent := hs[i]][hs[i + 1] := ent], inUse - {ent},
                   Splice(ss, i, i + 1, Halves(ss[i], size)))
  {
    NewHeader(f, hs, ss, i, size, ent);
    HeadersDiffer(f, hs, ss);
    RingInsert(f, hs, next, prev, i, ent);
    FlagInsert(f, hs, inUse, ss, i, ent, Halves(ss[i], size));
  }

  /** The new header is not one of the old ones. */
  lemma NewHeader(f: Frame, hs: seq<int>, ss: seq<Span>, i: nat, size: int, ent: int)
    requires Placed(f, ss) && InFront(hs, ss) && hs[0] == f.first && hs[|ss|] == f.last && i < |ss|
    requires MIN_FRAGMENT <= size && size + UNIT + MIN_FRAGMENT <= ss[i].size && ent == ss[i].at + size
    ensures ent != f.first && ent != f.last && ent != f.before && ent !in hs
  {
    TiledWithin(ss, f.base, f.limit, i);
    forall j | 0 < j < |ss| ensures hs[j] != ent {
      if j < i { TiledOrder(ss, f.base, f.limit, j, i); }
      if j > i { TiledOrder(ss, f.base, f.limit, i, j); }
    }
  }

  /** Areas i and i + 1 made one. */
  function Joined(ss: seq<Span>, i: nat): seq<Span>
    requires i + 1 < |ss|
  {
    Splice(ss, i, i + 2, [Span(ss[i].at, End(ss[i + 1]) - ss[i].at, ss[i].used)])
  }

  lemma PlacedJoined(f: Frame, ss: seq<Span>, i: nat)
    requires Placed(f, ss) && i + 1 < |ss|
    ensures Placed(f, Joined(ss, i))
  {
    var s := Span(ss[i].at, End(ss[i + 1]) - ss[i].at, ss[i].used);
    assert ss[i + 1].at == End(ss[i]) + UNIT;
    TiledOne(s);
    TiledSplice(ss, f.base, f.limit, i, i + 2, [s]);
    var r := Joined(ss, i);
    forall j | 0 <= j < |r| ensures Aligned(r[j].at) {
      assert r[j].at == if j <= i then ss[j].at else ss[j + 1].at;
    }
  }

  lemma RingRemove(f: Frame, hs: seq<int>, next: map<int, int>, prev: map<int, int>, i: nat)
    requires Ring(f, hs, next, prev) && Distinct(hs) && i + 2 < |hs|
    ensures Ring(f, hs[..i + 1] + hs[i + 2..], next[hs[i] := hs[i + 2]], prev[hs[i + 2] := hs[i]])
  {
    var hs' := hs[..i + 1] + hs[i + 2..];
    var next', prev' := next[hs[i] := hs[i + 2]], prev[hs[i + 2] := hs[i]];
    assert hs'[0] == hs[0] != hs[i + 2] && hs'[|hs'| - 1] == hs[|hs| - 1];
    forall a | 0 <= a < |hs'| - 1 ensures Link(next', prev', hs', a) {
      if a < i {
        assert Link(next, prev, hs, a);
        assert hs'[a] == hs[a] && hs'[a + 1] == hs[a + 1];
      } else if a > i {
        assert Link(next, prev, hs, a + 1);
        assert hs'[a] == hs[a + 1] && hs'[a + 1] == hs[a + 2];
      } else {
        assert Link(next, prev, hs, i) && Link(next, prev, hs, i + 1);
      }
    }
  }

  lemma FlagRemove(f: Frame, hs: seq<int>, inUse: set<int>, ss: seq<Span>, i: nat)
    requires Flagged(f, hs, inUse, ss) && InFront(hs, ss) && i + 1 < |ss|
    ensures var hs' := hs[..i + 1] + hs[i + 2..]; Flagged(f, hs', inUse, Joined(ss, i)) && InFront(hs', Joined(ss, i))
  {
    var hs', ss' := hs[..i + 1] + hs[i + 2..], Joined(ss, i);
    forall a | 0 <= a < |ss'| ensures (ss'[a].used <==> hs'[a] in inUse) && (a > 0 ==> hs'[a] == ss'[a].at - UNIT) {
      var o := if a <= i then a else a + 1;
      assert hs'[a] == hs[o] && ss'[a].used == ss[o].used && ss'[a].at == ss[o].at;
    }
  }

  /** knl_removeAreaQue takes the header hs[i + 1] out. */
  lemma LinkedRemove(f: Frame, hs: seq<int>, next: map<int, int>, prev: map<int, int>, inUse: set<int>, ss: seq<Span>, i: nat)
    requires Placed(f, ss) && Linked(f, hs, next, prev, inUse, ss) && i + 1 < |ss|
    ensures Linked(f, hs[..i + 1] + hs[i + 2..], next[hs[i] := hs[i + 2]], prev[hs[i + 2] := hs[i]], inUse, Joined(ss, i))
  {
    HeadersDiffer(f, hs, ss);
    RingRemove(f, hs, next, prev, i);
    FlagRemove(f, hs, inUse, ss, i);
  }
}
