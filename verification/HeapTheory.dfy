/** What allocating and freeing do to the areas: nothing overlaps, nothing is lost, no two free
    areas stay neighbours. */
module HeapTheory {
  import opened HeapSpec
  import opened HeapLinks

  /** Area s with its first 'size' bytes taken; a rest too small for an area goes with them. */
  function Taken(s: Span, size: int): seq<Span> {
    if s.size - size >= MIN_FRAGMENT + UNIT then [Span(s.at, size, true), Span(s.at + size + UNIT, s.size - size - UNIT, false)]
    else [Span(s.at, s.size, true)]
  }

  function Allocated(ss: seq<Span>, i: nat, size: int): seq<Span>
    requires i < |ss|
  {
    Splice(ss, i, i + 1, Taken(ss[i], size))
  }

  /** The range of areas that freeing area i makes one. */
  function Lo(ss: seq<Span>, i: nat): (l: nat)
    requires i < |ss|
    ensures l <= i <= l + 1 && (l < i ==> !ss[l].used)
  {
    if i > 0 && !ss[i - 1].used then i - 1 else i
  }

  function Hi(ss: seq<Span>, i: nat): (h: nat)
    requires i < |ss|
    ensures i < h <= |ss| && h <= i + 2 && (i + 1 < h ==> !ss[i + 1].used)
  {
    if i + 1 < |ss| && !ss[i + 1].used then i + 2 else i + 1
  }

  function Merged(ss: seq<Span>, l: nat, h: nat): Span
    requires l < h <= |ss|
  {
    Span(ss[l].at, End(ss[h - 1]) - ss[l].at, false)
  }

  /** Area i freed and made one with its free neighbours. */
  function Freed(ss: seq<Span>, i: nat): seq<Span>
    requires i < |ss|
  {
    Splice(ss, Lo(ss, i), Hi(ss, i), [Merged(ss, Lo(ss, i), Hi(ss, i))])
  }

  lemma AllocatedTiled(ss: seq<Span>, lo: int, hi: int, i: nat, size: int)
    requires Tiled(ss, lo, hi) && i < |ss| && MIN_FRAGMENT <= size <= ss[i].size
    ensures Tiled(Allocated(ss, i, size), lo, hi)
  {
    assert Tiled(Taken(ss[i], size), ss[i].at, End(ss[i]));
    TiledSplice(ss, lo, hi, i, i + 1, Taken(ss[i], size));
  }

  lemma AllocatedCoalesced(ss: seq<Span>, i: nat, size: int)
    requires Coalesced(ss) && i < |ss| && !ss[i].used
    ensures Coalesced(Allocated(ss, i, size))
  {
    var r, d := Allocated(ss, i, size), |Taken(ss[i], size)| - 1;
    forall k, l | 0 <= k < l == k + 1 < |r| ensures r[k].used || r[l].used {
      assert r[i].used;
      if k < i {
        assert r[k] == ss[k];
      } else if k > i {
        assert r[l] == ss[l - d] && r[k].used == ss[k - d].used;
        assert ss[k - d].used || ss[l - d].used;
      }
    }
  }

  lemma Exchange(before: multiset<Block>, after: multiset<Block>, others: multiset<Block>, x: multiset<Block>, y: multiset<Block>)
    requires before == others + x && after == others + y
    ensures after + x == before + y
  {
  }

  /** Area i replaced by others. */
  lemma SelForOne(ss: seq<Span>, i: nat, t: seq<Span>, u: bool)
    requires i < |ss|
    ensures Sel(Splice(ss, i, i + 1, t), u) + Only(ss[i], u) == Sel(ss, u) + Sel(t, u)
  {
    var others := SelSplice(ss, i, i + 1, [ss[i]], t, u);
    SelOne(ss[i], u);
    Exchange(Sel(ss, u), Sel(Splice(ss, i, i + 1, t), u), others, Only(ss[i], u), Sel(t, u));
  }

  lemma TakenBlocks(s: Span, size: int)
    requires !s.used
    ensures Sel(Taken(s, size), true) == Only(Taken(s, size)[0], true) && Sel(Taken(s, size), false) == Rest(s, size)
  {
    var t := Taken(s, size);
    if |t| == 2 {
      SelTwo(t[0], t[1], true);
      SelTwo(t[0], t[1], false);
    } else {
      SelOne(t[0], true);
      SelOne(t[0], false);
    }
  }

  /** The block handed out comes out of a free area; the areas in use are those before and it,
      the free ones those before without that area but with its rest. */
  lemma AllocatedBlocks(ss: seq<Span>, i: nat, size: int)
    requires i < |ss| && !ss[i].used
    ensures Sel(Allocated(ss, i, size), true) == Sel(ss, true) + Only(Taken(ss[i], size)[0], true)
    ensures Sel(Allocated(ss, i, size), false) + Only(ss[i], false) == Sel(ss, false) + Rest(ss[i], size)
  {
    SelForOne(ss, i, Taken(ss[i], size), true);
    SelForOne(ss, i, Taken(ss[i], size), false);
    TakenBlocks(ss[i], size);
    assert Only(ss[i], true) == multiset{};
  }

  /** What stays free of a free area when a block is taken from it. */
  function Rest(s: Span, size: int): multiset<Block> {
    if s.size - size >= MIN_FRAGMENT + UNIT then multiset{(s.at + size + UNIT, s.size - size - UNIT)} else multiset{}
  }

  /** The second half of a divided free area is the next area, free, and what is left of the first. */
  lemma SecondHalf(ss: seq<Span>, i: nat, size: int)
    requires i < |ss| && !ss[i].used && size + UNIT + MIN_FRAGMENT <= ss[i].size
    ensures var r := Splice(ss, i, i + 1, Halves(ss[i], size));
      i + 1 < |r| && !r[i + 1].used && multiset{(r[i + 1].at, r[i + 1].size)} == Rest(ss[i], size)
  {
    assert Splice(ss, i, i + 1, Halves(ss[i], size))[i + 1] == Halves(ss[i], size)[1];
  }

  /** A block handed out has the bytes asked for, and shares none with a block in use. */
  lemma AllocatedApart(ss: seq<Span>, lo: int, hi: int, i: nat, size: int, b: Block)
    requires Tiled(ss, lo, hi) && i < |ss| && !ss[i].used && MIN_FRAGMENT <= size <= ss[i].size && b in Sel(ss, true)
    ensures var s := Allocated(ss, i, size)[i];
      && s.used && s.at == ss[i].at && size <= s.size < size + MIN_FRAGMENT + UNIT && lo <= s.at && End(s) <= hi
      && (b.0 + b.1 + UNIT <= s.at || End(s) + UNIT <= b.0)
  {
    SelMember(ss, true, b);
    var j :| 0 <= j < |ss| && ss[j].used && b == (ss[j].at, ss[j].size);
    TiledWithin(ss, lo, hi, i);
    if j < i { TiledOrder(ss, lo, hi, j, i); } else { TiledOrder(ss, lo, hi, i, j); }
  }

  lemma JoinTiled(ss: seq<Span>, lo: int, hi: int, l: nat, h: nat)
    requires Tiled(ss, lo, hi) && l < h <= |ss|
    ensures Tiled(Splice(ss, l, h, [Merged(ss, l, h)]), lo, hi)
  {
    if l < h - 1 { TiledOrder(ss, lo, hi, l, h - 1); }
    TiledOne(Merged(ss, l, h));
    TiledSplice(ss, lo, hi, l, h, [Merged(ss, l, h)]);
  }

  lemma FreedTiled(ss: seq<Span>, lo: int, hi: int, i: nat)
    requires Tiled(ss, lo, hi) && i < |ss|
    ensures Tiled(Freed(ss, i), lo, hi)
  {
    JoinTiled(ss, lo, hi, Lo(ss, i), Hi(ss, i));
  }

  lemma FreedCoalesced(ss: seq<Span>, i: nat)
    requires Coalesced(ss) && i < |ss| && ss[i].used
    ensures Coalesced(Freed(ss, i))
  {
    var lo, hi, r := Lo(ss, i), Hi(ss, i), Freed(ss, i);
    var d := hi - lo - 1;
    forall k, l | 0 <= k < l == k + 1 < |r| ensures r[k].used || r[l].used {
      if l < lo {
        assert r[k] == ss[k] && r[l] == ss[l];
      } else if l == lo {
        assert r[k] == ss[k] && ss[k].used;
      } else if k == lo {
        assert r[l] == ss[hi] && ss[hi].used;
      } else {
        assert r[k] == ss[k + d] && r[l] == ss[l + d];
      }
    }
  }

  lemma {:induction false} SelUnused(a: seq<Span>)
    requires forall k :: 0 <= k < |a| ==> !a[k].used
    ensures Sel(a, true) == multiset{}
  {
    if a != [] { SelUnused(a[1..]); }
  }

  /** Of an area in use and free neighbours, only it is in use. */
  lemma SelAround(a: seq<Span>, s: Span, b: seq<Span>)
    requires s.used && (forall k :: 0 <= k < |a| ==> !a[k].used) && (forall k :: 0 <= k < |b| ==> !b[k].used)
    ensures Sel(a + [s] + b, true) == multiset{(s.at, s.size)}
  {
    SelMiddle(a, [s], b, true);
    SelOne(s, true);
    SelUnused(a);
    SelUnused(b);
  }

  /** Freeing takes exactly that block from the blocks in use. */
  lemma FreedBlocks(ss: seq<Span>, i: nat)
    requires i < |ss| && ss[i].used
    ensures Sel(Freed(ss, i), true) + multiset{(ss[i].at, ss[i].size)} == Sel(ss, true)
  {
    var l, h := Lo(ss, i), Hi(ss, i);
    SelUnused([Merged(ss, l, h)]);
    SelAround(ss[l..i], ss[i], ss[i + 1..h]);
    var others := SelSplice(ss, l, h, ss[l..i] + [ss[i]] + ss[i + 1..h], [Merged(ss, l, h)], true);
    Exchange(Sel(ss, true), Sel(Freed(ss, i), true), others, multiset{(ss[i].at, ss[i].size)}, multiset{});
  }

  /** Freeing a block just handed out brings back the areas as they were. */
  lemma AllocateFreeRoundTrip(ss: seq<Span>, lo: int, hi: int, i: nat, size: int)
    requires Tiled(ss, lo, hi) && Coalesced(ss) && i < |ss| && !ss[i].used
    ensures Freed(Allocated(ss, i, size), i) == ss
  {
    var a, d := Allocated(ss, i, size), |Taken(ss[i], size)| - 1;
    if i > 0 { assert a[i - 1] == ss[i - 1] && ss[i - 1].used; }
    if i + 1 < |ss| { assert a[i + 1 + d] == ss[i + 1] && ss[i + 1].used; }
    var r := Freed(a, i);
    assert |r| == |ss| && r[i] == ss[i];
    forall k | 0 <= k < |ss| ensures r[k] == ss[k] {
    }
  }

  /** The areas with area i marked free. */
  lemma SelMarked(ss: seq<Span>, i: nat)
    requires i < |ss| && ss[i].used
    ensures Sel(ss[i := ss[i].(used := false)], false) == Sel(ss, false) + multiset{(ss[i].at, ss[i].size)}
  {
    var t := ss[i].(used := false);
    SelForOne(ss, i, [t], false);
    SelOne(t, false);
    assert Splice(ss, i, i + 1, [t]) == ss[i := t];
  }

  lemma JoinedBlocks(ss: seq<Span>, i: nat) returns (others: multiset<Block>)
    requires i + 1 < |ss| && !ss[i].used && !ss[i + 1].used
    ensures Sel(ss, false) == others + multiset{(ss[i].at, ss[i].size)} + multiset{(ss[i + 1].at, ss[i + 1].size)}
    ensures Sel(Joined(ss, i), false) == others + multiset{(ss[i].at, End(ss[i + 1]) - ss[i].at)}
  {
    var s := Span(ss[i].at, End(ss[i + 1]) - ss[i].at, ss[i].used);
    others := SelSplice(ss, i, i + 2, [ss[i], ss[i + 1]], [s], false);
    SelTwo(ss[i], ss[i + 1], false);
    SelOne(s, false);
  }

  /** With all free areas but one of i, i + 1 listed in l: joining them takes the listed one, j, out. */
  lemma MergedBlocks(ss: seq<Span>, i: nat, j: nat, l: multiset<Block>) returns (others: multiset<Block>)
    requires i + 1 < |ss| && !ss[i].used && !ss[i + 1].used && i <= j <= i + 1
    requires var o := if j == i then i + 1 else i; Sel(ss, false) == l + multiset{(ss[o].at, ss[o].size)}
    ensures l == others + multiset{(ss[j].at, ss[j].size)} && (ss[j].at, ss[j].size) in l && l <= Sel(ss, false)
    ensures Sel(Joined(ss, i), false) == others + multiset{(ss[i].at, End(ss[i + 1]) - ss[i].at)}
  {
    others := JoinedBlocks(ss, i);
    var x, y := multiset{(ss[i].at, ss[i].size)}, multiset{(ss[i + 1].at, ss[i + 1].size)};
    DropOne(l, others, if j == i then y else x, if j == i then x else y);
  }

  lemma DropOne(l: multiset<Block>, others: multiset<Block>, x: multiset<Block>, y: multiset<Block>)
    requires l + x == others + x + y || l + x == others + y + x
    ensures l == others + y
  {
    assert l == (l + x) - x;
    assert others + y == (others + x + y) - x;
  }

  lemma DropLast(a: multiset<Block>, b: multiset<Block>, y: multiset<Block>, l: multiset<Block>)
    requires l == a + y && l == b + y
    ensures a == b
  {
    assert a == l - y && b == l - y;
  }

  /** The steps of Allocated: split, then mark. */
  lemma TakenSpans(ss: seq<Span>, i: nat, size: int)
    requires i < |ss| && !ss[i].used
    ensures var s := if ss[i].size - size >= MIN_FRAGMENT + UNIT then Splice(ss, i, i + 1, Halves(ss[i], size)) else ss;
      i < |s| && s[i := s[i].(used := true)] == Allocated(ss, i, size)
  {
  }

  /** The steps of Freed: join with the area behind, then with the one in front. */
  function JoinedNext(ss: seq<Span>, n: nat): (r: seq<Span>)
    requires n < |ss|
    ensures n < |r|
  {
    if n + 1 < |ss| && !ss[n + 1].used then Joined(ss, n) else ss
  }

  function JoinedPrev(ss: seq<Span>, n: nat): seq<Span>
    requires n < |ss|
  {
    if n > 0 && !ss[n - 1].used then Joined(ss, n - 1) else ss
  }

  lemma FreedSteps(ss: seq<Span>, n: nat)
    requires n < |ss|
    ensures n < |JoinedNext(ss[n := ss[n].(used := false)], n)|
    ensures JoinedPrev(JoinedNext(ss[n := ss[n].(used := false)], n), n) == Freed(ss, n)
  {
    var t, r := JoinedPrev(JoinedNext(ss[n := ss[n].(used := false)], n), n), Freed(ss, n);
    assert |t| == |r|;
    forall k | 0 <= k < |t| ensures t[k] == r[k] {
    }
  }
}
