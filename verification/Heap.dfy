/** The kernel's allocators, changed in place (kernel/tkernel/memory.c; the variable memory pool of
    kernel/tkernel/mempool.c uses the same lists with its first and last header elsewhere). */
module HeapKernel {
  import opened Options
  import opened HeapSpec
  import opened HeapLinks
  import opened HeapTheory

  lemma Settle(l: multiset<Block>, l0: multiset<Block>, x: multiset<Block>, s: multiset<Block>, a: multiset<Block>, r: multiset<Block>)
    requires s == l0 + x && l == l0 + r && a + x == s + r
    ensures a == l
  {
    assert a == (a + x) - x && l == (l + x) - x;
    assert l + x == s + r;
  }

  /** roundSize. */
  method RoundSize(size: int) returns (r: int)
    requires 0 < size <= MAX_ALLOCATE
    ensures r == Rounded(size) && size <= r && MIN_FRAGMENT <= r && Aligned(r)
  {
    RoundedFits(size);
    var sz := if size < MIN_FRAGMENT then MIN_FRAGMENT else size;
    r := (sz + (UNIT - 1)) / UNIT * UNIT;
  }

  class Heap {
    const f: Frame
    var next: map<int, int>
    var prev: map<int, int>
    var inUse: set<int>
    var freeq: seq<Group>
    ghost var hs: seq<int>
    ghost var spans: seq<Span>

    ghost predicate Core()
      reads this
    {
      Placed(f, spans) && Linked(f, hs, next, prev, inUse, spans) && Sorted(freeq)
    }

    /** The areas tile the region, no two neighbours are free, and the free queue lists exactly the
        free ones. */
    ghost predicate Valid()
      reads this
    {
      Core() && Coalesced(spans) && Listed(freeq) == Sel(spans, false)
    }

    /** initIMACB and knl_init_Imalloc, or init_mempool: one area, which is free. */
    constructor (frame: Frame)
      requires Framed(frame) && frame.limit - frame.base >= MIN_FRAGMENT && frame.before != frame.first
      ensures Valid() && f == frame && spans == [Span(frame.base, frame.limit - frame.base, false)]
    {
      f := frame;
      next := map[frame.first := frame.last];
      prev := map[frame.first := frame.before][frame.last := frame.first];
      inUse := {frame.last, frame.before};
      freeq := [Group(frame.limit - frame.base, [frame.base])];
      hs := [frame.first, frame.last];
      spans := [Span(frame.base, frame.limit - frame.base, false)];
      new;
      assert Link(next, prev, hs, 0);
      SelOne(spans[0], false);
      ListedOne(freeq[0]);
      ChainedOne(freeq[0].size, frame.base);
    }

    /** knl_searchFreeArea: from the small end, or, for large blocks, from the large end. */
    method SearchFreeArea(blksz: int) returns (k: nat)
      requires Sorted(freeq)
      ensures FirstFit(freeq, blksz, k)
    {
      if blksz > (f.limit - f.base) / 4 {
        var q, fsz := |freeq|, 0;
        while q != 0
          invariant 0 <= q <= |freeq| && fsz == (if q < |freeq| then freeq[q].size else 0)
          invariant forall i :: q <= i < |freeq| ==> freeq[i].size > blksz
        {
          q := q - 1;
          fsz := freeq[q].size;
          if fsz <= blksz { return if fsz < blksz then q + 1 else q; }
        }
        return if fsz >= blksz then 0 else |freeq|;
      }
      k := 0;
      while k < |freeq| && freeq[k].size < blksz
        invariant 0 <= k <= |freeq| && forall i :: 0 <= i < k ==> freeq[i].size < blksz
      {
        k := k + 1;
      }
    }

    /** Queue the free area at q: behind the first of its size, or as a new size. */
    method Register(q: int, size: int)
      requires Sorted(freeq)
      modifies this`freeq
      ensures Sorted(freeq) && Listed(freeq) == Listed(old(freeq)) + multiset{(q, size)}
    {
      var k := SearchFreeArea(size);
      InsertedSorted(freeq, k, q, size);
      InsertedListed(freeq, k, q, size);
      if k < |freeq| && freeq[k].size == size {
        var c := freeq[k].chain;
        freeq := freeq[..k] + [Group(size, [c[0], q] + c[1..])] + freeq[k + 1..];
      } else {
        freeq := freeq[..k] + [Group(size, [q])] + freeq[k..];
      }
    }

    /** Where area i begins and ends, from its header and the next. */
    lemma Ends(i: nat)
      requires Core() && i < |spans|
      ensures hs[i] in next && TopOf(f, hs[i]) == spans[i].at && EndOf(f, next[hs[i]]) == End(spans[i])
      ensures hs[i] == f.first <==> i == 0
      ensures next[hs[i]] == f.last <==> i == |spans| - 1
    {
      HeaderPlace(f, hs, spans, i);
      assert Link(next, prev, hs, i);
    }

    /** knl_appendFreeArea, for an area whose header and end lie next to it. */
    method AppendFreeArea(aq: int, ghost i: nat)
      requires Core() && i < |spans| && hs[i] == aq && aq in next
      requires (i > 0 || f.first == f.base - UNIT) && (i < |spans| - 1 || f.last == f.limit)
      modifies this`freeq, this`inUse, this`spans
      ensures Core() && spans == old(spans)[i := old(spans)[i].(used := false)]
      ensures Listed(freeq) == Listed(old(freeq)) + multiset{(spans[i].at, spans[i].size)}
    {
      Ends(i);
      var size := next[aq] - (aq + UNIT);
      Register(aq + UNIT, size);
      ClrAreaFlag(aq, i);
    }

    /** knl_appendFreeAreaBound, for any area of a pool. */
    method AppendFreeAreaBound(aq: int, ghost i: nat)
      requires Core() && i < |spans| && hs[i] == aq && aq in next
      modifies this`freeq, this`inUse, this`spans
      ensures Core() && spans == old(spans)[i := old(spans)[i].(used := false)]
      ensures Listed(freeq) == Listed(old(freeq)) + multiset{(spans[i].at, spans[i].size)}
    {
      Ends(i);
      var top := if aq == f.first then f.base else aq + UNIT;
      var end := if next[aq] == f.last then f.limit else next[aq];
      Register(top, end - top);
      ClrAreaFlag(aq, i);
    }

    /** The choice between the two that knl_get_blk and knl_rel_blk make. */
    method Append(aq: int, ghost i: nat)
      requires Core() && i < |spans| && hs[i] == aq && aq in next
      modifies this`freeq, this`inUse, this`spans
      ensures Core() && spans == old(spans)[i := old(spans)[i].(used := false)]
      ensures !old(spans)[i].used ==> spans == old(spans)
      ensures Listed(freeq) == Listed(old(freeq)) + multiset{(spans[i].at, spans[i].size)}
    {
      Ends(i);
      ghost var was := spans;
      if f.bound && (aq == f.first || next[aq] == f.last) {
        AppendFreeAreaBound(aq, i);
      } else {
        AppendFreeArea(aq, i);
      }
      assert !was[i].used ==> was[i := was[i].(used := false)] == was;
    }

    /** knl_removeFreeQue: out of its chain, or, as the first of its size, replaced by the next. */
    method RemoveFreeQue(q: int, ghost i: nat)
      requires Core() && i < |spans| && spans[i].at == q && (q, spans[i].size) in Listed(freeq)
      requires Listed(freeq) <= Sel(spans, false)
      modifies this`freeq
      ensures Sorted(freeq) && Listed(old(freeq)) == Listed(freeq) + multiset{(q, spans[i].size)}
    {
      forall s | (q, s) in Listed(freeq) ensures s == spans[i].size {
        StartsDiffer(spans, f.base, f.limit, i, s);
      }
      RemovedSorted(freeq, q);
      RemovedListed(freeq, q, spans[i].size);
      ghost var k0 := RemovedGroup(freeq, q, spans[i].size);
      var k := GroupOf(freeq, q);
      var c := freeq[k].chain;
      var p := PlaceOf(c, q);
      if p > 0 || |c| > 1 {
        freeq := freeq[..k] + [Group(freeq[k].size, c[..p] + c[p + 1..])] + freeq[k + 1..];
      } else {
        freeq := freeq[..k] + [] + freeq[k + 1..];
      }
    }

    /** knl_insertAreaQue: a header 'ent' in area i, after its first 'size' bytes. */
    method InsertAreaQue(que: int, ent: int, ghost i: nat, ghost size: int)
      requires Core() && i < |spans| && hs[i] == que && que in next && next[que] in prev && Aligned(size)
      requires MIN_FRAGMENT <= size && size + UNIT + MIN_FRAGMENT <= spans[i].size && ent == spans[i].at + size
      modifies this`next, this`prev, this`inUse, this`hs, this`spans
      ensures Core() && spans == Splice(old(spans), i, i + 1, Halves(old(spans)[i], size))
      ensures |hs| > i + 1 && hs[i] == que && hs[i + 1] == ent && que in next && ent in next
    {
      LinkedInsert(f, hs, next, prev, inUse, spans, i, size, ent);
      PlacedHalves(f, spans, i, size);
      assert Link(next, prev, hs, i);
      var after := next[que];
      prev := prev[ent := que];
      inUse := inUse - {ent};
      next := next[ent := after];
      prev := prev[after := ent];
      next := next[que := ent];
      hs := hs[..i + 1] + [ent] + hs[i + 1..];
      spans := Splice(spans, i, i + 1, Halves(spans[i], size));
      assert Link(next, prev, hs, i) && Link(next, prev, hs, i + 1);
    }

    /** knl_removeAreaQue: area i + 1 becomes part of area i. */
    method RemoveAreaQue(aq: int, ghost i: nat)
      requires Core() && i + 1 < |spans| && hs[i + 1] == aq
      requires aq in next && aq in prev && next[aq] in prev
      modifies this`next, this`prev, this`hs, this`spans
      ensures Core() && spans == Joined(old(spans), i) && hs[i] == old(hs[i]) && hs[i] in next
    {
      LinkedRemove(f, hs, next, prev, inUse, spans, i);
      PlacedJoined(f, spans, i);
      assert Link(next, prev, hs, i) && Link(next, prev, hs, i + 1);
      var before, after := prev[aq], next[aq];
      next := next[before := after];
      prev := prev[after := before];
      hs := hs[..i + 1] + hs[i + 2..];
      spans := Joined(spans, i);
      assert Link(next, prev, hs, i);
    }

    /** The links at area i, for the code to follow. */
    lemma Links(i: nat)
      requires Core() && i < |spans|
      ensures hs[i] in next && next[hs[i]] == hs[i + 1] && hs[i + 1] in prev && prev[hs[i + 1]] == hs[i]
      ensures TopOf(f, hs[i]) == spans[i].at && HeaderOf(f, spans[i].at) == hs[i] && hs[i] in prev
      ensures i + 1 < |spans| ==> next[hs[i]] in next && TopOf(f, hs[i + 1]) == hs[i + 1] + UNIT == spans[i + 1].at
      ensures prev[hs[i]] == (if i > 0 then hs[i - 1] else f.before)
      ensures prev[hs[i]] in inUse <==> i == 0 || spans[i - 1].used
      ensures next[hs[i]] in inUse <==> i + 1 == |spans| || spans[i + 1].used
    {
      HeaderPlace(f, hs, spans, i);
      assert Link(next, prev, hs, i);
      if i > 0 { assert Link(next, prev, hs, i - 1); }
      if i + 1 < |spans| {
        HeaderPlace(f, hs, spans, i + 1);
        assert Link(next, prev, hs, i + 1);
      }
    }

    method SetAreaFlag(aq: int, ghost i: nat)
      requires Core() && i < |spans| && hs[i] == aq
      modifies this`inUse, this`spans
      ensures Core() && spans == old(spans)[i := old(spans)[i].(used := true)]
    {
      LinkedFlag(f, hs, next, prev, inUse, spans, i, true);
      inUse := inUse + {aq};
      spans := spans[i := spans[i].(used := true)];
    }

    method ClrAreaFlag(aq: int, ghost i: nat)
      requires Core() && i < |spans| && hs[i] == aq
      modifies this`inUse, this`spans
      ensures Core() && spans == old(spans)[i := old(spans)[i].(used := false)]
    {
      LinkedFlag(f, hs, next, prev, inUse, spans, i, false);
      inUse := inUse - {aq};
      spans := spans[i := spans[i].(used := false)];
    }

    /** Best fit: knl_Imalloc on a rounded size, and knl_get_blk. */
    method GetBlk(blksz: int) returns (r: Option<int>, ghost i: nat)
      requires Valid() && Aligned(blksz) && blksz >= MIN_FRAGMENT
      modifies this
      ensures Valid()
      // it fails only when no free area is large enough, and then changes nothing
      ensures r.None? <==> forall b :: b in Sel(old(spans), false) ==> b.1 < blksz
      ensures r.None? ==> spans == old(spans) && freeq == old(freeq) && next == old(next) && prev == old(prev) && inUse == old(inUse)
      // otherwise the block comes from the smallest free area large enough
      ensures r.Some? ==>
        && i < |old(spans)| && r.value == old(spans)[i].at && !old(spans)[i].used && blksz <= old(spans)[i].size
        && spans == Allocated(old(spans), i, blksz)
        && forall b :: b in Sel(old(spans), false) && b.1 >= blksz ==> old(spans)[i].size <= b.1
    {
      var k := SearchFreeArea(blksz);
      Best(freeq, blksz, k);
      i := 0;
      if k == |freeq| { return None, i; }
      var q, fsz := freeq[k].chain[0], freeq[k].size;
      HeadListed(freeq, k);
      i := Locate(spans, q, fsz);
      Take(q, fsz, blksz, i);
      r := Some(q);
    }

    /** Take the free area at q out of the free queue, split off what the block does not need, and
        mark the block in use. */
    method Take(q: int, fsz: int, blksz: int, ghost i: nat)
      requires Valid() && i < |spans| && spans[i] == Span(q, fsz, false) && (q, fsz) in Listed(freeq)
      requires Aligned(blksz) && MIN_FRAGMENT <= blksz <= fsz
      modifies this
      ensures Valid() && spans == Allocated(old(spans), i, blksz)
    {
      ghost var ss := spans;
      RemoveFreeQue(q, i);
      Links(i);
      var aq := if q == f.base then f.first else q - UNIT;
      ghost var l0 := Listed(freeq);
      if fsz - blksz >= MIN_FRAGMENT + UNIT {
        Split(aq, q + blksz, i, blksz);
      }
      SetAreaFlag(aq, i);
      TakenSpans(ss, i, blksz);
      AllocatedCoalesced(ss, i, blksz);
      AllocatedBlocks(ss, i, blksz);
      Settle(Listed(freeq), l0, multiset{(q, fsz)}, Sel(ss, false), Sel(spans, false), Rest(ss[i], blksz));
    }

    /** knl_Imalloc. */
    method Imalloc(size: int) returns (r: Option<int>, ghost i: nat)
      requires Valid() && size <= MAX_ALLOCATE
      modifies this
      ensures Valid()
      ensures r.None? <==> size <= 0 || forall b :: b in Sel(old(spans), false) ==> b.1 < Rounded(size)
      ensures r.None? ==> spans == old(spans) && freeq == old(freeq)
      ensures r.Some? ==>
        && i < |old(spans)| && r.value == old(spans)[i].at && !old(spans)[i].used && size <= Rounded(size) <= old(spans)[i].size
        && spans == Allocated(old(spans), i, Rounded(size))
        && forall b :: b in Sel(old(spans), false) && b.1 >= Rounded(size) ==> old(spans)[i].size <= b.1
    {
      if size <= 0 { return None, 0; }
      var sz := RoundSize(size);
      r, i := GetBlk(sz);
    }

    /** knl_rel_blk: a block that is already free is an error. */
    method RelBlk(blk: int, ghost n: nat) returns (ok: bool)
      requires Valid() && n < |spans| && spans[n].at == blk
      modifies this
      ensures Valid() && ok == old(spans)[n].used
      ensures spans == if ok then Freed(old(spans), n) else old(spans)
      ensures !ok ==> freeq == old(freeq)
    {
      Links(n);
      var aq := if blk == f.base then f.first else blk - UNIT;
      if aq !in inUse { return false; }
      Free(blk, n);
      return true;
    }

    lemma Best(gs: seq<Group>, b: int, k: nat)
      requires Sorted(gs) && FirstFit(gs, b, k)
      ensures k == |gs| <==> forall x :: x in Listed(gs) ==> x.1 < b
      ensures k < |gs| ==> forall x :: x in Listed(gs) && x.1 >= b ==> gs[k].size <= x.1
    {
      forall x | x in Listed(gs) && x.1 >= b ensures k < |gs| && gs[k].size <= x.1 { FirstFitIsBest(gs, b, k, x); }
      if k < |gs| { HeadListed(gs, k); }
    }

    lemma Locate(ss: seq<Span>, q: int, size: int) returns (i: nat)
      requires (q, size) in Sel(ss, false)
      ensures i < |ss| && ss[i] == Span(q, size, false)
    {
      SelMember(ss, false, (q, size));
      i :| 0 <= i < |ss| && !ss[i].used && (q, size) == (ss[i].at, ss[i].size);
    }

    /** Divide the area: the part behind the block becomes a free area. */
    method Split(aq: int, aq2: int, ghost i: nat, ghost size: int)
      requires Core() && i < |spans| && hs[i] == aq && aq in next && next[aq] in prev && !spans[i].used && Aligned(size)
      requires MIN_FRAGMENT <= size && size + UNIT + MIN_FRAGMENT <= spans[i].size && aq2 == spans[i].at + size
      modifies this
      ensures Core() && spans == Splice(old(spans), i, i + 1, Halves(old(spans)[i], size)) && hs[i] == aq
      ensures Listed(freeq) == Listed(old(freeq)) + Rest(old(spans)[i], size)
    {
      ghost var was := spans;
      InsertAreaQue(aq, aq2, i, size);
      SecondHalf(was, i, size);
      Append(aq2, i + 1);
    }

    /** knl_Ifree, and knl_rel_blk past its check: free a block and join it to free neighbours. */
    method Free(blk: int, ghost n: nat)
      requires Valid() && n < |spans| && spans[n].at == blk && spans[n].used
      modifies this
      ensures Valid() && spans == Freed(old(spans), n)
    {
      FreedCoalesced(spans, n);
      var aq;
      ghost var i;
      aq, i := Unite(blk, n);
      Append(aq, i);
    }

    /** The block's area freed and made one with its free neighbours, not queued yet. */
    method Unite(blk: int, ghost n: nat) returns (aq: int, ghost i: nat)
      requires Core() && Listed(freeq) == Sel(spans, false) && n < |spans| && spans[n].at == blk && spans[n].used
      modifies this
      ensures Core() && spans == Freed(old(spans), n) && i < |spans| && hs[i] == aq && aq in next && !spans[i].used
      ensures Sel(spans, false) == Listed(freeq) + multiset{(spans[i].at, spans[i].size)}
    {
      FreedSteps(spans, n);
      aq := MarkFree(blk, n);
      aq, i := MergeBoth(aq, n);
    }

    /** The block's header, its flag cleared. */
    method MarkFree(blk: int, ghost n: nat) returns (aq: int)
      requires Core() && Listed(freeq) == Sel(spans, false) && n < |spans| && spans[n].at == blk && spans[n].used
      modifies this`inUse, this`spans
      ensures Core() && spans == old(spans)[n := old(spans)[n].(used := false)] && hs[n] == aq
      ensures Sel(spans, false) == Listed(freeq) + multiset{(spans[n].at, spans[n].size)}
    {
      Links(n);
      SelMarked(spans, n);
      aq := if blk == f.base then f.first else blk - UNIT;
      ClrAreaFlag(aq, n);
    }

    method MergeBoth(header: int, ghost n: nat) returns (aq: int, ghost i: nat)
      requires Core() && n < |spans| && hs[n] == header && !spans[n].used
      requires Sel(spans, false) == Listed(freeq) + multiset{(spans[n].at, spans[n].size)}
      modifies this
      ensures Core() && spans == JoinedPrev(JoinedNext(old(spans), n), n) && i < |spans| && hs[i] == aq && aq in next && !spans[i].used
      ensures Sel(spans, false) == Listed(freeq) + multiset{(spans[i].at, spans[i].size)}
    {
      MergeNext(header, n);
      aq, i := MergePrev(header, n);
      Links(i);
    }

    /** Merge with the free area behind, if it is free. */
    method MergeNext(aq: int, ghost n: nat)
      requires Core() && n < |spans| && hs[n] == aq && !spans[n].used
      requires Sel(spans, false) == Listed(freeq) + multiset{(spans[n].at, spans[n].size)}
      modifies this
      ensures Core() && spans == JoinedNext(old(spans), n) && hs[n] == aq
      ensures Sel(spans, false) == Listed(freeq) + multiset{(spans[n].at, spans[n].size)}
    {
      Links(n);
      if next[aq] !in inUse {
        Links(n + 1);
        Merge(aq, next[aq] + UNIT, n, n + 1);
      }
    }

    /** Merge with the free area in front, if it is free. */
    method MergePrev(header: int, ghost n: nat) returns (aq: int, ghost i: nat)
      requires Core() && n < |spans| && hs[n] == header && !spans[n].used
      requires Sel(spans, false) == Listed(freeq) + multiset{(spans[n].at, spans[n].size)}
      modifies this
      ensures Core() && i == Lo(old(spans), n) && spans == JoinedPrev(old(spans), n) && hs[i] == aq && !spans[i].used
      ensures Sel(spans, false) == Listed(freeq) + multiset{(spans[i].at, spans[i].size)}
    {
      Links(n);
      aq, i := header, n;
      if prev[aq] !in inUse {
        aq, i := prev[aq], n - 1;
        Links(i);
        Merge(aq, if aq == f.first then f.base else aq + UNIT, i, i);
      }
    }

    /** Areas i and i + 1, both free, become one; the one at 'fq', area j, leaves the free queue. */
    method Merge(aq: int, fq: int, ghost i: nat, ghost j: nat)
      requires Core() && i + 1 < |spans| && hs[i] == aq && aq in next && next[aq] in next && next[aq] in prev && next[next[aq]] in prev
      requires !spans[i].used && !spans[i + 1].used && i <= j <= i + 1 && fq == spans[j].at
      requires var o := if j == i then i + 1 else i; Sel(spans, false) == Listed(freeq) + multiset{(spans[o].at, spans[o].size)}
      modifies this`freeq, this`next, this`prev, this`hs, this`spans
      ensures Core() && spans == Joined(old(spans), i) && hs[i] == aq && aq in next
      ensures Sel(spans, false) == Listed(freeq) + multiset{(spans[i].at, spans[i].size)}
    {
      ghost var others := TakeOut(fq, i, j);
      Links(i);
      RemoveAreaQue(next[aq], i);
    }

    /** The neighbour to be joined leaves the free queue; the rest of it is what stays free. */
    method TakeOut(fq: int, ghost i: nat, ghost j: nat) returns (ghost others: multiset<Block>)
      requires Core() && i + 1 < |spans| && !spans[i].used && !spans[i + 1].used && i <= j <= i + 1 && fq == spans[j].at
      requires var o := if j == i then i + 1 else i; Sel(spans, false) == Listed(freeq) + multiset{(spans[o].at, spans[o].size)}
      modifies this`freeq
      ensures Core() && Listed(freeq) == others
      ensures Sel(Joined(spans, i), false) == others + multiset{(spans[i].at, End(spans[i + 1]) - spans[i].at)}
    {
      others := MergedBlocks(spans, i, j, Listed(freeq));
      ghost var l, y := Listed(freeq), multiset{(fq, spans[j].size)};
      RemoveFreeQue(fq, j);
      DropLast(Listed(freeq), others, y, l);
    }
  }
}
