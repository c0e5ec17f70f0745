/** The areas and the free queue of the kernel's allocators, as values
    (kernel/tkernel/memory.c, memory.h). */
module HeapSpec {

  /** sizeof(QUEUE): the header in front of an area, and the unit sizes are rounded to. */
  const UNIT := 8
  const MIN_FRAGMENT := 16
  const INT_MAX := 0x7FFF_FFFF
  const MAX_ALLOCATE := 0x7FFF_FFF8

  /** One area: the bytes at .. at + size, in use or free. */
  datatype Span = Span(at: int, size: int, used: bool)

  function End(s: Span): int {
    s.at + s.size
  }

  /** An entry of the free queue: all free areas of one size; the first of the chain is the one
      in size order, the others hang on it. */
  datatype Group = Group(size: int, chain: seq<int>)

  /** Position and size of an area. */
  type Block = (int, int)

  // ----- Rounding

  predicate Aligned(n: int) {
    n % UNIT == 0
  }

  /** The request in bytes as the allocator searches for it (knl_Imalloc, roundSize), in 32 bits
      with a sign. */
  function Rounded(size: int): (r: int)
    requires 0 < size <= INT_MAX
  {
    var sz := if size < MIN_FRAGMENT then MIN_FRAGMENT else size;
    var up := (sz + (UNIT - 1)) / UNIT * UNIT;
    if up > INT_MAX then up - 0x1_0000_0000 else up
  }

  /** Rounding gives room for the request exactly up to MAX_ALLOCATE; above, it turns negative. */
  lemma RoundedFits(size: int)
    requires 0 < size <= INT_MAX
    ensures Rounded(size) >= size <==> size <= MAX_ALLOCATE
    ensures size > MAX_ALLOCATE ==> Rounded(size) == -0x8000_0000
    ensures size <= MAX_ALLOCATE ==>
      Rounded(size) < size + (if size < MIN_FRAGMENT then MIN_FRAGMENT else UNIT) && Rounded(size) >= MIN_FRAGMENT && Aligned(Rounded(size))
  {
    var sz := if size < MIN_FRAGMENT then MIN_FRAGMENT else size;
    var k := (sz + 7) / 8;
    assert 8 * k <= sz + 7 < 8 * k + 8;
    if size > MAX_ALLOCATE { assert k == 0x1000_0000; }
  }

  /** And no smaller area would do: it is the least size the allocator can give that holds the request. */
  lemma RoundedLeast(size: int, n: int)
    requires 0 < size <= MAX_ALLOCATE && Aligned(n) && size <= n && MIN_FRAGMENT <= n
    ensures size <= Rounded(size) <= n && MIN_FRAGMENT <= Rounded(size) && Aligned(Rounded(size))
  {
    RoundedFits(size);
    var sz := if size < MIN_FRAGMENT then MIN_FRAGMENT else size;
    assert (sz + 7) / 8 <= (n + 7) / 8;
  }

  lemma AlignedSum(a: int, b: int)
    requires Aligned(a) && Aligned(b)
    ensures Aligned(a + b)
  {
  }

  // ----- Areas

  /** The areas fill lo .. hi, with a header between neighbours, and none is too small. */
  ghost predicate Tiled(ss: seq<Span>, lo: int, hi: int) {
    && |ss| > 0 && ss[0].at == lo && End(ss[|ss| - 1]) == hi
    && (forall i :: 0 <= i < |ss| ==> ss[i].size >= MIN_FRAGMENT)
    && (forall i, j :: 0 <= i < j == i + 1 < |ss| ==> ss[j].at == End(ss[i]) + UNIT)
  }

  ghost predicate Addressable(ss: seq<Span>) {
    forall i :: 0 <= i < |ss| ==> Aligned(ss[i].at)
  }

  /** No two neighbours are both free. */
  ghost predicate Coalesced(ss: seq<Span>) {
    forall i, j :: 0 <= i < j == i + 1 < |ss| ==> ss[i].used || ss[j].used
  }

  /** Areas lie apart, in the order of their addresses. */
  lemma {:induction false} TiledOrder(ss: seq<Span>, lo: int, hi: int, i: nat, j: nat)
    requires Tiled(ss, lo, hi) && i < j < |ss|
    ensures End(ss[i]) + UNIT <= ss[j].at
    decreases j
  {
    if i < j - 1 { TiledOrder(ss, lo, hi, i, j - 1); }
    assert ss[j].at == End(ss[j - 1]) + UNIT;
  }

  lemma TiledWithin(ss: seq<Span>, lo: int, hi: int, i: nat)
    requires Tiled(ss, lo, hi) && i < |ss|
    ensures lo <= ss[i].at && End(ss[i]) <= hi
    ensures i > 0 ==> lo + MIN_FRAGMENT + UNIT <= ss[i].at
    ensures i < |ss| - 1 ==> End(ss[i]) + UNIT + MIN_FRAGMENT <= hi
  {
    if i > 0 { TiledOrder(ss, lo, hi, 0, i); }
    if i < |ss| - 1 { TiledOrder(ss, lo, hi, i, |ss| - 1); }
  }

  function Total(ss: seq<Span>): int {
    if ss == [] then 0 else ss[0].size + Total(ss[1..])
  }

  /** Nothing is lost: the areas and the headers between them are all the memory there is. */
  lemma {:induction false} Conserved(ss: seq<Span>, lo: int, hi: int)
    requires Tiled(ss, lo, hi)
    ensures Total(ss) + UNIT * (|ss| - 1) == hi - lo
  {
    if |ss| == 1 {
      assert Total(ss) == ss[0].size + Total([]);
    } else {
      Conserved(ss[1..], ss[1].at, hi);
    }
  }

  /** The areas in use (u), or the free ones (!u). */
  function Sel(ss: seq<Span>, u: bool): multiset<Block> {
    if ss == [] then multiset{}
    else (if ss[0].used == u then multiset{(ss[0].at, ss[0].size)} else multiset{}) + Sel(ss[1..], u)
  }

  lemma {:induction false} SelConcat(a: seq<Span>, b: seq<Span>, u: bool)
    ensures Sel(a + b, u) == Sel(a, u) + Sel(b, u)
  {
    if a == [] {
      assert a + b == b;
    } else {
      assert (a + b)[1..] == a[1..] + b;
      SelConcat(a[1..], b, u);
    }
  }

  lemma {:induction false} SelMember(ss: seq<Span>, u: bool, b: Block)
    ensures b in Sel(ss, u) <==> exists i :: 0 <= i < |ss| && ss[i].used == u && b == (ss[i].at, ss[i].size)
  {
    if ss != [] {
      SelMember(ss[1..], u, b);
      if b in Sel(ss, u) {
        if b in Sel(ss[1..], u) {
          var i :| 0 <= i < |ss[1..]| && ss[1..][i].used == u && b == (ss[1..][i].at, ss[1..][i].size);
          assert ss[i + 1] == ss[1..][i];
        }
      }
      forall i | 0 <= i < |ss| && ss[i].used == u && b == (ss[i].at, ss[i].size) ensures b in Sel(ss, u) {
        if i > 0 { assert ss[1..][i - 1] == ss[i]; }
      }
    }
  }

  /** Areas i .. j replaced by others. */
  function Splice(ss: seq<Span>, i: nat, j: nat, mid: seq<Span>): seq<Span>
    requires i <= j <= |ss|
  {
    ss[..i] + mid + ss[j..]
  }

  lemma SelSplice(ss: seq<Span>, i: nat, j: nat, was: seq<Span>, mid: seq<Span>, u: bool) returns (others: multiset<Block>)
    requires i <= j <= |ss| && ss[i..j] == was
    ensures Sel(Splice(ss, i, j, mid), u) == others + Sel(mid, u)
    ensures Sel(ss, u) == others + Sel(was, u)
  {
    var a, b := ss[..i], ss[j..];
    assert ss == a + was + b;
    SelMiddle(a, was, b, u);
    SelMiddle(a, mid, b, u);
    others := Sel(a, u) + Sel(b, u);
  }

  lemma SelMiddle(a: seq<Span>, mid: seq<Span>, b: seq<Span>, u: bool)
    ensures Sel(a + mid + b, u) == Sel(a, u) + Sel(b, u) + Sel(mid, u)
  {
    SelConcat(a, mid, u);
    SelConcat(a + mid, b, u);
  }

  function Only(s: Span, u: bool): multiset<Block> {
    if s.used == u then multiset{(s.at, s.size)} else multiset{}
  }

  lemma SelOne(s: Span, u: bool)
    ensures Sel([s], u) == Only(s, u)
  {
    assert [s][1..] == [];
  }

  lemma SelTwo(s: Span, t: Span, u: bool)
    ensures Sel([s, t], u) == Only(s, u) + Only(t, u)
  {
    assert [s, t] == [s] + [t];
    SelConcat([s], [t], u);
    SelOne(s, u);
    SelOne(t, u);
  }

  /** Replacing areas by others that fill the same place. */
  lemma TiledSplice(ss: seq<Span>, lo: int, hi: int, i: nat, j: nat, mid: seq<Span>)
    requires Tiled(ss, lo, hi) && i < j <= |ss| && Tiled(mid, ss[i].at, End(ss[j - 1]))
    ensures Tiled(Splice(ss, i, j, mid), lo, hi)
  {
    var r := Splice(ss, i, j, mid);
    forall k, l | 0 <= k < l == k + 1 < |r| ensures r[l].at == End(r[k]) + UNIT {
      if l < i {
      } else if l == i {
        assert r[l] == mid[0] && r[k] == ss[k] && ss[i].at == End(ss[k]) + UNIT;
      } else if l < i + |mid| {
        assert r[l] == mid[l - i] && r[k] == mid[k - i];
      } else if k == i + |mid| - 1 {
        assert r[k] == mid[|mid| - 1] && r[l] == ss[j] && ss[j].at == End(ss[j - 1]) + UNIT;
      } else {
        assert r[l] == ss[l - |mid| - i + j] && r[k] == ss[k - |mid| - i + j];
      }
    }
  }

  lemma TiledOne(s: Span)
    requires s.size >= MIN_FRAGMENT
    ensures Tiled([s], s.at, End(s))
  {
  }

  // ----- The free queue

  function Chained(size: int, chain: seq<int>): multiset<Block> {
    if chain == [] then multiset{} else multiset{(chain[0], size)} + Chained(size, chain[1..])
  }

  /** The areas the free queue lists. */
  function Listed(gs: seq<Group>): multiset<Block> {
    if gs == [] then multiset{} else Chained(gs[0].size, gs[0].chain) + Listed(gs[1..])
  }

  /** Sizes strictly increase, and no chain is empty. */
  ghost predicate Sorted(gs: seq<Group>) {
    && (forall i, j :: 0 <= i < j < |gs| ==> gs[i].size < gs[j].size)
    && (forall i :: 0 <= i < |gs| ==> gs[i].chain != [])
  }

  lemma {:induction false} ChainedConcat(size: int, a: seq<int>, b: seq<int>)
    ensures Chained(size, a + b) == Chained(size, a) + Chained(size, b)
  {
    if a == [] {
      assert a + b == b;
    } else {
      assert (a + b)[1..] == a[1..] + b;
      ChainedConcat(size, a[1..], b);
    }
  }

  lemma {:induction false} ListedConcat(a: seq<Group>, b: seq<Group>)
    ensures Listed(a + b) == Listed(a) + Listed(b)
  {
    if a == [] {
      assert a + b == b;
    } else {
      assert (a + b)[1..] == a[1..] + b;
      ListedConcat(a[1..], b);
    }
  }

  lemma {:induction false} ChainedMember(size: int, chain: seq<int>, b: Block)
    ensures b in Chained(size, chain) <==> b.1 == size && b.0 in chain
  {
    if chain != [] {
      ChainedMember(size, chain[1..], b);
      assert chain == [chain[0]] + chain[1..];
    }
  }

  /** Some group lists b. */
  ghost predicate Grouped(gs: seq<Group>, b: Block) {
    exists i :: 0 <= i < |gs| && gs[i].size == b.1 && b.0 in gs[i].chain
  }

  lemma GroupedCons(gs: seq<Group>, b: Block)
    requires gs != []
    ensures Grouped(gs, b) <==> (gs[0].size == b.1 && b.0 in gs[0].chain) || Grouped(gs[1..], b)
  {
    if Grouped(gs[1..], b) {
      var i :| 0 <= i < |gs[1..]| && gs[1..][i].size == b.1 && b.0 in gs[1..][i].chain;
      assert gs[i + 1] == gs[1..][i];
    }
    if Grouped(gs, b) {
      var i :| 0 <= i < |gs| && gs[i].size == b.1 && b.0 in gs[i].chain;
      if i > 0 { assert gs[1..][i - 1] == gs[i]; }
    }
  }

  lemma {:induction false} ListedMember(gs: seq<Group>, b: Block)
    ensures b in Listed(gs) <==> Grouped(gs, b)
  {
    if gs != [] {
      ChainedMember(gs[0].size, gs[0].chain, b);
      ListedMember(gs[1..], b);
      GroupedCons(gs, b);
    }
  }

  lemma ListedOne(g: Group)
    ensures Listed([g]) == Chained(g.size, g.chain)
  {
    assert [g][1..] == [];
  }

  lemma ListedMiddle(a: seq<Group>, g: Group, b: seq<Group>)
    ensures Listed(a + [g] + b) == Listed(a + b) + Chained(g.size, g.chain)
  {
    ListedConcat(a, [g]);
    ListedConcat(a + [g], b);
    ListedConcat(a, b);
    ListedOne(g);
  }

  /** k is the first group of at least b bytes, or |gs| when there is none. */
  predicate FirstFit(gs: seq<Group>, b: int, k: nat) {
    k <= |gs| && (forall i :: 0 <= i < k ==> gs[i].size < b) && (k < |gs| ==> gs[k].size >= b)
  }

  /** There is only one such place, so searching from either end finds the same. */
  lemma FirstFitUnique(gs: seq<Group>, b: int, k: nat, l: nat)
    requires Sorted(gs) && FirstFit(gs, b, k) && FirstFit(gs, b, l)
    ensures k == l
  {
  }

  /** A request above MAX_ALLOCATE searches for a negative size: any free area passes. */
  lemma OversizePasses(gs: seq<Group>, size: int)
    requires Sorted(gs) && gs != [] && gs[0].size >= MIN_FRAGMENT && MAX_ALLOCATE < size <= INT_MAX
    ensures FirstFit(gs, Rounded(size), 0) && exists small :: Sorted([small]) && FirstFit([small], Rounded(size), 0) && small.size < size
  {
    RoundedFits(size);
    assert FirstFit([Group(16, [0])], Rounded(size), 0) && Sorted([Group(16, [0])]);
  }

  /** What is found there is the best fit. */
  lemma FirstFitIsBest(gs: seq<Group>, b: int, k: nat, x: Block)
    requires Sorted(gs) && FirstFit(gs, b, k) && x in Listed(gs) && x.1 >= b
    ensures k < |gs| && gs[k].size <= x.1
  {
    ListedMember(gs, x);
  }

  lemma HeadListed(gs: seq<Group>, k: nat)
    requires Sorted(gs) && k < |gs|
    ensures (gs[k].chain[0], gs[k].size) in Listed(gs)
  {
    ListedMember(gs, (gs[k].chain[0], gs[k].size));
  }

  /** A free area queued at place k, found for its size. */
  function Inserted(gs: seq<Group>, k: nat, q: int, size: int): seq<Group>
    requires k <= |gs| && (k < |gs| ==> gs[k].chain != [])
  {
    if k < |gs| && gs[k].size == size then gs[..k] + [Group(size, [gs[k].chain[0], q] + gs[k].chain[1..])] + gs[k + 1..]
    else gs[..k] + [Group(size, [q])] + gs[k..]
  }

  lemma InsertedSorted(gs: seq<Group>, k: nat, q: int, size: int)
    requires Sorted(gs) && FirstFit(gs, size, k)
    ensures Sorted(Inserted(gs, k, q, size))
  {
  }

  lemma ChainedTwo(size: int, a: seq<int>, q: int, b: seq<int>)
    ensures Chained(size, a + [q] + b) == Chained(size, a + b) + multiset{(q, size)}
  {
    ChainedConcat(size, a, [q]);
    ChainedConcat(size, a + [q], b);
    ChainedConcat(size, a, b);
    ChainedOne(size, q);
  }

  lemma InsertedListed(gs: seq<Group>, k: nat, q: int, size: int)
    requires Sorted(gs) && FirstFit(gs, size, k)
    ensures Listed(Inserted(gs, k, q, size)) == Listed(gs) + multiset{(q, size)}
  {
    if k < |gs| && gs[k].size == size {
      assert gs == gs[..k] + [gs[k]] + gs[k + 1..];
      GroupGrows(gs[..k], gs[k], gs[k + 1..], q);
    } else {
      assert gs == gs[..k] + gs[k..];
      ListedMiddle(gs[..k], Group(size, [q]), gs[k..]);
      ChainedOne(size, q);
    }
  }

  lemma GroupGrows(a: seq<Group>, g: Group, b: seq<Group>, q: int)
    requires g.chain != []
    ensures Listed(a + [Group(g.size, [g.chain[0], q] + g.chain[1..])] + b) == Listed(a + [g] + b) + multiset{(q, g.size)}
  {
    var c := g.chain;
    assert c == [c[0]] + c[1..] && [c[0], q] + c[1..] == [c[0]] + [q] + c[1..];
    ChainedTwo(g.size, [c[0]], q, c[1..]);
    ListedMiddle(a, g, b);
    ListedMiddle(a, Group(g.size, [c[0], q] + c[1..]), b);
  }

  lemma ChainedOne(size: int, q: int)
    ensures Chained(size, [q]) == multiset{(q, size)}
  {
    assert [q][1..] == [];
  }

  /** The group that lists the area q, and q's place in its chain. */
  function GroupOf(gs: seq<Group>, q: int): (k: nat)
    ensures k <= |gs| && (k < |gs| ==> q in gs[k].chain) && (forall i :: 0 <= i < k ==> q !in gs[i].chain)
  {
    if gs == [] then 0 else if q in gs[0].chain then 0 else 1 + GroupOf(gs[1..], q)
  }

  function PlaceOf(c: seq<int>, q: int): (k: nat)
    ensures k <= |c| && (k < |c| <==> q in c) && (k < |c| ==> c[k] == q)
  {
    if c == [] then 0 else if c[0] == q then 0 else 1 + PlaceOf(c[1..], q)
  }

  /** The free queue without the area q. */
  function Removed(gs: seq<Group>, q: int): seq<Group> {
    var k := GroupOf(gs, q);
    if k == |gs| then gs else WithoutEntry(gs, k, PlaceOf(gs[k].chain, q))
  }

  lemma RemovedSorted(gs: seq<Group>, q: int)
    requires Sorted(gs)
    ensures Sorted(Removed(gs, q))
  {
    var r, k := Removed(gs, q), GroupOf(gs, q);
    forall i, j | 0 <= i < j < |r| ensures r[i].size < r[j].size {
      var d := if |r| == |gs| then 0 else 1;
      assert r[i].size == gs[if i < k then i else i + d].size && r[j].size == gs[if j < k then j else j + d].size;
    }
  }

  function WithoutEntry(gs: seq<Group>, k: nat, p: nat): seq<Group>
    requires k < |gs| && p < |gs[k].chain|
  {
    var c := gs[k].chain;
    gs[..k] + (if |c| == 1 then [] else [Group(gs[k].size, c[..p] + c[p + 1..])]) + gs[k + 1..]
  }

  lemma WithoutEntryListed(gs: seq<Group>, k: nat, p: nat)
    requires k < |gs| && p < |gs[k].chain|
    ensures Listed(gs) == Listed(WithoutEntry(gs, k, p)) + multiset{(gs[k].chain[p], gs[k].size)}
  {
    var c, size := gs[k].chain, gs[k].size;
    var d := c[..p] + c[p + 1..];
    assert c == c[..p] + [c[p]] + c[p + 1..];
    ChainedTwo(size, c[..p], c[p], c[p + 1..]);
    assert gs == gs[..k] + [gs[k]] + gs[k + 1..];
    ListedMiddle(gs[..k], gs[k], gs[k + 1..]);
    if |c| == 1 {
      assert d == [];
      assert gs[..k] + [] + gs[k + 1..] == gs[..k] + gs[k + 1..];
    } else {
      ListedMiddle(gs[..k], Group(size, d), gs[k + 1..]);
    }
  }

  lemma RemovedListed(gs: seq<Group>, q: int, size: int)
    requires Sorted(gs) && (q, size) in Listed(gs) && forall s :: (q, s) in Listed(gs) ==> s == size
    ensures Listed(gs) == Listed(Removed(gs, q)) + multiset{(q, size)}
  {
    var k := RemovedGroup(gs, q, size);
    WithoutEntryListed(gs, k, PlaceOf(gs[k].chain, q));
  }

  lemma RemovedGroup(gs: seq<Group>, q: int, size: int) returns (k: nat)
    requires (q, size) in Listed(gs) && forall s :: (q, s) in Listed(gs) ==> s == size
    ensures k == GroupOf(gs, q) < |gs| && gs[k].size == size && q in gs[k].chain
  {
    ListedMember(gs, (q, size));
    k := GroupOf(gs, q);
    ListedMember(gs, (q, gs[k].size));
  }

  /** An area starts in one place only. */
  lemma StartsDiffer(ss: seq<Span>, lo: int, hi: int, i: nat, s: int)
    requires Tiled(ss, lo, hi) && i < |ss| && (ss[i].at, s) in Sel(ss, false)
    ensures s == ss[i].size && !ss[i].used
  {
    SelMember(ss, false, (ss[i].at, s));
    var j :| 0 <= j < |ss| && !ss[j].used && (ss[i].at, s) == (ss[j].at, ss[j].size);
    if i < j { TiledOrder(ss, lo, hi, i, j); }
    if j < i { TiledOrder(ss, lo, hi, j, i); }
  }
}
