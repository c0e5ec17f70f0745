/** How messages lie in a message buffer's ring of bytes (kernel/tkernel/messagebuf.c). */
module MessageRing {

  type Byte = b: int | 0 <= b < 256

  type Message = seq<Byte>

  const HEADERSZ := 4
  const MAX_INT := 0x7FFF_FFFF

  /** A multiple of the header size. */
  predicate Aligned(n: nat) {
    n == 0 || (n >= 4 && Aligned(n - 4))
  }

  lemma {:induction false} AlignedIsMultiple(n: nat)
    ensures Aligned(n) <==> n % 4 == 0
  {
    if n >= 4 {
      AlignedIsMultiple(n - 4);
      assert n % 4 == (n - 4) % 4;
    }
  }

  lemma {:induction false} AlignedSum(a: nat, b: nat)
    requires Aligned(a)
    ensures Aligned(a + b) <==> Aligned(b)
  {
    if a > 0 { AlignedSum(a - 4, b); }
  }

  /** ROUNDSZ: up to the next multiple of the header size. */
  function Round(n: nat): (r: nat)
    ensures n <= r < n + 4 && Aligned(r)
  {
    if n == 0 then 0 else if n <= 4 then assert Aligned(0); 4 else 4 + Round(n - 4)
  }

  lemma RoundFour()
    ensures Round(HEADERSZ) == HEADERSZ
  {
  }

  /** Adding three and clearing the two low bits, as the macro does, is that rounding. */
  lemma {:induction false} RoundIsMasking(n: nat)
    ensures Round(n) == (n + 3) / 4 * 4 && (Aligned(n) <==> n % 4 == 0)
  {
    AlignedIsMultiple(n);
    if n > 4 {
      RoundIsMasking(n - 4);
      assert (n - 4 + 3) / 4 == (n + 3) / 4 - 1;
    }
  }

  lemma {:induction false} RoundMinus(n: nat, d: nat)
    requires Aligned(d) && d <= n
    ensures Round(n - d) == Round(n) - d
  {
    if d > 0 {
      RoundMinus(n - 4, d - 4);
      if n == 4 { assert Round(0) == 0; }
    }
  }

  lemma {:induction false} RoundBelow(n: nat, free: nat)
    requires Aligned(free) && n <= free
    ensures Round(n) <= free
  {
    if n > 4 {
      RoundBelow(n - 4, free - 4);
    }
  }

  /** The number a header spells, low byte first. */
  function ReadHeader(h: seq<Byte>): nat {
    if h == [] then 0 else (h[0] as int) + 256 * ReadHeader(h[1..])
  }

  /** The header for a message of n bytes. */
  method MakeHeader(n: nat) returns (h: seq<Byte>)
    requires n <= MAX_INT
    ensures |h| == HEADERSZ && ReadHeader(h) == n
  {
    var a, b, c := n / 256, n / 65536, n / 16777216;
    h := [n % 256, a % 256, b % 256, c];
    assert a / 256 == b && b / 256 == c;
    Spell(c, []);
    Spell(b % 256, [c]);
    Spell(a % 256, [b % 256, c]);
    Spell(n % 256, [a % 256, b % 256, c]);
    assert [c] == [c] + [] && [b % 256, c] == [b % 256] + [c] && [a % 256, b % 256, c] == [a % 256] + [b % 256, c];
    assert h == [n % 256] + [a % 256, b % 256, c];
  }

  lemma Spell(b: Byte, h: seq<Byte>)
    ensures ReadHeader([b] + h) == (b as int) + 256 * ReadHeader(h)
  {
    assert ([b] + h)[1..] == h;
  }

  /** Place of logical position p in a ring of n bytes, for p below 2n. */
  function Wrap(n: nat, p: nat): nat {
    if p < n then p else p - n
  }

  /** The k bytes from position p on, going round the end of the ring. */
  function Slice(buf: seq<Byte>, p: nat, k: nat): (s: seq<Byte>)
    requires p + k <= 2 * |buf|
    ensures |s| == k
    ensures forall i :: 0 <= i < k ==> s[i] == buf[Wrap(|buf|, p + i)]
  {
    seq(k, i requires 0 <= i < k => buf[Wrap(|buf|, p + i)])
  }

  /** What one message takes up. */
  function Extent(m: Message): nat {
    HEADERSZ + Round(|m|)
  }

  function Size(ms: seq<Message>): (n: nat)
    ensures Aligned(n)
  {
    if ms == [] then 0
    else
      AlignedExtent(ms[0]);
      AlignedSum(Extent(ms[0]), Size(ms[1..]));
      Extent(ms[0]) + Size(ms[1..])
  }

  lemma AlignedExtent(m: Message)
    ensures Aligned(Extent(m))
  {
  }

  lemma {:induction false} SizeAppend(ms: seq<Message>, m: Message)
    ensures Size(ms + [m]) == Size(ms) + Extent(m)
  {
    if ms == [] {
      assert [] + [m] == [m];
      assert Size([m]) == Extent(m) + Size([]);
    } else {
      assert (ms + [m])[1..] == ms[1..] + [m];
      SizeAppend(ms[1..], m);
    }
  }

  /** The messages ms lie one after the other from position p. */
  ghost predicate Laid(buf: seq<Byte>, p: nat, ms: seq<Message>)
    requires p + Size(ms) <= 2 * |buf|
    decreases ms
  {
    ms == [] ||
    (&& |ms[0]| <= MAX_INT
     && ReadHeader(Slice(buf, p, HEADERSZ)) == |ms[0]|
     && Slice(buf, p + HEADERSZ, |ms[0]|) == ms[0]
     && Laid(buf, p + Extent(ms[0]), ms[1..]))
  }

  /** The places of positions lo .. hi hold the same bytes. */
  ghost predicate Agree(buf: seq<Byte>, buf': seq<Byte>, lo: nat, hi: nat) {
    |buf'| == |buf| && hi <= 2 * |buf| && forall i :: lo <= i < hi ==> buf'[Wrap(|buf|, i)] == buf[Wrap(|buf|, i)]
  }

  lemma SliceAgree(buf: seq<Byte>, buf': seq<Byte>, p: nat, k: nat)
    requires Agree(buf, buf', p, p + k)
    ensures Slice(buf', p, k) == Slice(buf, p, k)
  {
  }

  lemma AgreePart(buf: seq<Byte>, buf': seq<Byte>, lo: nat, hi: nat, lo': nat, hi': nat)
    requires Agree(buf, buf', lo, hi) && lo <= lo' && hi' <= hi
    ensures Agree(buf, buf', lo', hi')
  {
  }

  /** Equal bytes under the messages, equal messages. */
  lemma {:induction false} LaidSame(buf: seq<Byte>, buf': seq<Byte>, p: nat, ms: seq<Message>)
    requires p + Size(ms) <= 2 * |buf| && Laid(buf, p, ms) && Agree(buf, buf', p, p + Size(ms))
    ensures Laid(buf', p, ms)
    decreases ms
  {
    if ms != [] {
      var q := p + HEADERSZ;
      AgreePart(buf, buf', p, p + Size(ms), p, q);
      SliceAgree(buf, buf', p, HEADERSZ);
      AgreePart(buf, buf', p, p + Size(ms), q, q + |ms[0]|);
      SliceAgree(buf, buf', q, |ms[0]|);
      AgreePart(buf, buf', p, p + Size(ms), p + Extent(ms[0]), p + Size(ms));
      LaidSame(buf, buf', p + Extent(ms[0]), ms[1..]);
    }
  }

  /** Positions one lap apart are the same places. */
  lemma {:induction false} LaidLap(buf: seq<Byte>, p: nat, ms: seq<Message>)
    requires |buf| <= p && p + Size(ms) <= 2 * |buf| && Laid(buf, p, ms)
    ensures Laid(buf, p - |buf|, ms)
    decreases ms
  {
    if ms != [] {
      assert Slice(buf, p - |buf|, HEADERSZ) == Slice(buf, p, HEADERSZ);
      assert Slice(buf, p - |buf| + HEADERSZ, |ms[0]|) == Slice(buf, p + HEADERSZ, |ms[0]|);
      LaidLap(buf, p + Extent(ms[0]), ms[1..]);
    }
  }

  lemma {:induction false} LaidAppend(buf: seq<Byte>, p: nat, ms: seq<Message>, m: Message, q: nat, q2: nat)
    requires p + Size(ms) + Extent(m) <= 2 * |buf| && Laid(buf, p, ms) && |m| <= MAX_INT
    requires q == p + Size(ms) && q2 == q + HEADERSZ
    requires ReadHeader(Slice(buf, q, HEADERSZ)) == |m| && Slice(buf, q2, |m|) == m
    ensures Size(ms + [m]) == Size(ms) + Extent(m) && Laid(buf, p, ms + [m])
    decreases ms
  {
    SizeAppend(ms, m);
    if ms == [] {
      assert ms + [m] == [m];
    } else {
      assert (ms + [m])[1..] == ms[1..] + [m];
      LaidAppend(buf, p + Extent(ms[0]), ms[1..], m, q, q2);
    }
  }

  /** bytes written at position p, round the end of the ring if need be. */
  function Written(buf: seq<Byte>, p: nat, bytes: seq<Byte>): (r: seq<Byte>)
    requires p < |buf| && |bytes| <= |buf|
    ensures |r| == |buf|
    ensures forall j :: 0 <= j < |buf| ==>
      r[j] == if p <= j < p + |bytes| then bytes[j - p] else if j + |buf| < p + |bytes| then bytes[j + |buf| - p] else buf[j]
  {
    seq(|buf|, j requires 0 <= j < |buf| =>
      if p <= j < p + |bytes| then bytes[j - p] else if j + |buf| < p + |bytes| then bytes[j + |buf| - p] else buf[j])
  }

  lemma WrittenInside(b: seq<Byte>, at: nat, bytes: seq<Byte>)
    requires at < |b| && at + |bytes| <= |b|
    ensures b[..at] + bytes + b[at + |bytes|..] == Written(b, at, bytes)
  {
  }

  lemma WrittenAround(b: seq<Byte>, at: nat, bytes: seq<Byte>, b1: seq<Byte>)
    requires at < |b| && |b| - at < |bytes| <= |b|
    requires var rem := |b| - at; b1 == b[..at] + bytes[..rem]
    ensures var rem := |b| - at; |b1| == |b| && bytes[rem..] + b1[|bytes| - rem..] == Written(b, at, bytes)
  {
    var rem := |b| - at;
    var r := bytes[rem..] + b1[|bytes| - rem..];
    forall j | 0 <= j < |b| ensures r[j] == Written(b, at, bytes)[j] {
    }
  }

  /** Writing behind 'size' bytes that start at head: they stay, and the new bytes follow them. */
  lemma WriteKeeps(buf: seq<Byte>, head: nat, size: nat, bytes: seq<Byte>, p: nat)
    requires head < |buf| && size + |bytes| <= |buf| && size < |buf| && p == head + size
    ensures var r := Written(buf, Wrap(|buf|, p), bytes);
      Agree(buf, r, head, p) && Slice(r, p, |bytes|) == bytes
  {
    var at := Wrap(|buf|, p);
    var r := Written(buf, at, bytes);
    forall k | 0 <= k < |bytes| ensures Slice(r, p, |bytes|)[k] == bytes[k] {
      var j := Wrap(|buf|, p + k);
      assert j == at + k || j == at + k - |buf|;
    }
  }

  // ----- The state of the ring, as values

  /** head, tail and free size of a ring of n bytes of which 'size' are in use. */
  ghost predicate Counters(n: nat, head: nat, tail: nat, free: int, size: nat) {
    && Aligned(n) && Aligned(head) && Aligned(tail) && Aligned(size)
    && (if n == 0 then head == 0 && tail == 0 else head < n && tail < n && tail == Wrap(n, head + size))
    && size <= n && free == n - size
  }

  /** The bytes hold the messages ms from head on; tail and free size agree. */
  ghost predicate Holds(buf: seq<Byte>, head: nat, tail: nat, free: int, ms: seq<Message>) {
    Counters(|buf|, head, tail, free, Size(ms)) && Laid(buf, head, ms)
  }

  /** The unrounded test of knl_mbf_free is enough, because the free size is a multiple of four. */
  lemma FitsRounded(buf: seq<Byte>, head: nat, tail: nat, free: int, ms: seq<Message>, m: Message)
    requires Holds(buf, head, tail, free, ms) && HEADERSZ + |m| <= free
    ensures Extent(m) <= free && |buf| > 0 && Size(ms) < |buf|
  {
    AlignedSum(Size(ms), free);
    RoundBelow(|m|, free - HEADERSZ);
  }

  lemma HeaderWritten(b: seq<Byte>, head: nat, ms: seq<Message>, h: seq<Byte>, p: nat)
    requires head < |b| && Size(ms) + HEADERSZ <= |b| && |h| == HEADERSZ && Laid(b, head, ms) && p == head + Size(ms)
    ensures var b1 := Written(b, Wrap(|b|, p), h);
      Laid(b1, head, ms) && Slice(b1, p, HEADERSZ) == h
  {
    WriteKeeps(b, head, Size(ms), h, p);
    LaidSame(b, Written(b, Wrap(|b|, p), h), head, ms);
  }

  lemma BodyWritten(b: seq<Byte>, head: nat, ms: seq<Message>, m: Message, p: nat, p2: nat)
    requires head < |b| && Size(ms) + HEADERSZ + |m| <= |b| && 0 < |m| && Laid(b, head, ms)
    requires p == head + Size(ms) && p2 == p + HEADERSZ
    ensures var b1 := Written(b, Wrap(|b|, p2), m);
      && Laid(b1, head, ms) && Slice(b1, p, HEADERSZ) == Slice(b, p, HEADERSZ)
      && Slice(b1, p2, |m|) == m
  {
    var b1 := Written(b, Wrap(|b|, p2), m);
    WriteKeeps(b, head, Size(ms) + HEADERSZ, m, p2);
    AgreePart(b, b1, head, p2, head, p);
    LaidSame(b, b1, head, ms);
    AgreePart(b, b1, head, p2, p, p2);
    SliceAgree(b, b1, p, HEADERSZ);
  }

  lemma WrapAligned(n: nat, p: nat)
    requires Aligned(n) && Aligned(p)
    ensures Aligned(Wrap(n, p))
  {
    if p >= n { AlignedSum(n, p - n); }
  }

  /** Where the code's two branches end up: the place after k bytes, rounded up, from 'at'. */
  lemma RingStep(n: nat, at: nat, k: nat)
    requires Aligned(n) && Aligned(at) && at < n && Round(k) <= n
    ensures n - at < k ==> Round(k - (n - at)) == Wrap(n, at + Round(k)) < n
    ensures n - at >= k ==> at + Round(k) <= n && (if at + Round(k) >= n then 0 else at + Round(k)) == Wrap(n, at + Round(k))
    ensures Aligned(Wrap(n, at + Round(k)))
  {
    AlignedSum(at, n - at);
    AlignedSum(at, Round(k));
    WrapAligned(n, at + Round(k));
    if n - at < k { RoundMinus(k, n - at); } else { RoundBelow(k, n - at); }
  }

  /** Header and bytes written behind the messages: they are laid out as one message more. */
  lemma AppendLaid(b: seq<Byte>, head: nat, ms: seq<Message>, m: Message, h: seq<Byte>, p: nat, t1: nat, b1: seq<Byte>, p2: nat,
                   t2: nat, b2: seq<Byte>)
    requires head < |b| && Size(ms) + Extent(m) <= |b| && 0 < |m| <= MAX_INT && Laid(b, head, ms)
    requires p == head + Size(ms) && p2 == p + HEADERSZ && t1 == Wrap(|b|, p) && t2 == Wrap(|b|, p2)
    requires |h| == HEADERSZ && ReadHeader(h) == |m| && b1 == Written(b, t1, h) && b2 == Written(b1, t2, m)
    ensures Size(ms + [m]) == Size(ms) + Extent(m) && Laid(b2, head, ms + [m])
  {
    HeaderWritten(b, head, ms, h, p);
    BodyWritten(b1, head, ms, m, p, p2);
    LaidAppend(b2, head, ms, m, p, p2);
  }

  lemma AppendCounters(n: nat, head: nat, tail: nat, free: int, size: nat, k: nat, t: nat, tail2: nat, p: nat, p2: nat, free2: int, size2: nat)
    requires Counters(n, head, tail, free, size) && Aligned(k) && HEADERSZ + k <= free && Aligned(tail2)
    requires t == Wrap(n, tail + HEADERSZ) && tail2 == Wrap(n, t + k) && tail2 < n
    requires p == head + size && p2 == p + HEADERSZ && free2 == free - (HEADERSZ + k) && size2 == size + (HEADERSZ + k)
    ensures Counters(n, head, tail2, free2, size2)
    ensures head < n && tail == Wrap(n, p) && t == Wrap(n, p2)
  {
    AlignedSum(size, HEADERSZ + k);
    AlignedSum(HEADERSZ, k);
  }

  lemma HoldsElim(b: seq<Byte>, head: nat, tail: nat, free: int, ms: seq<Message>)
    requires Holds(b, head, tail, free, ms)
    ensures Counters(|b|, head, tail, free, Size(ms)) && head + Size(ms) <= 2 * |b| && Laid(b, head, ms)
  {
  }

  lemma HoldsIntro(b: seq<Byte>, head: nat, tail: nat, free: int, ms: seq<Message>, size: nat)
    requires Counters(|b|, head, tail, free, size) && size == Size(ms) && head + size <= 2 * |b| && Laid(b, head, ms)
    ensures Holds(b, head, tail, free, ms)
  {
  }

  lemma AppendRoom(b: seq<Byte>, head: nat, tail: nat, free: int, ms: seq<Message>, m: Message, t: nat, tail2: nat, p: nat,
                   p2: nat, free2: int, size2: nat)
    requires Holds(b, head, tail, free, ms) && HEADERSZ + |m| <= free
    requires t == Wrap(|b|, tail + HEADERSZ) && tail2 == Wrap(|b|, t + Round(|m|)) && tail2 < |b| && Aligned(tail2)
    requires p == head + Size(ms) && p2 == p + HEADERSZ && free2 == free - Extent(m) && size2 == Size(ms) + Extent(m)
    ensures Counters(|b|, head, tail2, free2, size2) && Laid(b, head, ms)
    ensures head < |b| && tail == Wrap(|b|, p) && t == Wrap(|b|, p2)
  {
    FitsRounded(b, head, tail, free, ms, m);
    HoldsElim(b, head, tail, free, ms);
    AppendCounters(|b|, head, tail, free, Size(ms), Round(|m|), t, tail2, p, p2, free2, size2);
  }

  lemma AppendHolds(b: seq<Byte>, head: nat, tail: nat, free: int, ms: seq<Message>, m: Message, h: seq<Byte>, b1: seq<Byte>,
                    t: nat, b2: seq<Byte>, tail2: nat)
    requires Holds(b, head, tail, free, ms) && 0 < |m| <= MAX_INT && HEADERSZ + |m| <= free
    requires |h| == HEADERSZ && ReadHeader(h) == |m| && |b| >= HEADERSZ && tail < |b| && b1 == Written(b, tail, h) &&
        t == Wrap(|b|, tail + HEADERSZ) && t < |b|
    requires |m| <= |b| && b2 == Written(b1, t, m) && tail2 == Wrap(|b|, t + Round(|m|)) && Aligned(tail2) && tail2 < |b|
    ensures Holds(b2, head, tail2, free - Extent(m), ms + [m])
  {
    var p, free2, size2 := head + Size(ms), free - Extent(m), Size(ms) + Extent(m);
    AppendRoom(b, head, tail, free, ms, m, t, tail2, p, p + HEADERSZ, free2, size2);
    AppendLaid(b, head, ms, m, h, p, tail, b1, p + HEADERSZ, t, b2);
    HoldsIntro(b2, head, tail2, free2, ms + [m], size2);
  }

  /** Reading the first message, split where the buffer ends. */
  function FirstBytes(buf: seq<Byte>, h: nat, n: nat): seq<Byte>
    requires h < |buf| && n <= |buf|
  {
    if |buf| - h < n then buf[h..] + buf[..n - (|buf| - h)] else buf[h..h + n]
  }

  lemma FirstMessage(buf: seq<Byte>, head: nat, tail: nat, free: int, ms: seq<Message>)
    requires Holds(buf, head, tail, free, ms) && ms != []
    ensures head + HEADERSZ <= |buf| && ReadHeader(buf[head..head + HEADERSZ]) == |ms[0]|
    ensures var h := Wrap(|buf|, head + HEADERSZ);
      && h < |buf| && Aligned(h) && Extent(ms[0]) <= |buf| && FirstBytes(buf, h, |ms[0]|) == ms[0]
  {
    var m := ms[0];
    AlignedBelow(head, |buf|);
    WrapAligned(|buf|, head + HEADERSZ);
    assert buf[head..head + HEADERSZ] == Slice(buf, head, HEADERSZ);
    var h := Wrap(|buf|, head + HEADERSZ);
    forall i | 0 <= i < |m| ensures FirstBytes(buf, h, |m|)[i] == m[i] {
      assert m[i] == buf[Wrap(|buf|, head + HEADERSZ + i)];
    }
  }

  lemma DropHolds(buf: seq<Byte>, head: nat, tail: nat, free: int, ms: seq<Message>, head2: nat)
    requires Holds(buf, head, tail, free, ms) && ms != []
    requires head2 == Wrap(|buf|, head + Extent(ms[0]))
    ensures Holds(buf, head2, tail, free + Extent(ms[0]), ms[1..])
  {
    ExtentAligned(ms[0], head);
    WrapAligned(|buf|, head + Extent(ms[0]));
    if head + Extent(ms[0]) >= |buf| { LaidLap(buf, head + Extent(ms[0]), ms[1..]); }
  }

  lemma ExtentAligned(m: Message, head: nat)
    requires Aligned(head)
    ensures Aligned(head + Extent(m))
  {
    AlignedExtent(m);
    AlignedSum(head, Extent(m));
  }

  /** Two multiples of four differ by at least four. */
  lemma AlignedBelow(a: nat, b: nat)
    requires Aligned(a) && Aligned(b) && a < b
    ensures a + 4 <= b && Aligned(a + 4)
  {
    AlignedSum(a, b - a);
    assert Aligned(b - a) && b - a > 0;
  }
}
