/** Sets of processors, as the two-bit masks of the SMP scheduler. */
module CoreMasks {

  const TK_MAX_CORE := 2

  /** A mask over the two processors (ALL_CORE_BIT is both). */
  datatype Mask = Mask(c0: bool, c1: bool) {
    predicate Has(c: nat) {
      (c == 0 && c0) || (c == 1 && c1)
    }

    function Or(o: Mask): Mask {
      Mask(c0 || o.c0, c1 || o.c1)
    }

    function And(o: Mask): Mask {
      Mask(c0 && o.c0, c1 && o.c1)
    }

    function Without(o: Mask): Mask {
      Mask(c0 && !o.c0, c1 && !o.c1)
    }

    function Count(): nat {
      (if c0 then 1 else 0) + (if c1 then 1 else 0)
    }

    /** The machine word the kernel keeps. */
    function Bits(): Word {
      (if c0 then 1 else 0) + (if c1 then 2 else 0)
    }
  }

  /** A 32-bit word (UW). */
  type Word = w: int | 0 <= w < 0x1_0000_0000

  const ALL_CORES := Mask(true, true)
  const NO_CORE := Mask(false, false)

  function Only(c: nat): Mask {
    Mask(c == 0, c == 1)
  }

  /** Number of one bits of a word. */
  function Ones(w: nat): (n: nat)
    ensures w == 0 <==> n == 0
  {
    if w == 0 then 0 else w % 2 + Ones(w / 2)
  }

  /** Bitwise and, bit by bit from the lowest. */
  function BitAnd(a: nat, b: nat): (r: nat)
    ensures r <= a && r <= b
  {
    if a == 0 || b == 0 then 0
    else (if a % 2 == 1 && b % 2 == 1 then 1 else 0) + 2 * BitAnd(a / 2, b / 2)
  }

  function BitOr(a: nat, b: nat): nat {
    if a == 0 then b else if b == 0 then a
    else (if a % 2 == 1 || b % 2 == 1 then 1 else 0) + 2 * BitOr(a / 2, b / 2)
  }

  /** Bitwise complement of a 32-bit word. */
  function BitNot(a: Word): Word {
    0xFFFF_FFFF - a
  }

  lemma {:induction false} AndSelf(w: nat)
    ensures BitAnd(w, w) == w
  {
    if w != 0 { AndSelf(w / 2); }
  }

  /** Clearing the lowest one bit takes exactly one bit away. */
  lemma {:induction false} ClearLowest(w: nat)
    requires w != 0
    ensures Ones(BitAnd(w, w - 1)) + 1 == Ones(w)
  {
    if w % 2 == 1 {
      ClearOdd(w);
    } else {
      ClearLowest(w / 2);
      assert (w - 1) / 2 == w / 2 - 1;
      assert BitAnd(w, w - 1) == 2 * BitAnd(w / 2, w / 2 - 1);
      OnesDouble(BitAnd(w / 2, w / 2 - 1));
    }
  }

  lemma ClearOdd(w: nat)
    requires w % 2 == 1
    ensures Ones(BitAnd(w, w - 1)) + 1 == Ones(w)
  {
    AndSelf(w / 2);
    assert (w - 1) / 2 == w / 2;
    assert BitAnd(w, w - 1) == 2 * (w / 2);
    OnesDouble(w / 2);
  }

  lemma OnesDouble(h: nat)
    ensures Ones(2 * h) == Ones(h)
  {
    if h != 0 { assert 2 * h / 2 == h; }
  }

  /** knl_popcount: clear the lowest one bit until none is left. */
  method PopCount(bits: Word) returns (count: nat)
    ensures count == Ones(bits)
  {
    count := 0;
    var b: Word := bits;
    while b != 0
      invariant count + Ones(b) == Ones(bits)
      decreases Ones(b)
    {
      ClearLowest(b);
      b := BitAnd(b, b - 1);
      count := count + 1;
    }
  }

  /** The mask operations are the word operations the kernel performs. */
  lemma MaskIsWord(a: Mask, b: Mask, c: nat)
    requires c < 2
    ensures Ones(a.Bits()) == a.Count()
    ensures a.Or(b).Bits() == BitOr(a.Bits(), b.Bits())
    ensures a.And(b).Bits() == BitAnd(a.Bits(), b.Bits())
    ensures a.Without(b).Bits() == BitAnd(a.Bits(), BitNot(b.Bits()))
    ensures a.Has(c) <==> BitAnd(a.Bits(), if c == 0 then 1 else 2) != 0
    ensures a.Bits() == b.Bits() ==> a == b
  {
    SmallWords(a.Bits(), b.Bits());
    SmallAnd(a.Bits(), if c == 0 then 1 else 2);
    AndNot(a.Bits(), b.Bits());
  }

  /** Words of two bits. */
  lemma SmallWords(a: nat, b: nat)
    requires a < 4 && b < 4
    ensures Ones(a) == a % 2 + a / 2
    ensures BitOr(a, b) == (if a % 2 == 1 || b % 2 == 1 then 1 else 0) + (if a / 2 == 1 || b / 2 == 1 then 2 else 0)
    ensures BitAnd(a, b) == (if a % 2 == 1 && b % 2 == 1 then 1 else 0) + (if a / 2 == 1 && b / 2 == 1 then 2 else 0)
  {
    SmallOnes(a);
    SmallOr(a, b);
    SmallAnd(a, b);
  }

  lemma SmallOnes(a: nat)
    requires a < 4
    ensures Ones(a) == a % 2 + a / 2
  {
    assert Ones(a / 2) == a / 2;
  }

  lemma SmallOr(a: nat, b: nat)
    requires a < 4 && b < 4
    ensures BitOr(a, b) == (if a % 2 == 1 || b % 2 == 1 then 1 else 0) + (if a / 2 == 1 || b / 2 == 1 then 2 else 0)
  {
    assert a / 2 <= 1 && b / 2 <= 1;
    assert BitOr(a / 2, b / 2) == if a / 2 == 1 || b / 2 == 1 then 1 else 0;
  }

  lemma SmallAnd(a: nat, b: nat)
    requires a < 4 && b < 4
    ensures BitAnd(a, b) == (if a % 2 == 1 && b % 2 == 1 then 1 else 0) + (if a / 2 == 1 && b / 2 == 1 then 2 else 0)
  {
    assert BitAnd(a / 2, b / 2) == if a / 2 == 1 && b / 2 == 1 then 1 else 0;
  }

  /** Only the two low bits of the complement meet a two-bit word. */
  lemma AndNot(a: nat, b: Word)
    requires a < 4 && b < 4
    ensures BitAnd(a, BitNot(b)) == (if a % 2 == 1 && b % 2 == 0 then 1 else 0) + (if a / 2 == 1 && b / 2 == 0 then 2 else 0)
  {
    var n := BitNot(b);
    assert n % 2 == 1 - b % 2 && n / 2 % 2 == 1 - b / 2 && n != 0 && n / 2 != 0;
    assert BitAnd(a / 2, n / 2) == if a / 2 == 1 && b / 2 == 0 then 1 else 0;
  }
}
