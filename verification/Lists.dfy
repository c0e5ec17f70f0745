/** Lists of control blocks as sequences, in the order of their links. */
module Lists {

  predicate Distinct<T(==)>(q: seq<T>) {
    forall i, j :: 0 <= i < j < |q| ==> q[i] != q[j]
  }

  /** The list with t as its k-th entry. */
  function InsertAt(q: seq<nat>, k: nat, t: nat): (r: seq<nat>)
    requires k <= |q|
    ensures |r| == |q| + 1 && multiset(r) == multiset(q) + multiset{t}
    ensures forall w :: w in r <==> w in q || w == t
  {
    assert q == q[..k] + q[k..];
    q[..k] + [t] + q[k..]
  }

  /** The list without t. */
  function Without(q: seq<nat>, t: nat): (r: seq<nat>)
    ensures forall w :: w in r <==> w in q && w != t
    ensures |r| <= |q|
  {
    if q == [] then []
    else
      assert q == [q[0]] + q[1..];
      if q[0] == t then Without(q[1..], t) else [q[0]] + Without(q[1..], t)
  }

  lemma InsertDistinct(q: seq<nat>, k: nat, t: nat)
    requires Distinct(q) && t !in q && k <= |q|
    ensures Distinct(InsertAt(q, k, t))
  {
    var r := InsertAt(q, k, t);
    assert forall i :: 0 <= i < |r| ==> r[i] == if i < k then q[i] else if i == k then t else q[i - 1];
  }

  lemma {:induction false} WithoutAbsent(q: seq<nat>, t: nat)
    requires t !in q
    ensures Without(q, t) == q
  {
    if q != [] {
      WithoutAbsent(q[1..], t);
      assert q == [q[0]] + q[1..];
    }
  }

  lemma {:induction false} WithoutDistinct(q: seq<nat>, t: nat)
    requires Distinct(q)
    ensures Distinct(Without(q, t))
  {
    if q != [] {
      assert forall i :: 0 <= i < |q[1..]| ==> q[1..][i] == q[i + 1];
      WithoutDistinct(q[1..], t);
      assert q[0] !in q[1..];
    }
  }
}
