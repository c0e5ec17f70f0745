/** The intrusive doubly linked rings all kernel queues are made of (include/sys/queue.h), against
    the sequences the other modules use for them. */
module Rings {
  import opened Options
  import opened Lists

  type Node = nat

  /** From head to the end and back to head. */
  function Round(head: Node, s: seq<Node>): seq<Node> {
    [head] + s + [head]
  }

  ghost predicate Link(next: map<Node, Node>, prev: map<Node, Node>, c: seq<Node>, i: nat)
    requires i + 1 < |c|
  {
    c[i] in next && next[c[i]] == c[i + 1] && c[i + 1] in prev && prev[c[i + 1]] == c[i]
  }

  /** The ring of 'head' holds the entries s, in order, once each. */
  ghost predicate Holds(next: map<Node, Node>, prev: map<Node, Node>, head: Node, s: seq<Node>) {
    && Distinct(s) && head !in s
    && forall i :: 0 <= i < |s| + 1 ==> Link(next, prev, Round(head, s), i)
  }

  function RemoveAt(s: seq<Node>, k: nat): (r: seq<Node>)
    requires k < |s|
    ensures |r| == |s| - 1
  {
    s[..k] + s[k + 1..]
  }

  lemma NextSame(next: map<Node, Node>, prev: map<Node, Node>, head: Node, s: seq<Node>, t: seq<Node>, n: nat)
    requires Holds(next, prev, head, s) && Holds(next, prev, head, t) && n <= |s| && n < |t| && s[..n] == t[..n]
    ensures n < |s| && s[n] == t[n]
  {
    assert Link(next, prev, Round(head, s), n) && Link(next, prev, Round(head, t), n);
    assert n > 0 ==> s[..n][n - 1] == t[..n][n - 1];
    assert Round(head, s)[n] == Round(head, t)[n] && t[n] in t;
    assert Round(head, s)[n + 1] == t[n] != head;
  }

  lemma {:induction false} PrefixSame(next: map<Node, Node>, prev: map<Node, Node>, head: Node, s: seq<Node>, t: seq<Node>, n: nat)
    requires Holds(next, prev, head, s) && Holds(next, prev, head, t) && n <= |s| && n <= |t|
    ensures s[..n] == t[..n]
  {
    if n > 0 {
      PrefixSame(next, prev, head, s, t, n - 1);
      NextSame(next, prev, head, s, t, n - 1);
    }
  }

  /** The links determine the entries and their order. */
  lemma HoldsUnique(next: map<Node, Node>, prev: map<Node, Node>, head: Node, s: seq<Node>, t: seq<Node>)
    requires Holds(next, prev, head, s) && Holds(next, prev, head, t)
    ensures s == t
  {
    PrefixSame(next, prev, head, s, t, if |s| < |t| then |s| else |t|);
    if |s| < |t| { NextSame(next, prev, head, s, t, |s|); }
    if |t| < |s| { NextSame(next, prev, head, t, s, |t|); }
  }

  /** The entry at place k, or the head behind the last. */
  function At(head: Node, s: seq<Node>, k: nat): Node
    requires k <= |s|
  {
    Round(head, s)[k + 1]
  }

  lemma InsertHolds(next: map<Node, Node>, prev: map<Node, Node>, head: Node, s: seq<Node>, k: nat, e: Node)
    requires Holds(next, prev, head, s) && k <= |s| && e != head && e !in s
    ensures var q := At(head, s, k); var p := Round(head, s)[k];
      q in prev && prev[q] == p && Holds(next[e := q][p := e], prev[e := p][q := e], head, InsertAt(s, k, e))
  {
    var c, q, p := Round(head, s), At(head, s, k), Round(head, s)[k];
    assert Link(next, prev, c, k);
    var c', next', prev' := Round(head, InsertAt(s, k, e)), next[e := q][p := e], prev[e := p][q := e];
    forall i | 0 <= i < |s| + 2 ensures Link(next', prev', c', i) {
      if i < k {
        assert Link(next, prev, c, i);
        assert c'[i] == c[i] && c'[i + 1] == c[i + 1];
        RoundDistinct(head, s, i, k);
      } else if i > k + 1 {
        assert Link(next, prev, c, i - 1);
        assert c'[i] == c[i - 1] && c'[i + 1] == c[i];
        RoundDistinct(head, s, i - 1, k);
      } else {
        assert c'[k] == p && c'[k + 1] == e && c'[k + 2] == q;
      }
    }
  }

  /** Along the ring, different places have different next and different previous nodes. */
  lemma RoundDistinct(head: Node, s: seq<Node>, i: nat, k: nat)
    requires Distinct(s) && head !in s && i <= |s| && k <= |s| && i != k
    ensures Round(head, s)[i] != Round(head, s)[k] && Round(head, s)[i + 1] != Round(head, s)[k + 1]
  {
  }

  lemma RemoveHolds(next: map<Node, Node>, prev: map<Node, Node>, head: Node, s: seq<Node>, k: nat)
    requires Holds(next, prev, head, s) && k < |s|
    ensures var c := Round(head, s); var e := s[k];
      && e in next && e in prev && next[e] == c[k + 2] && prev[e] == c[k] && next[e] != e
      && Holds(next[c[k] := c[k + 2]], prev[c[k + 2] := c[k]], head, RemoveAt(s, k))
  {
    var c := Round(head, s);
    assert Link(next, prev, c, k) && Link(next, prev, c, k + 1);
    assert c[k + 1] == s[k];
    RoundDistinct(head, s, k, k + 1);
    var c', next', prev' := Round(head, RemoveAt(s, k)), next[c[k] := c[k + 2]], prev[c[k + 2] := c[k]];
    forall i | 0 <= i < |s| ensures Link(next', prev', c', i) {
      if i < k {
        assert Link(next, prev, c, i);
        assert c'[i] == c[i] && c'[i + 1] == c[i + 1];
        RoundDistinct(head, s, i, k);
        RoundDistinct(head, s, i, k + 1);
      } else if i > k {
        assert Link(next, prev, c, i + 1);
        assert c'[i] == c[i + 1] && c'[i + 1] == c[i + 2];
        RoundDistinct(head, s, i + 1, k);
        RoundDistinct(head, s, i + 1, k + 1);
      } else {
        assert c'[k] == c[k] && c'[k + 1] == c[k + 2];
      }
    }
  }

  /** A ring none of whose nodes was written is what it was. */
  lemma OtherRing(next: map<Node, Node>, prev: map<Node, Node>, next': map<Node, Node>, prev': map<Node, Node>, head: Node, s: seq<Node>)
    requires Holds(next, prev, head, s)
    requires forall x :: x == head || x in s ==>
      (x in next ==> x in next' && next'[x] == next[x]) && (x in prev ==> x in prev' && prev'[x] == prev[x])
    ensures Holds(next', prev', head, s)
  {
    var c := Round(head, s);
    forall i | 0 <= i < |s| + 1 ensures Link(next', prev', c, i) {
      assert Link(next, prev, c, i);
      assert forall j :: 0 <= j < |c| ==> c[j] == head || c[j] in s;
    }
  }

  lemma EmptyRing(next: map<Node, Node>, prev: map<Node, Node>, head: Node, s: seq<Node>)
    requires Holds(next, prev, head, s)
    ensures head in next && (next[head] == head <==> s == [])
    ensures head in prev && next[head] == At(head, s, 0)
  {
    var c := Round(head, s);
    assert Link(next, prev, c, 0) && Link(next, prev, c, |s|);
    if s != [] { assert c[1] == s[0] && s[0] in s; }
  }

  /** The link fields of all nodes. */
  class Links {
    var next: map<Node, Node>
    var prev: map<Node, Node>

    ghost predicate Ring(head: Node, s: seq<Node>)
      reads this
    {
      Holds(next, prev, head, s)
    }

    /** Rings disjoint from the nodes 'touched' are unchanged. */
    twostate predicate Keeps(touched: set<Node>)
      reads this
    {
      && (forall x :: x !in touched && x in old(next) ==> x in next && next[x] == old(next)[x])
      && (forall x :: x !in touched && x in old(prev) ==> x in prev && prev[x] == old(prev)[x])
    }

    method QueInit(que: Node)
      modifies this
      ensures Ring(que, []) && Keeps({que})
    {
      next := next[que := que];
      prev := prev[que := que];
      assert Round(que, []) == [que, que];
    }

    method IsQueEmpty(que: Node, ghost s: seq<Node>) returns (b: bool)
      requires Ring(que, s)
      ensures b <==> s == []
    {
      EmptyRing(next, prev, que, s);
      b := next[que] == que;
    }

    /** Inserts the entry before que, which is an entry or, for the end of the ring, its head. */
    method QueInsert(entry: Node, que: Node, ghost head: Node, ghost s: seq<Node>, ghost k: nat)
      requires Ring(head, s) && k <= |s| && que == At(head, s, k) && entry != head && entry !in s
      modifies this
      ensures Ring(head, InsertAt(s, k, entry)) && Keeps({entry, head} + set x | x in s)
    {
      InsertHolds(next, prev, head, s, k, entry);
      ghost var p := Round(head, s)[k];
      assert p == head || p in s;
      assert que == head || que in s;
      prev := prev[entry := prev[que]];
      next := next[entry := que];
      next := next[prev[que] := entry];
      prev := prev[que := entry];
    }

    /** Takes the k-th entry out; its own links stay as they are. An entry that is the head of an
        empty ring, linked to itself, is left alone. */
    method QueRemove(entry: Node, ghost head: Node, ghost s: seq<Node>, ghost k: nat)
      requires Ring(head, s) && if s == [] then entry == head else k < |s| && s[k] == entry
      modifies this
      ensures s == [] ==> next == old(next) && prev == old(prev)
      ensures s != [] ==> Ring(head, RemoveAt(s, k)) && Keeps({head} + set x | x in s)
    {
      EmptyRing(next, prev, head, s);
      if s != [] { RemoveHolds(next, prev, head, s, k); }
      ghost var c := Round(head, s);
      assert forall j :: 0 <= j < |c| ==> c[j] == head || c[j] in s;
      if next[entry] != entry {
        next := next[prev[entry] := next[entry]];
        prev := prev[next[entry] := prev[entry]];
      }
    }

    method QueRemoveNext(que: Node, ghost s: seq<Node>) returns (entry: Option<Node>)
      requires Ring(que, s)
      modifies this
      ensures s == [] ==> entry == None && next == old(next) && prev == old(prev)
      ensures s != [] ==> entry == Some(s[0]) && Ring(que, s[1..]) && Keeps({que} + set x | x in s)
    {
      EmptyRing(next, prev, que, s);
      if next[que] == que { return None; }
      assert At(que, s, 0) == s[0];
      RemoveHolds(next, prev, que, s, 0);
      assert RemoveAt(s, 0) == s[1..];
      ghost var c := Round(que, s);
      assert forall j :: 0 <= j < |c| ==> c[j] == que || c[j] in s;
      var e := next[que];
      next := next[que := next[e]];
      prev := prev[next[e] := que];
      entry := Some(e);
    }
  }
}
