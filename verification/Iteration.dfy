/**
 Sequences without repeats, and visiting the elements of a set in whatever order the container yields them.

 The program iterates over hash sets and hash maps, and nothing it promises may
 depend on their order.  `Enumerate` stands for such an iteration: it returns
 some listing of the elements, each of them once, and callers know nothing else
 about it.  Loops over it are specified on the listing, and what they compute is
 then shown to depend on its elements only.  Queues of transactions are kept as
 sequences; that no transaction is ever queued twice is the predicate `Distinct`,
 which appending a new element and taking the front one preserve.
 */
module Iteration {

  ghost predicate Distinct<T>(q: seq<T>) {
    forall i, j | 0 <= i < j < |q| :: q[i] != q[j]
  }

  ghost predicate Ascending(q: seq<nat>) {
    forall i, j | 0 <= i < j < |q| :: q[i] < q[j]
  }

  lemma AppendDistinct<T(!new)>(q: seq<T>, x: T)
    requires Distinct(q) && x !in q
    ensures Distinct(q + [x])
    ensures forall y :: y in q + [x] <==> y in q || y == x
  {
  }

  lemma TailDistinct<T(!new)>(q: seq<T>)
    requires Distinct(q) && q != []
    ensures Distinct(q[1..])
    ensures forall y :: y in q[1..] <==> y in q && y != q[0]
  {
    assert q == [q[0]] + q[1..];
    assert forall i | 0 <= i < |q[1..]| :: q[1..][i] == q[i + 1];
  }

  lemma MemberOfPrefix<T>(order: seq<T>, x: T)
    requires order != []
    ensures x in order <==> x in order[..|order| - 1] || x == order[|order| - 1]
  {
    assert order == order[..|order| - 1] + [order[|order| - 1]];
  }

  /** `order` lists each element of `s` once. */
  ghost predicate Enumerates<T(!new)>(order: seq<T>, s: set<T>) {
    (forall x :: x in order <==> x in s) && Distinct(order)
  }

  lemma {:induction false} OrderExists<T(!new)>(s: set<T>) returns (order: seq<T>)
    ensures Enumerates(order, s)
  {
    order := [];
    if s != {} {
      var x :| x in s;
      var rest := OrderExists(s - {x});
      order := rest + [x];
    }
  }

  method Enumerate<T(==, !new)>(s: set<T>) returns (order: seq<T>)
    ensures Enumerates(order, s)
  {
    order := [];
    var rest := s;
    while rest != {}
      invariant rest <= s && Enumerates(order, s - rest)
      decreases rest
    {
      var x :| x in rest;
      order, rest := order + [x], rest - {x};
    }
  }

  /** How often an element occurs. */
  ghost function Occurrences<T>(q: seq<T>, x: T): nat {
    if q == [] then 0 else Occurrences(q[..|q| - 1], x) + (if q[|q| - 1] == x then 1 else 0)
  }

  lemma {:induction false} DistinctOccursOnce<T>(q: seq<T>, x: T)
    requires Distinct(q)
    ensures Occurrences(q, x) == if x in q then 1 else 0
    decreases |q|
  {
    if q != [] {
      DistinctOccursOnce(q[..|q| - 1], x);
      MemberOfPrefix(q, x);
    }
  }

  lemma {:induction false} OccurrencesAdd<T>(q: seq<T>, r: seq<T>, x: T)
    ensures Occurrences(q + r, x) == Occurrences(q, x) + Occurrences(r, x)
    decreases |r|
  {
    if r == [] {
      assert q + r == q;
    } else {
      assert (q + r)[..|q + r| - 1] == q + r[..|r| - 1];
      OccurrencesAdd(q, r[..|r| - 1], x);
    }
  }

  /** What an append adds to the count. */
  lemma AppendedOnce<T>(before: seq<T>, after: seq<T>, x: T, t: T)
    requires after == before || after == before + [x]
    ensures Occurrences(after[|before|..], t) == if after != before && t == x then 1 else 0
  {
    assert after[|before|..] == if after == before then [] else [x];
    assert [x][..0] == [];
  }

  /** Two stretches of a queue's life, one after the other. */
  lemma QueueStretches<T>(q: seq<T>, pushed: seq<T>, later: seq<T>, taken: seq<T>, takenLater: seq<T>, mid: seq<T>, end: seq<T>)
    requires q + pushed == taken + mid && mid + later == takenLater + end
    ensures q + (pushed + later) == (taken + takenLater) + end
  {
    assert q + (pushed + later) == (q + pushed) + later;
    assert (taken + mid) + later == taken + (mid + later);
    assert taken + (takenLater + end) == (taken + takenLater) + end;
  }
}
