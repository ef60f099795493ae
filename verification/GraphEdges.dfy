/**
 What the graph builders share: edges into the transaction being added, with
 its indegree, and the two facts about a key that decide them, its readers
 since the last writer and that writer.

 An edge is added only if it is not there already, and the indegree grows with
 it, so the indegree is the number of distinct sources however many keys led
 to them.  `Linked` says what any run of such additions amounts to: edges to
 the new node from exactly one set of sources, and the size of that set as its
 indegree.  A builder's loops are specified by functions over the order in
 which the container yields the keys; these lemmas turn what they add up to
 into a set of sources, in which the order no longer shows.
 */
module GraphEdges {
  import opened Transactions
  import opened Dependencies
  import opened DagExecution
  import opened Iteration

  type Adjacency = map<TxnId, set<TxnId>>
  type Degrees = map<TxnId, int>

  datatype Edges = Edges(adj: Adjacency, degrees: Degrees)

  /** An edge from `a` to `t`, unless it is there already. */
  ghost function WithEdge(e: Edges, a: TxnId, t: TxnId): Edges {
    if a in e.adj && t in e.degrees && t !in e.adj[a]
    then Edges(e.adj[a := e.adj[a] + {t}], e.degrees[t := e.degrees[t] + 1])
    else e
  }

  /** Edges to `t` from every transaction of a set. */
  ghost function WithEdges(e: Edges, found: set<TxnId>, t: TxnId): Edges {
    Edges(map a | a in e.adj :: if a in found then e.adj[a] + {t} else e.adj[a],
          if t in e.degrees then e.degrees[t := e.degrees[t] + |NewSources(e, found, t)|] else e.degrees)
  }

  ghost function NewSources(e: Edges, found: set<TxnId>, t: TxnId): set<TxnId> {
    set a | a in found && a in e.adj && t !in e.adj[a]
  }

  method AddEdge(e: Edges, a: TxnId, t: TxnId) returns (e': Edges)
    requires a in e.adj && t in e.degrees
    ensures e' == WithEdge(e, a, t)
  {
    e' := e;
    if t !in e.adj[a] {
      e' := Edges(e.adj[a := e.adj[a] + {t}], e.degrees[t := e.degrees[t] + 1]);
    }
  }

  lemma OneMoreSource(e: Edges, found: set<TxnId>, a: TxnId, t: TxnId)
    requires a in e.adj && a !in found
    ensures NewSources(e, found + {a}, t) == NewSources(e, found, t) + if t in e.adj[a] then {} else {a}
    ensures a !in NewSources(e, found, t)
  {
  }

  lemma OneMoreEdge(e: Edges, found: set<TxnId>, a: TxnId, t: TxnId)
    requires a in e.adj && a !in found && t in e.degrees
    ensures WithEdges(e, found + {a}, t) == WithEdge(WithEdges(e, found, t), a, t)
  {
    var some, all := WithEdges(e, found, t), WithEdges(e, found + {a}, t);
    OneMoreSource(e, found, a, t);
    if t in e.adj[a] {
      assert e.adj[a] + {t} == e.adj[a];
      assert all.adj == some.adj;
    } else {
      assert all.adj == some.adj[a := some.adj[a] + {t}];
    }
  }

  /** Edges from all transactions of one holder set. */
  method ScanHolders(e: Edges, found: set<TxnId>, t: TxnId) returns (e': Edges)
    requires found <= e.adj.Keys && t in e.degrees
    ensures e' == WithEdges(e, found, t)
  {
    e' := e;
    var rest := found;
    NoMoreEdges(e, t);
    while rest != {}
      invariant rest <= found
      invariant e' == WithEdges(e, found - rest, t)
      decreases rest
    {
      var a :| a in rest;
      OneMoreEdge(e, found - rest, a, t);
      assert found - (rest - {a}) == found - rest + {a};
      e' := AddEdge(e', a, t);
      rest := rest - {a};
    }
    assert found - rest == found;
  }

  // ---------- what a run of additions amounts to ----------

  ghost predicate NoEdgeTo(adj: Adjacency, t: TxnId) {
    forall a | a in adj :: t !in adj[a]
  }

  /** `e` is `e0` with edges to the new node `t` from exactly `sources`, and their number as its indegree. */
  ghost predicate Linked(e0: Edges, t: TxnId, sources: set<TxnId>, e: Edges) {
    && e.adj.Keys == e0.adj.Keys
    && sources <= e0.adj.Keys
    && (forall a | a in e0.adj :: e.adj[a] == if a in sources then e0.adj[a] + {t} else e0.adj[a])
    && e.degrees == e0.degrees[t := |sources|]
  }

  lemma LinkOne(e0: Edges, t: TxnId, sources: set<TxnId>, e: Edges, a: TxnId)
    requires Linked(e0, t, sources, e) && NoEdgeTo(e0.adj, t) && a in e0.adj
    ensures Linked(e0, t, sources + {a}, WithEdge(e, a, t))
  {
    if a in sources {
      assert sources + {a} == sources;
    }
  }

  lemma NoMoreEdges(e: Edges, t: TxnId)
    ensures WithEdges(e, {}, t) == e
  {
    assert NewSources(e, {}, t) == {};
    assert WithEdges(e, {}, t).adj == e.adj;
  }

  lemma LinkRows(e0: Edges, t: TxnId, sources: set<TxnId>, e: Edges, found: set<TxnId>, a: TxnId)
    requires Linked(e0, t, sources, e) && NoEdgeTo(e0.adj, t) && found <= e0.adj.Keys && a in e0.adj
    ensures WithEdges(e, found, t).adj[a] == if a in sources + found then e0.adj[a] + {t} else e0.adj[a]
    ensures a in NewSources(e, found, t) <==> a in found - sources
  {
    assert e0.adj[a] + {t} + {t} == e0.adj[a] + {t};
  }

  lemma UnionSize(x: set<TxnId>, y: set<TxnId>)
    ensures |x + y| == |x| + |y - x|
  {
    assert x + y == x + (y - x);
  }

  lemma LinkDegrees(e0: Edges, t: TxnId, sources: set<TxnId>, e: Edges, found: set<TxnId>)
    requires Linked(e0, t, sources, e) && NoEdgeTo(e0.adj, t) && found <= e0.adj.Keys
    ensures WithEdges(e, found, t).degrees == e0.degrees[t := |sources + found|]
  {
    forall a ensures a in NewSources(e, found, t) <==> a in found - sources {
      if a in e0.adj { LinkRows(e0, t, sources, e, found, a); }
    }
    assert NewSources(e, found, t) == found - sources;
    UnionSize(sources, found);
  }

  lemma LinkSet(e0: Edges, t: TxnId, sources: set<TxnId>, e: Edges, found: set<TxnId>)
    requires Linked(e0, t, sources, e) && NoEdgeTo(e0.adj, t) && found <= e0.adj.Keys
    ensures Linked(e0, t, sources + found, WithEdges(e, found, t))
  {
    var e' := WithEdges(e, found, t);
    LinkDegrees(e0, t, sources, e, found);
    forall a | a in e0.adj ensures e'.adj[a] == if a in sources + found then e0.adj[a] + {t} else e0.adj[a] {
      LinkRows(e0, t, sources, e, found, a);
    }
    assert e'.adj.Keys == e.adj.Keys;
  }

  ghost predicate Holds(holders: map<Key, set<TxnId>>, k: Key, r: TxnId) {
    k in holders && r in holders[k]
  }

  /** `a` is the last writer of one of the keys. */
  ghost predicate LastOfSome(last: map<Key, TxnId>, keys: seq<Key>, a: TxnId) {
    exists k :: k in keys && k in last && last[k] == a
  }

  /** `a` holds one of the keys. */
  ghost predicate HoldsSome(holders: map<Key, set<TxnId>>, keys: seq<Key>, a: TxnId) {
    exists k :: k in keys && Holds(holders, k, a)
  }

  lemma LastOfPrefix(last: map<Key, TxnId>, order: seq<Key>, a: TxnId)
    requires order != []
    ensures var before, key := order[..|order| - 1], order[|order| - 1];
            LastOfSome(last, order, a) <==> LastOfSome(last, before, a) || (key in last && a == last[key])
  {
    var before, key := order[..|order| - 1], order[|order| - 1];
    forall k: Key ensures k in order <==> k in before || k == key { MemberOfPrefix(order, k); }
  }

  lemma HoldsPrefix(holders: map<Key, set<TxnId>>, order: seq<Key>, a: TxnId)
    requires order != []
    ensures var before, key := order[..|order| - 1], order[|order| - 1];
            HoldsSome(holders, order, a) <==> HoldsSome(holders, before, a) || Holds(holders, key, a)
  {
    var before, key := order[..|order| - 1], order[|order| - 1];
    forall k: Key ensures k in order <==> k in before || k == key { MemberOfPrefix(order, k); }
  }

  // ---------- readers and writers of a key so far ----------

  /** `r` is a reader of `k` that no writer has followed yet. */
  ghost predicate HoldsSince(txns: seq<Txn>, lo: nat, t: nat, k: Key, r: TxnId) {
    lo <= r < t && Reads(txns, r, k) && NoWriterIn(txns, k, r, t)
  }

  /** `w` is the last writer of `k` so far. */
  ghost predicate LastWriter(txns: seq<Txn>, lo: nat, t: nat, k: Key, w: TxnId) {
    lo <= w < t && Writes(txns, w, k) && NoWriterIn(txns, k, w + 1, t)
  }

  ghost predicate LastIs(last: map<Key, TxnId>, k: Key, w: TxnId) {
    k in last && last[k] == w
  }

  lemma SuccessorsAdvance(g: Graph, a: TxnId, t: TxnId)
    requires a <= t < |g|
    ensures Successors(g, a, t + 1) == Successors(g, a, t) + if a in g[t] then {t} else {}
  {
  }
}
