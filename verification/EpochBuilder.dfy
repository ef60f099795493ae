/**
 The epoch builder: one pass over the transactions of an epoch that keeps, for
 every key, the readers since its last writer and that writer, and adds edges
 to the current transaction from what it finds there.
 */
module EpochBuilder {
  import opened Transactions
  import opened Dependencies
  import opened DagExecution
  import opened GraphEdges
  import opened Iteration

  datatype Tables = Tables(holders: map<Key, set<TxnId>>, last: map<Key, TxnId>, edges: Edges)

  // ---------- the builder, step by step ----------

  /** What the read loop does for one key. */
  ghost function ReadKey(tb: Tables, k: Key, t: TxnId): Tables {
    Tables(tb.holders[k := (if k in tb.holders then tb.holders[k] else {}) + {t}],
           tb.last,
           if k in tb.last then WithEdge(tb.edges, tb.last[k], t) else tb.edges)
  }

  ghost function ReadAll(tb: Tables, order: seq<Key>, t: TxnId): Tables {
    if order == [] then tb
    else ReadKey(ReadAll(tb, order[..|order| - 1], t), order[|order| - 1], t)
  }

  /** What the write loop does for one key. */
  ghost function WriteKey(tb: Tables, k: Key, t: TxnId): Tables {
    if k in tb.holders
    then Tables(tb.holders[k := {}], tb.last[k := t], WithEdges(tb.edges, tb.holders[k], t))
    else Tables(tb.holders, tb.last[k := t], tb.edges)
  }

  ghost function WriteAll(tb: Tables, order: seq<Key>, t: TxnId): Tables {
    if order == [] then tb
    else WriteKey(WriteAll(tb, order[..|order| - 1], t), order[|order| - 1], t)
  }

  /** The tables only mention transactions of the graph under construction. */
  ghost predicate Closed(tb: Tables, t: TxnId) {
    && t in tb.edges.adj && t in tb.edges.degrees
    && (forall k | k in tb.last :: tb.last[k] in tb.edges.adj)
    && (forall k | k in tb.holders :: tb.holders[k] <= tb.edges.adj.Keys)
  }

  lemma ClosedKept(tb: Tables, k: Key, t: TxnId)
    requires Closed(tb, t)
    ensures Closed(ReadKey(tb, k, t), t) && Closed(WriteKey(tb, k, t), t)
  {
  }

  method ReadLoop(tb: Tables, readset: set<Key>, t: TxnId) returns (tb': Tables, ghost order: seq<Key>)
    requires Closed(tb, t)
    ensures Enumerates(order, readset) && tb' == ReadAll(tb, order, t) && Closed(tb', t)
  {
    tb' := tb;
    var keys := Enumerate(readset);
    order := keys;
    for i := 0 to |keys|
      invariant tb' == ReadAll(tb, keys[..i], t) && Closed(tb', t)
    {
      assert keys[..i + 1][..i] == keys[..i];
      ClosedKept(tb', keys[i], t);
      var key, holders, edges := keys[i], tb'.holders, tb'.edges;
      if key !in holders {
        holders := holders[key := {}];
      }
      holders := holders[key := holders[key] + {t}];
      if key in tb'.last {
        edges := AddEdge(edges, tb'.last[key], t);
      }
      assert holders == ReadKey(tb', key, t).holders;
      tb' := Tables(holders, tb'.last, edges);
    }
    assert keys[..|keys|] == keys;
  }

  method WriteLoop(tb: Tables, writeset: set<Key>, t: TxnId) returns (tb': Tables, ghost order: seq<Key>)
    requires Closed(tb, t)
    ensures Enumerates(order, writeset) && tb' == WriteAll(tb, order, t)
  {
    tb' := tb;
    var keys := Enumerate(writeset);
    order := keys;
    for i := 0 to |keys|
      invariant tb' == WriteAll(tb, keys[..i], t) && Closed(tb', t)
    {
      assert keys[..i + 1][..i] == keys[..i];
      ClosedKept(tb', keys[i], t);
      var key, holders, edges := keys[i], tb'.holders, tb'.edges;
      if key in holders {
        edges := ScanHolders(edges, holders[key], t);
        holders := holders[key := {}];
      }
      tb' := Tables(holders, tb'.last[key := t], edges);
    }
    assert keys[..|keys|] == keys;
  }

  // ---------- what the loops add up to ----------

  lemma {:induction false} ReadAllTables(tb: Tables, order: seq<Key>, t: TxnId)
    requires Closed(tb, t)
    ensures var tb' := ReadAll(tb, order, t); tb'.last == tb.last && Closed(tb', t)
    ensures forall k: Key, r: TxnId ::
              Holds(ReadAll(tb, order, t).holders, k, r) <==> Holds(tb.holders, k, r) || (r == t && k in order)
    decreases |order|
  {
    if order != [] {
      var before, key := order[..|order| - 1], order[|order| - 1];
      ReadAllTables(tb, before, t);
      ClosedKept(ReadAll(tb, before, t), key, t);
      forall k: Key, r: TxnId
        ensures Holds(ReadAll(tb, order, t).holders, k, r) <==> Holds(tb.holders, k, r) || (r == t && k in order)
      {
        MemberOfPrefix(order, k);
      }
    }
  }

  lemma {:induction false} WriteAllTables(tb: Tables, order: seq<Key>, t: TxnId)
    requires Closed(tb, t)
    ensures Closed(WriteAll(tb, order, t), t)
    ensures var last := WriteAll(tb, order, t).last;
            forall k: Key :: if k in order then k in last && last[k] == t
                             else (k in last <==> k in tb.last) && (k in last ==> last[k] == tb.last[k])
    ensures forall k: Key, r: TxnId ::
              Holds(WriteAll(tb, order, t).holders, k, r) <==> Holds(tb.holders, k, r) && k !in order
    decreases |order|
  {
    if order != [] {
      var before, key := order[..|order| - 1], order[|order| - 1];
      WriteAllTables(tb, before, t);
      ClosedKept(WriteAll(tb, before, t), key, t);
      forall k: Key ensures k in order <==> k in before || k == key { MemberOfPrefix(order, k); }
      forall k: Key, r: TxnId
        ensures Holds(WriteAll(tb, order, t).holders, k, r) <==> Holds(tb.holders, k, r) && k !in order
      {
        assert Holds(WriteAll(tb, before, t).holders, k, r) <==> Holds(tb.holders, k, r) && k !in before;
      }
    }
  }

  lemma {:induction false} ReadAllEdges(e0: Edges, tb: Tables, order: seq<Key>, t: TxnId) returns (sources: set<TxnId>)
    requires Closed(tb, t) && NoEdgeTo(e0.adj, t) && Linked(e0, t, {}, tb.edges)
    ensures Linked(e0, t, sources, ReadAll(tb, order, t).edges)
    ensures forall a :: a in sources <==> LastOfSome(tb.last, order, a)
    decreases |order|
  {
    sources := {};
    if order != [] {
      var before, key := order[..|order| - 1], order[|order| - 1];
      sources := ReadAllEdges(e0, tb, before, t);
      ReadAllTables(tb, before, t);
      forall a ensures LastOfSome(tb.last, order, a)
                  <==> LastOfSome(tb.last, before, a) || (key in tb.last && a == tb.last[key])
      {
        LastOfPrefix(tb.last, order, a);
      }
      if key in tb.last {
        LinkOne(e0, t, sources, ReadAll(tb, before, t).edges, tb.last[key]);
        sources := sources + {tb.last[key]};
      }
    }
  }

  lemma {:induction false} WriteAllEdges(e0: Edges, tb: Tables, order: seq<Key>, t: TxnId, before: set<TxnId>)
    returns (sources: set<TxnId>)
    requires Closed(tb, t) && NoEdgeTo(e0.adj, t) && Linked(e0, t, before, tb.edges)
    ensures Linked(e0, t, sources, WriteAll(tb, order, t).edges)
    ensures forall a :: a in sources <==> a in before || HoldsSome(tb.holders, order, a)
    decreases |order|
  {
    sources := before;
    if order != [] {
      var front, key := order[..|order| - 1], order[|order| - 1];
      sources := WriteAllEdges(e0, tb, front, t, before);
      WriteAllTables(tb, front, t);
      var mid := WriteAll(tb, front, t);
      var found := if key in mid.holders then mid.holders[key] else {};
      forall a ensures a in sources + found <==> a in before || HoldsSome(tb.holders, order, a) {
        HoldsPrefix(tb.holders, order, a);
        assert Holds(mid.holders, key, a) <==> Holds(tb.holders, key, a) && key !in front;
        assert key in front && Holds(tb.holders, key, a) ==> HoldsSome(tb.holders, front, a);
      }
      if key in mid.holders {
        LinkSet(e0, t, sources, mid.edges, found);
      }
      sources := sources + found;
    }
  }

  // ---------- what the tables mean ----------

  /** `shared_holders` and `last_excl` after the transactions lo..t. */
  ghost predicate TablesOf(txns: seq<Txn>, lo: nat, t: nat, tb: Tables) {
    && (forall k: Key, r: TxnId :: Holds(tb.holders, k, r) <==> HoldsSince(txns, lo, t, k, r))
    && (forall k: Key, w: TxnId :: LastIs(tb.last, k, w) <==> LastWriter(txns, lo, t, k, w))
  }

  lemma TablesAdvance(txns: seq<Txn>, lo: nat, t: TxnId, tb: Tables, readOrder: seq<Key>, writeOrder: seq<Key>)
    requires lo <= t < |txns| && TablesOf(txns, lo, t, tb) && Closed(tb, t)
    requires Enumerates(readOrder, txns[t].readset) && Enumerates(writeOrder, txns[t].writeset)
    ensures TablesOf(txns, lo, t + 1, WriteAll(ReadAll(tb, readOrder, t), writeOrder, t))
  {
    var mid := ReadAll(tb, readOrder, t);
    var tb' := WriteAll(mid, writeOrder, t);
    ReadAllTables(tb, readOrder, t);
    WriteAllTables(mid, writeOrder, t);
    forall k: Key, r: TxnId ensures Holds(tb'.holders, k, r) <==> HoldsSince(txns, lo, t + 1, k, r) {
      assert Holds(tb.holders, k, r) <==> HoldsSince(txns, lo, t, k, r);
      assert HoldsSince(txns, lo, t + 1, k, r)
        <==> !Writes(txns, t, k) && (HoldsSince(txns, lo, t, k, r) || (r == t && Reads(txns, t, k)));
    }
    forall k: Key, w: TxnId ensures LastIs(tb'.last, k, w) <==> LastWriter(txns, lo, t + 1, k, w) {
      assert LastIs(tb.last, k, w) <==> LastWriter(txns, lo, t, k, w);
      assert LastWriter(txns, lo, t + 1, k, w)
        <==> if Writes(txns, t, k) then w == t else LastWriter(txns, lo, t, k, w);
    }
  }

  /** Together the two loops look at exactly the sources of the epoch edges into `t`. */
  lemma SourcesAreEdges(txns: seq<Txn>, lo: nat, t: TxnId, tb: Tables, readOrder: seq<Key>, writeOrder: seq<Key>, a: TxnId)
    requires lo <= t < |txns| && TablesOf(txns, lo, t, tb) && Closed(tb, t)
    requires Enumerates(readOrder, txns[t].readset) && Enumerates(writeOrder, txns[t].writeset)
    ensures LastOfSome(tb.last, readOrder, a) || HoldsSome(ReadAll(tb, readOrder, t).holders, writeOrder, a)
       <==> lo <= a <= t && EpochEdge(txns, a, t)
  {
    var mid := ReadAll(tb, readOrder, t);
    ReadAllTables(tb, readOrder, t);
    if LastOfSome(tb.last, readOrder, a) {
      var k :| k in readOrder && k in tb.last && tb.last[k] == a;
      assert LastIs(tb.last, k, a);
      assert EpochEdgeOn(txns, a, t, k);
    }
    if HoldsSome(mid.holders, writeOrder, a) {
      var k :| k in writeOrder && Holds(mid.holders, k, a);
      assert Holds(tb.holders, k, a) <==> HoldsSince(txns, lo, t, k, a);
      assert EpochEdgeOn(txns, a, t, k);
    }
    if lo <= a <= t && EpochEdge(txns, a, t) {
      var k :| EpochEdgeOn(txns, a, t, k);
      assert LastIs(tb.last, k, a) <==> LastWriter(txns, lo, t, k, a);
      assert Holds(tb.holders, k, a) <==> HoldsSince(txns, lo, t, k, a);
      assert Holds(mid.holders, k, a) <==> Holds(tb.holders, k, a) || (a == t && k in readOrder);
    }
  }

  // ---------- the whole epoch ----------

  /** The graph of lo..t with a fresh node `t`. */
  ghost function WithNode(g: Graph, lo: nat, t: TxnId): Edges
    requires lo <= t < |g|
  {
    Edges(DagOf(g, lo, t).adj[t := {}], DagOf(g, lo, t).indegree[t := 0])
  }

  lemma NodeIsFresh(g: Graph, lo: nat, t: TxnId)
    requires lo <= t < |g|
    ensures NoEdgeTo(WithNode(g, lo, t).adj, t)
    ensures forall a: TxnId :: a in WithNode(g, lo, t).adj <==> lo <= a <= t
  {
    forall a: TxnId | lo <= a < t ensures t !in DagOf(g, lo, t).adj[a] {
      assert DagOf(g, lo, t).adj[a] == Successors(g, a, t);
    }
  }

  lemma DagAdvances(g: Graph, lo: nat, t: TxnId, e: Edges)
    requires lo <= t < |g|
    requires Linked(WithNode(g, lo, t), t, PredsFrom(g, lo, t), e)
    ensures e == Edges(DagOf(g, lo, t + 1).adj, DagOf(g, lo, t + 1).indegree)
  {
    var dag := DagOf(g, lo, t + 1);
    NodeIsFresh(g, lo, t);
    forall a: TxnId | lo <= a <= t ensures e.adj[a] == dag.adj[a] {
      RowAdvances(g, lo, t, a);
    }
    assert e.adj == dag.adj;
    DegreesAdvance(g, lo, t);
  }

  lemma RowAdvances(g: Graph, lo: nat, t: TxnId, a: TxnId)
    requires lo <= a <= t < |g|
    ensures DagOf(g, lo, t + 1).adj[a] == WithNode(g, lo, t).adj[a] + if a in g[t] then {t} else {}
  {
    SuccessorsAdvance(g, a, t);
    assert a == t ==> Successors(g, a, t) == {};
  }

  lemma DegreesAdvance(g: Graph, lo: nat, t: TxnId)
    requires lo <= t < |g|
    ensures DagOf(g, lo, t + 1).indegree == WithNode(g, lo, t).degrees[t := |PredsFrom(g, lo, t)|]
  {
  }

  /** The part of the builder's turn that brings tables and edges up to date. */
  method AddTxn(txns: seq<Txn>, ghost lo: nat, t: TxnId, tb: Tables) returns (tb': Tables)
    requires lo <= t < |txns| && TablesOf(txns, lo, t, tb)
    requires tb.edges == Edges(DagOf(EpochGraph(txns), lo, t).adj, DagOf(EpochGraph(txns), lo, t).indegree)
    ensures TablesOf(txns, lo, t + 1, tb')
    ensures tb'.edges == Edges(DagOf(EpochGraph(txns), lo, t + 1).adj, DagOf(EpochGraph(txns), lo, t + 1).indegree)
  {
    ghost var g := EpochGraph(txns);
    var start := tb.(edges := Edges(tb.edges.adj[t := {}], tb.edges.degrees[t := 0]));
    TablesClosed(txns, lo, t, start, g);
    ghost var readOrder, writeOrder;
    var mid;
    mid, readOrder := ReadLoop(start, txns[t].readset, t);
    tb', writeOrder := WriteLoop(mid, txns[t].writeset, t);
    TablesAdvance(txns, lo, t, start, readOrder, writeOrder);
    EdgesAdvance(txns, lo, t, start, readOrder, writeOrder);
  }

  lemma TablesClosed(txns: seq<Txn>, lo: nat, t: TxnId, tb: Tables, g: Graph)
    requires lo <= t < |txns| == |g| && TablesOf(txns, lo, t, tb) && tb.edges == WithNode(g, lo, t)
    ensures Closed(tb, t)
  {
    NodeIsFresh(g, lo, t);
    forall k | k in tb.last ensures tb.last[k] in tb.edges.adj {
      assert LastIs(tb.last, k, tb.last[k]);
    }
    forall k, r | k in tb.holders && r in tb.holders[k] ensures r in tb.edges.adj {
      assert Holds(tb.holders, k, r);
    }
  }

  lemma EdgesAdvance(txns: seq<Txn>, lo: nat, t: TxnId, tb: Tables, readOrder: seq<Key>, writeOrder: seq<Key>)
    requires lo <= t < |txns| && TablesOf(txns, lo, t, tb) && Closed(tb, t)
    requires tb.edges == WithNode(EpochGraph(txns), lo, t)
    requires Enumerates(readOrder, txns[t].readset) && Enumerates(writeOrder, txns[t].writeset)
    ensures var e, dag := WriteAll(ReadAll(tb, readOrder, t), writeOrder, t).edges, DagOf(EpochGraph(txns), lo, t + 1);
            e == Edges(dag.adj, dag.indegree)
  {
    var g, e0 := EpochGraph(txns), tb.edges;
    NodeIsFresh(g, lo, t);
    assert Linked(e0, t, {}, e0);
    var before := ReadAllEdges(e0, tb, readOrder, t);
    ReadAllTables(tb, readOrder, t);
    var sources := WriteAllEdges(e0, ReadAll(tb, readOrder, t), writeOrder, t, before);
    forall a ensures a in sources <==> a in PredsFrom(g, lo, t) {
      SourcesAreEdges(txns, lo, t, tb, readOrder, writeOrder, a);
    }
    assert sources == PredsFrom(g, lo, t);
    DagAdvances(g, lo, t, WriteAll(ReadAll(tb, readOrder, t), writeOrder, t).edges);
  }

  lemma RootsAdvance(g: Graph, lo: nat, t: TxnId)
    requires lo <= t < |g|
    ensures DagOf(g, lo, t + 1).roots
         == if DagOf(g, lo, t + 1).indegree[t] == 0 then DagOf(g, lo, t).roots + [t] else DagOf(g, lo, t).roots
  {
  }

  /** One turn of the builder's loop. */
  method AddNode(txns: seq<Txn>, ghost lo: nat, t: TxnId, tb: Tables, roots: seq<TxnId>)
    returns (tb': Tables, roots': seq<TxnId>)
    requires lo <= t < |txns| && TablesOf(txns, lo, t, tb)
    requires EpochDag(tb.edges.adj, tb.edges.degrees, roots) == DagOf(EpochGraph(txns), lo, t)
    ensures TablesOf(txns, lo, t + 1, tb')
    ensures EpochDag(tb'.edges.adj, tb'.edges.degrees, roots') == DagOf(EpochGraph(txns), lo, t + 1)
  {
    tb' := AddTxn(txns, lo, t, tb);
    RootsAdvance(EpochGraph(txns), lo, t);
    roots' := if tb'.edges.degrees[t] == 0 then roots + [t] else roots;
  }

  /** The builder's loop over the epoch. */
  method LinkEpoch(txns: seq<Txn>, lo: nat, hi: nat) returns (dag: EpochDag)
    requires lo <= hi <= |txns|
    ensures dag == DagOf(EpochGraph(txns), lo, hi)
  {
    var tb, roots := Tables(map[], map[], Edges(map[], map[])), [];
    for t := lo to hi
      invariant TablesOf(txns, lo, t, tb)
      invariant EpochDag(tb.edges.adj, tb.edges.degrees, roots) == DagOf(EpochGraph(txns), lo, t)
    {
      tb, roots := AddNode(txns, lo, t, tb, roots);
    }
    dag := EpochDag(tb.edges.adj, tb.edges.degrees, roots);
  }

  /** Building the graph of the epoch lo..hi yields exactly its epoch edges, indegrees and roots. */
  method BuildEpochDag(txns: seq<Txn>, lo: nat, hi: nat) returns (dag: EpochDag)
    requires lo <= hi <= |txns|
    ensures dag == DagOf(EpochGraph(txns), lo, hi)
    ensures DagTells(EpochGraph(txns), lo, hi, dag)
  {
    dag := LinkEpoch(txns, lo, hi);
    DagOfTells(EpochGraph(txns), lo, hi, dag);
  }
}
