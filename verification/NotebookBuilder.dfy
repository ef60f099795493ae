/**
 The prototype builder of the notebook.  For every key it keeps one holder
 set with a mode: the last writer (exclusive), or the readers since (shared),
 next to the last writer.  It also links a writer to the writer before it
 when nobody has read the key in between.

 With the modes taken out, the table says the same as the two tables of the
 epoch builder, except that a key without readers since its last writer has
 that writer as its holder.
 */
module NotebookBuilder {
  import opened Transactions
  import opened Dependencies
  import opened DagExecution
  import opened GraphEdges
  import opened Iteration

  datatype Mode = S | E

  datatype Tables = Tables(
    status: map<Key, Mode>, lockTable: map<Key, set<TxnId>>, last: map<Key, TxnId>, edges: Edges)

  // ---------- the builder, step by step ----------

  ghost function ReadKey(tb: Tables, k: Key, t: TxnId): Tables {
    if k in tb.status && tb.status[k] == S && k in tb.lockTable then
      Tables(tb.status, tb.lockTable[k := tb.lockTable[k] + {t}], tb.last,
             if k in tb.last then WithEdge(tb.edges, tb.last[k], t) else tb.edges)
    else
      Tables(tb.status[k := S], tb.lockTable[k := {t}], tb.last,
             if k in tb.status && k in tb.lockTable then WithEdges(tb.edges, tb.lockTable[k], t) else tb.edges)
  }

  ghost function ReadAll(tb: Tables, order: seq<Key>, t: TxnId): Tables {
    if order == [] then tb
    else ReadKey(ReadAll(tb, order[..|order| - 1], t), order[|order| - 1], t)
  }

  ghost function WriteKey(tb: Tables, k: Key, t: TxnId): Tables {
    Tables(tb.status[k := E], tb.lockTable[k := {t}], tb.last[k := t],
           if k in tb.lockTable then WithEdges(tb.edges, tb.lockTable[k], t) else tb.edges)
  }

  ghost function WriteAll(tb: Tables, order: seq<Key>, t: TxnId): Tables {
    if order == [] then tb
    else WriteKey(WriteAll(tb, order[..|order| - 1], t), order[|order| - 1], t)
  }

  /** Holder sets fit their mode and mention only transactions of the graph under construction. */
  ghost predicate Closed(tb: Tables, t: TxnId) {
    && t in tb.edges.adj && t in tb.edges.degrees
    && tb.lockTable.Keys == tb.status.Keys
    && (forall k | k in tb.last :: tb.last[k] in tb.edges.adj && k in tb.status)
    && (forall k | k in tb.lockTable :: tb.lockTable[k] <= tb.edges.adj.Keys)
    && (forall k | k in tb.status && tb.status[k] == E :: k in tb.last && tb.lockTable[k] == {tb.last[k]})
  }

  lemma ReadKeepsClosed(tb: Tables, k: Key, t: TxnId)
    requires Closed(tb, t)
    ensures Closed(ReadKey(tb, k, t), t)
  {
  }

  lemma WriteKeepsClosed(tb: Tables, k: Key, t: TxnId)
    requires Closed(tb, t)
    ensures Closed(WriteKey(tb, k, t), t)
  {
  }

  method ReadOne(tb: Tables, key: Key, t: TxnId) returns (tb': Tables)
    requires Closed(tb, t)
    ensures tb' == ReadKey(tb, key, t)
  {
    if key in tb.status {
      if tb.status[key] == S {
        var edges := tb.edges;
        if key in tb.last {
          edges := AddEdge(edges, tb.last[key], t);
        }
        tb' := Tables(tb.status, tb.lockTable[key := tb.lockTable[key] + {t}], tb.last, edges);
      } else {
        var edges := ScanHolders(tb.edges, tb.lockTable[key], t);
        tb' := Tables(tb.status[key := S], tb.lockTable[key := {t}], tb.last, edges);
      }
    } else {
      tb' := Tables(tb.status[key := S], tb.lockTable[key := {t}], tb.last, tb.edges);
    }
  }

  method WriteOne(tb: Tables, key: Key, t: TxnId) returns (tb': Tables)
    requires Closed(tb, t)
    ensures tb' == WriteKey(tb, key, t)
  {
    var edges := tb.edges;
    if key in tb.lockTable {
      edges := ScanHolders(edges, tb.lockTable[key], t);
    }
    tb' := Tables(tb.status[key := E], tb.lockTable[key := {t}], tb.last[key := t], edges);
  }

  method ReadLoop(tb: Tables, readset: set<Key>, t: TxnId) returns (tb': Tables, ghost order: seq<Key>)
    requires Closed(tb, t)
    ensures Enumerates(order, readset) && tb' == ReadAll(tb, order, t) && Closed(tb', t)
  {
    tb' := tb;
    var keys := Enumerate(readset);
    order := keys;
    for i := 0 to |keys|
      invariant tb' == ReadAll(tb, keys[..i], t) && Closed(tb', t)
    {
      assert keys[..i + 1][..i] == keys[..i];
      ReadKeepsClosed(tb', keys[i], t);
      tb' := ReadOne(tb', keys[i], t);
    }
    assert keys[..|keys|] == keys;
  }

  method WriteLoop(tb: Tables, writeset: set<Key>, t: TxnId) returns (tb': Tables, ghost order: seq<Key>)
    requires Closed(tb, t)
    ensures Enumerates(order, writeset) && tb' == WriteAll(tb, order, t)
  {
    tb' := tb;
    var keys := Enumerate(writeset);
    order := keys;
    for i := 0 to |keys|
      invariant tb' == WriteAll(tb, keys[..i], t) && Closed(tb', t)
    {
      assert keys[..i + 1][..i] == keys[..i];
      WriteKeepsClosed(tb', keys[i], t);
      tb' := WriteOne(tb', keys[i], t);
    }
    assert keys[..|keys|] == keys;
  }

  // ---------- what the loops add up to ----------

  ghost predicate Shared(tb: Tables, k: Key) {
    k in tb.status && tb.status[k] == S
  }

  /** A holder of `k` after reading the keys of `order`: `t` itself, and the readers before it. */
  ghost predicate HoldsAfterReads(tb: Tables, order: seq<Key>, t: TxnId, k: Key, r: TxnId) {
    if k in order then r == t || (Shared(tb, k) && Holds(tb.lockTable, k, r)) else Holds(tb.lockTable, k, r)
  }

  /** A holder of `k` after writing the keys of `order`: `t` alone. */
  ghost predicate HoldsAfterWrites(tb: Tables, order: seq<Key>, t: TxnId, k: Key, r: TxnId) {
    if k in order then r == t else Holds(tb.lockTable, k, r)
  }

  lemma {:induction false} ReadAllClosed(tb: Tables, order: seq<Key>, t: TxnId)
    requires Closed(tb, t)
    ensures Closed(ReadAll(tb, order, t), t) && ReadAll(tb, order, t).last == tb.last
    decreases |order|
  {
    if order != [] {
      var before := order[..|order| - 1];
      ReadAllClosed(tb, before, t);
      ReadKeepsClosed(ReadAll(tb, before, t), order[|order| - 1], t);
    }
  }

  lemma {:induction false} ReadAllModes(tb: Tables, order: seq<Key>, t: TxnId, k: Key)
    requires Closed(tb, t)
    ensures Shared(ReadAll(tb, order, t), k) <==> Shared(tb, k) || k in order
    decreases |order|
  {
    if order != [] {
      ReadAllClosed(tb, order[..|order| - 1], t);
      ReadAllModes(tb, order[..|order| - 1], t, k);
      MemberOfPrefix(order, k);
    }
  }

  lemma {:induction false} ReadAllHolders(tb: Tables, order: seq<Key>, t: TxnId, k: Key, r: TxnId)
    requires Closed(tb, t)
    ensures Holds(ReadAll(tb, order, t).lockTable, k, r) <==> HoldsAfterReads(tb, order, t, k, r)
    decreases |order|
  {
    if order != [] {
      var before := order[..|order| - 1];
      ReadAllClosed(tb, before, t);
      ReadAllModes(tb, before, t, k);
      ReadAllHolders(tb, before, t, k, r);
      MemberOfPrefix(order, k);
    }
  }

  lemma {:induction false} WriteAllClosed(tb: Tables, order: seq<Key>, t: TxnId)
    requires Closed(tb, t)
    ensures Closed(WriteAll(tb, order, t), t)
    decreases |order|
  {
    if order != [] {
      var before := order[..|order| - 1];
      WriteAllClosed(tb, before, t);
      WriteKeepsClosed(WriteAll(tb, before, t), order[|order| - 1], t);
    }
  }

  lemma {:induction false} WriteAllTables(tb: Tables, order: seq<Key>, t: TxnId, k: Key, a: TxnId)
    ensures var tb' := WriteAll(tb, order, t);
            && (Shared(tb', k) <==> Shared(tb, k) && k !in order)
            && (LastIs(tb'.last, k, a) <==> if k in order then a == t else LastIs(tb.last, k, a))
            && (Holds(tb'.lockTable, k, a) <==> HoldsAfterWrites(tb, order, t, k, a))
    decreases |order|
  {
    if order != [] {
      WriteAllTables(tb, order[..|order| - 1], t, k, a);
      MemberOfPrefix(order, k);
    }
  }

  /** Whatever the mode, reading a key links its last writer. */
  lemma ReadLinksLast(tb: Tables, k: Key, t: TxnId)
    requires Closed(tb, t)
    ensures ReadKey(tb, k, t).edges == if k in tb.last then WithEdge(tb.edges, tb.last[k], t) else tb.edges
  {
    if k in tb.status && tb.status[k] == E {
      NoMoreEdges(tb.edges, t);
      OneMoreEdge(tb.edges, {}, tb.last[k], t);
      assert {} + {tb.last[k]} == tb.lockTable[k];
    }
  }

  lemma {:induction false} ReadAllEdges(e0: Edges, tb: Tables, order: seq<Key>, t: TxnId) returns (sources: set<TxnId>)
    requires Closed(tb, t) && NoEdgeTo(e0.adj, t) && Linked(e0, t, {}, tb.edges)
    ensures Linked(e0, t, sources, ReadAll(tb, order, t).edges)
    ensures forall a :: a in sources <==> LastOfSome(tb.last, order, a)
    decreases |order|
  {
    sources := {};
    if order != [] {
      var before, key := order[..|order| - 1], order[|order| - 1];
      sources := ReadAllEdges(e0, tb, before, t);
      ReadAllClosed(tb, before, t);
      ReadLinksLast(ReadAll(tb, before, t), key, t);
      forall a ensures LastOfSome(tb.last, order, a)
                  <==> LastOfSome(tb.last, before, a) || (key in tb.last && a == tb.last[key])
      {
        LastOfPrefix(tb.last, order, a);
      }
      if key in tb.last {
        LinkOne(e0, t, sources, ReadAll(tb, before, t).edges, tb.last[key]);
        sources := sources + {tb.last[key]};
      }
    }
  }

  lemma {:induction false} WriteAllEdges(e0: Edges, tb: Tables, order: seq<Key>, t: TxnId, before: set<TxnId>)
    returns (sources: set<TxnId>)
    requires Closed(tb, t) && NoEdgeTo(e0.adj, t) && Linked(e0, t, before, tb.edges)
    requires forall i, j | 0 <= i < j < |order| :: order[i] != order[j]
    ensures Linked(e0, t, sources, WriteAll(tb, order, t).edges)
    ensures forall a :: a in sources <==> a in before || HoldsSome(tb.lockTable, order, a)
    decreases |order|
  {
    sources := before;
    if order != [] {
      var front, key := order[..|order| - 1], order[|order| - 1];
      sources := WriteAllEdges(e0, tb, front, t, before);
      WriteAllClosed(tb, front, t);
      var mid := WriteAll(tb, front, t);
      assert key !in front;
      var found := if key in mid.lockTable then mid.lockTable[key] else {};
      forall a ensures a in sources + found <==> a in before || HoldsSome(tb.lockTable, order, a) {
        HoldsPrefix(tb.lockTable, order, a);
        WriteAllTables(tb, front, t, key, a);
      }
      if key in mid.lockTable {
        LinkSet(e0, t, sources, mid.edges, found);
      }
      sources := sources + found;
    }
  }

  // ---------- what the tables mean ----------

  /** `a` wrote `k` last and nobody has read `k` since. */
  ghost predicate LastUnread(txns: seq<Txn>, t: nat, k: Key, a: TxnId) {
    LastWriter(txns, 0, t, k, a) && NoReaderIn(txns, k, a + 1, t)
  }

  ghost predicate TablesOf(txns: seq<Txn>, t: nat, tb: Tables) {
    && (forall k: Key, a: TxnId :: Holds(tb.lockTable, k, a) <==> HoldsSince(txns, 0, t, k, a) || LastUnread(txns, t, k, a))
    && (forall k: Key, a: TxnId | HoldsSince(txns, 0, t, k, a) :: Shared(tb, k))
    && (forall k: Key, a: TxnId | LastUnread(txns, t, k, a) :: !Shared(tb, k))
    && (forall k: Key, w: TxnId :: LastIs(tb.last, k, w) <==> LastWriter(txns, 0, t, k, w))
  }

  lemma SinceStep(txns: seq<Txn>, t: TxnId, k: Key, a: TxnId)
    requires t < |txns|
    ensures HoldsSince(txns, 0, t + 1, k, a)
       <==> !Writes(txns, t, k) && (HoldsSince(txns, 0, t, k, a) || (a == t && Reads(txns, t, k)))
    ensures LastWriter(txns, 0, t + 1, k, a)
       <==> if Writes(txns, t, k) then a == t else LastWriter(txns, 0, t, k, a)
    ensures LastUnread(txns, t + 1, k, a)
       <==> if Writes(txns, t, k) then a == t else LastUnread(txns, t, k, a) && !Reads(txns, t, k)
  {
  }

  lemma TablesAdvanceAt(txns: seq<Txn>, t: TxnId, tb: Tables, readOrder: seq<Key>, writeOrder: seq<Key>, k: Key, a: TxnId)
    requires t < |txns| && TablesOf(txns, t, tb) && Closed(tb, t)
    requires Enumerates(readOrder, txns[t].readset) && Enumerates(writeOrder, txns[t].writeset)
    ensures var tb' := WriteAll(ReadAll(tb, readOrder, t), writeOrder, t);
            && (Holds(tb'.lockTable, k, a) <==> HoldsSince(txns, 0, t + 1, k, a) || LastUnread(txns, t + 1, k, a))
            && (HoldsSince(txns, 0, t + 1, k, a) ==> Shared(tb', k))
            && (LastUnread(txns, t + 1, k, a) ==> !Shared(tb', k))
            && (LastIs(tb'.last, k, a) <==> LastWriter(txns, 0, t + 1, k, a))
  {
    ReadAllClosed(tb, readOrder, t);
    ReadAllModes(tb, readOrder, t, k);
    ReadAllHolders(tb, readOrder, t, k, a);
    WriteAllTables(ReadAll(tb, readOrder, t), writeOrder, t, k, a);
    SinceStep(txns, t, k, a);
    assert Holds(tb.lockTable, k, a) <==> HoldsSince(txns, 0, t, k, a) || LastUnread(txns, t, k, a);
    assert LastIs(tb.last, k, a) <==> LastWriter(txns, 0, t, k, a);
  }

  lemma TablesAdvance(txns: seq<Txn>, t: TxnId, tb: Tables, readOrder: seq<Key>, writeOrder: seq<Key>)
    requires t < |txns| && TablesOf(txns, t, tb) && Closed(tb, t)
    requires Enumerates(readOrder, txns[t].readset) && Enumerates(writeOrder, txns[t].writeset)
    ensures TablesOf(txns, t + 1, WriteAll(ReadAll(tb, readOrder, t), writeOrder, t))
  {
    var tb', n := WriteAll(ReadAll(tb, readOrder, t), writeOrder, t), t + 1;
    forall k: Key, a: TxnId
      ensures Holds(tb'.lockTable, k, a) <==> HoldsSince(txns, 0, n, k, a) || LastUnread(txns, n, k, a)
    {
      TablesAdvanceAt(txns, t, tb, readOrder, writeOrder, k, a);
    }
    forall k: Key, a: TxnId | HoldsSince(txns, 0, n, k, a) ensures Shared(tb', k) {
      TablesAdvanceAt(txns, t, tb, readOrder, writeOrder, k, a);
    }
    forall k: Key, a: TxnId | LastUnread(txns, n, k, a) ensures !Shared(tb', k) {
      TablesAdvanceAt(txns, t, tb, readOrder, writeOrder, k, a);
    }
    forall k: Key, w: TxnId ensures LastIs(tb'.last, k, w) <==> LastWriter(txns, 0, n, k, w) {
      TablesAdvanceAt(txns, t, tb, readOrder, writeOrder, k, w);
    }
  }

  /** Together the two loops look at exactly the sources of the notebook edges into `t`. */
  lemma SourcesAreEdges(txns: seq<Txn>, t: TxnId, tb: Tables, readOrder: seq<Key>, writeOrder: seq<Key>, a: TxnId)
    requires t < |txns| && TablesOf(txns, t, tb) && Closed(tb, t)
    requires Enumerates(readOrder, txns[t].readset) && Enumerates(writeOrder, txns[t].writeset)
    ensures LastOfSome(tb.last, readOrder, a) || HoldsSome(ReadAll(tb, readOrder, t).lockTable, writeOrder, a)
       <==> a <= t && NotebookEdge(txns, a, t)
  {
    var mid := ReadAll(tb, readOrder, t);
    forall k: Key ensures Holds(mid.lockTable, k, a) <==> HoldsAfterReads(tb, readOrder, t, k, a) {
      ReadAllHolders(tb, readOrder, t, k, a);
    }
    if LastOfSome(tb.last, readOrder, a) {
      var k :| k in readOrder && k in tb.last && tb.last[k] == a;
      assert LastIs(tb.last, k, a);
      assert EpochEdgeOn(txns, a, t, k);
    }
    if HoldsSome(mid.lockTable, writeOrder, a) {
      var k :| k in writeOrder && Holds(mid.lockTable, k, a);
      assert Holds(tb.lockTable, k, a) <==> HoldsSince(txns, 0, t, k, a) || LastUnread(txns, t, k, a);
      if HoldsSince(txns, 0, t, k, a) || a == t {
        assert EpochEdgeOn(txns, a, t, k);
      } else {
        assert BlindPairOn(txns, a, t, k);
      }
    }
    if a <= t && EpochEdge(txns, a, t) {
      var k :| EpochEdgeOn(txns, a, t, k);
      assert LastIs(tb.last, k, a) <==> LastWriter(txns, 0, t, k, a);
      assert Holds(tb.lockTable, k, a) <==> HoldsSince(txns, 0, t, k, a) || LastUnread(txns, t, k, a);
    }
    if a <= t && BlindPair(txns, a, t) {
      var k :| BlindPairOn(txns, a, t, k);
      assert LastIs(tb.last, k, a) <==> LastWriter(txns, 0, t, k, a);
      assert Holds(tb.lockTable, k, a) <==> HoldsSince(txns, 0, t, k, a) || LastUnread(txns, t, k, a);
    }
  }

  // ---------- the whole list ----------

  /** The edges among the first `t` of `n` transactions; all nodes are there from the start. */
  ghost function Partial(g: Graph, t: nat, n: nat): Edges
    requires t <= n <= |g|
  {
    Edges(map a: TxnId | 0 <= a < n :: Successors(g, a, t),
          map b: TxnId | 0 <= b < n :: if b < t then |PredsFrom(g, 0, b)| else 0)
  }

  lemma PartialAdvances(g: Graph, t: TxnId, n: nat, e: Edges)
    requires t < n <= |g| && Linked(Partial(g, t, n), t, PredsFrom(g, 0, t), e)
    requires forall a | a in g[t] :: a <= t
    ensures e == Partial(g, t + 1, n)
  {
    forall a: TxnId | a < n ensures e.adj[a] == Successors(g, a, t + 1) {
      if a <= t { SuccessorsAdvance(g, a, t); }
    }
    assert e.adj == Partial(g, t + 1, n).adj;
    assert e.degrees == Partial(g, t + 1, n).degrees;
  }

  lemma EdgesAdvance(txns: seq<Txn>, t: TxnId, tb: Tables, readOrder: seq<Key>, writeOrder: seq<Key>)
    requires t < |txns| && TablesOf(txns, t, tb) && Closed(tb, t)
    requires tb.edges == Partial(NotebookGraph(txns), t, |txns|)
    requires Enumerates(readOrder, txns[t].readset) && Enumerates(writeOrder, txns[t].writeset)
    ensures WriteAll(ReadAll(tb, readOrder, t), writeOrder, t).edges == Partial(NotebookGraph(txns), t + 1, |txns|)
  {
    var g, e0 := NotebookGraph(txns), tb.edges;
    assert NoEdgeTo(e0.adj, t) && Linked(e0, t, {}, e0);
    var before := ReadAllEdges(e0, tb, readOrder, t);
    ReadAllClosed(tb, readOrder, t);
    var sources := WriteAllEdges(e0, ReadAll(tb, readOrder, t), writeOrder, t, before);
    forall a ensures a in sources <==> a in PredsFrom(g, 0, t) {
      SourcesAreEdges(txns, t, tb, readOrder, writeOrder, a);
    }
    assert sources == PredsFrom(g, 0, t);
    PartialAdvances(g, t, |txns|, WriteAll(ReadAll(tb, readOrder, t), writeOrder, t).edges);
  }

  lemma TablesClosed(txns: seq<Txn>, t: TxnId, tb: Tables)
    requires t < |txns| && TablesOf(txns, t, tb) && tb.edges == Partial(NotebookGraph(txns), t, |txns|)
    ensures forall k | k in tb.last :: tb.last[k] in tb.edges.adj
    ensures forall k | k in tb.lockTable :: tb.lockTable[k] <= tb.edges.adj.Keys
  {
    forall k | k in tb.last ensures tb.last[k] in tb.edges.adj {
      assert LastIs(tb.last, k, tb.last[k]);
    }
    forall k, r | k in tb.lockTable && r in tb.lockTable[k] ensures r in tb.edges.adj {
      assert Holds(tb.lockTable, k, r);
    }
  }

  /** The modes fit the holder sets, apart from the node under construction. */
  ghost predicate ModesFit(tb: Tables) {
    && tb.lockTable.Keys == tb.status.Keys
    && (forall k | k in tb.last :: k in tb.status)
    && (forall k | k in tb.status && tb.status[k] == E :: k in tb.last && tb.lockTable[k] == {tb.last[k]})
  }

  ghost predicate BuiltUpTo(txns: seq<Txn>, t: nat, tb: Tables)
    requires t <= |txns|
  {
    TablesOf(txns, t, tb) && ModesFit(tb) && tb.edges == Partial(NotebookGraph(txns), t, |txns|)
  }

  method AddTxn(txns: seq<Txn>, t: TxnId, tb: Tables) returns (tb': Tables)
    requires t < |txns| && BuiltUpTo(txns, t, tb)
    ensures BuiltUpTo(txns, t + 1, tb')
  {
    TablesClosed(txns, t, tb);
    ghost var readOrder, writeOrder;
    var mid;
    mid, readOrder := ReadLoop(tb, txns[t].readset, t);
    tb', writeOrder := WriteLoop(mid, txns[t].writeset, t);
    WriteAllClosed(mid, writeOrder, t);
    TablesAdvance(txns, t, tb, readOrder, writeOrder);
    EdgesAdvance(txns, t, tb, readOrder, writeOrder);
  }

  /** A node for every transaction, no edges. */
  method Unlinked(n: nat, ghost g: Graph) returns (e: Edges)
    requires n <= |g|
    ensures e == Partial(g, 0, n)
  {
    var adj: Adjacency, degrees: Degrees := map[], map[];
    for t := 0 to n
      invariant forall a: TxnId :: (a in adj <==> a < t) && (a in degrees <==> a < t)
      invariant forall a: TxnId | a < t :: adj[a] == {} && degrees[a] == 0
    {
      adj, degrees := adj[t := {}], degrees[t := 0];
    }
    e := Edges(adj, degrees);
    UnlinkedIsPartial(g, n, e);
  }

  lemma UnlinkedIsPartial(g: Graph, n: nat, e: Edges)
    requires n <= |g|
    requires forall a: TxnId :: (a in e.adj <==> a < n) && (a in e.degrees <==> a < n)
    requires forall a: TxnId | a < n :: e.adj[a] == {} && e.degrees[a] == 0
    ensures e == Partial(g, 0, n)
  {
    assert forall a: TxnId | a < n :: Successors(g, a, 0) == {};
    assert e.adj == Partial(g, 0, n).adj;
    assert e.degrees == Partial(g, 0, n).degrees;
  }

  lemma PartialIsDag(g: Graph, n: nat)
    requires n <= |g|
    ensures DagOf(g, 0, n) == EpochDag(Partial(g, n, n).adj, Partial(g, n, n).degrees, Roots(g, 0, n))
  {
  }

  lemma NothingSeen(txns: seq<Txn>, tb: Tables)
    requires tb == Tables(map[], map[], map[], Partial(NotebookGraph(txns), 0, |txns|))
    ensures BuiltUpTo(txns, 0, tb)
  {
  }

  /** The notebook pass over the list: holder sets, modes, last writers and edges. */
  method LinkAll(txns: seq<Txn>) returns (e: Edges)
    ensures e == Partial(NotebookGraph(txns), |txns|, |txns|)
  {
    e := Unlinked(|txns|, NotebookGraph(txns));
    var tb := Tables(map[], map[], map[], e);
    NothingSeen(txns, tb);
    for t := 0 to |txns|
      invariant BuiltUpTo(txns, t, tb)
    {
      tb := AddTxn(txns, t, tb);
    }
    e := tb.edges;
  }

  /** The notebook builder yields exactly the notebook edges and, by the first Kahn cell, their roots. */
  method BuildNotebookDag(txns: seq<Txn>) returns (dag: EpochDag)
    ensures dag == DagOf(NotebookGraph(txns), 0, |txns|)
    ensures DagTells(NotebookGraph(txns), 0, |txns|, dag)
  {
    var e := LinkAll(txns);
    var queue := InitialQueue(e.degrees, NotebookGraph(txns), |txns|);
    PartialIsDag(NotebookGraph(txns), |txns|);
    dag := EpochDag(e.adj, e.degrees, queue);
    DagOfTells(NotebookGraph(txns), 0, |txns|, dag);
  }

  /** The Kahn queue starts with the transactions of indegree zero, in list order. */
  method InitialQueue(degrees: Degrees, ghost g: Graph, n: nat) returns (queue: seq<TxnId>)
    requires n <= |g| && degrees == Partial(g, n, n).degrees
    ensures queue == Roots(g, 0, n)
  {
    queue := [];
    for t := 0 to n
      invariant queue == Roots(g, 0, t)
    {
      if degrees[t] == 0 {
        queue := queue + [t];
      }
    }
  }
}
