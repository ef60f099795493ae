/**
 The exclusive-only prototype: a queue of writers per key, an edge between
 neighbours in each queue, and a depth-first sort of the result.

 Neighbours in the queue of a key are consecutive writers of the key, so every
 edge goes forward in list order and the graph has no cycle.  Any order in which
 its edges go forward keeps the writers of each key as they were listed, and the
 sort finds such an order.
 */
module ExclusiveGraph {
  import opened Transactions
  import opened Dependencies
  import opened Iteration
  import opened TopologicalSort

  type LockTable = map<Key, seq<TxnId>>

  /** The writers of `k` among the first `n` transactions, in list order. */
  ghost function WritersOf(txns: seq<Txn>, k: Key, n: nat): seq<TxnId> {
    if n == 0 then []
    else if Writes(txns, n - 1, k) then WritersOf(txns, k, n - 1) + [n - 1]
    else WritersOf(txns, k, n - 1)
  }

  ghost function QueueOf(table: LockTable, k: Key): seq<TxnId> {
    if k in table then table[k] else []
  }

  /** `a` and `b` write `k` with no writer of `k` between them. */
  ghost predicate NextWriterOn(txns: seq<Txn>, a: TxnId, b: TxnId, k: Key) {
    a < b && Writes(txns, a, k) && Writes(txns, b, k) && NoWriterIn(txns, k, a + 1, b)
  }

  ghost predicate NextWriter(txns: seq<Txn>, a: TxnId, b: TxnId) {
    exists k :: NextWriterOn(txns, a, b, k)
  }

  /** How often `a` stands right before `b` in the queue. */
  ghost function Adjoins(q: seq<TxnId>, a: TxnId, b: TxnId): nat {
    if |q| <= 1 then 0
    else Adjoins(q[..|q| - 1], a, b) + if q[|q| - 2] == a && q[|q| - 1] == b then 1 else 0
  }

  // ---------- the lock table ----------

  /** Transaction `t` at the end of the queues of the first keys of `order`. */
  ghost predicate Appended(before: LockTable, order: seq<Key>, t: TxnId, table: LockTable) {
    forall k: Key :: QueueOf(table, k) == QueueOf(before, k) + if k in order then [t] else []
  }

  method BuildLockTable(txns: seq<Txn>) returns (table: LockTable)
    ensures forall k: Key :: QueueOf(table, k) == WritersOf(txns, k, |txns|)
  {
    table := map[];
    for t := 0 to |txns|
      invariant forall k: Key :: QueueOf(table, k) == WritersOf(txns, k, t)
    {
      ghost var before, n := table, t + 1;
      ghost var order;
      table, order := AppendToQueues(table, txns[t].writeset, t);
      forall k: Key ensures QueueOf(table, k) == WritersOf(txns, k, n) {
        assert QueueOf(before, k) == WritersOf(txns, k, t);
        assert k in order <==> Writes(txns, t, k);
      }
    }
  }

  method AppendToQueues(before: LockTable, writeset: set<Key>, t: TxnId) returns (table: LockTable, ghost order: seq<Key>)
    ensures Enumerates(order, writeset) && Appended(before, order, t, table)
  {
    table := before;
    var keys := Enumerate(writeset);
    order := keys;
    for i := 0 to |keys|
      invariant Appended(before, keys[..i], t, table)
    {
      var key := keys[i];
      forall k: Key ensures k in keys[..i + 1] <==> k in keys[..i] || k == key {
        assert keys[..i + 1] == keys[..i] + [key];
      }
      assert key !in keys[..i] && QueueOf(table, key) == QueueOf(before, key);
      if key !in table {
        table := table[key := []];
      }
      table := table[key := table[key] + [t]];
    }
    assert keys[..|keys|] == keys;
  }

  // ---------- the graph ----------

  ghost predicate EdgeIn(adj: Adjacency, a: TxnId, b: TxnId) {
    a in adj && b in adj[a]
  }

  /** How often `b` is listed as a successor of `a`. */
  ghost function Listed(adj: Adjacency, a: TxnId, b: TxnId): nat {
    if a in adj then Occurrences(adj[a], b) else 0
  }

  lemma {:induction false} OccursIfMember<T>(q: seq<T>, x: T)
    ensures Occurrences(q, x) > 0 <==> x in q
    decreases |q|
  {
    if q != [] {
      OccursIfMember(q[..|q| - 1], x);
      MemberOfPrefix(q, x);
    }
  }

  lemma ListedIfEdge(adj: Adjacency, a: TxnId, b: TxnId)
    ensures Listed(adj, a, b) > 0 <==> EdgeIn(adj, a, b)
  {
    if a in adj { OccursIfMember(adj[a], b); }
  }

  method LinkQueue(adj: Adjacency, q: seq<TxnId>) returns (adj': Adjacency)
    requires forall t | t in q :: t in adj
    ensures adj'.Keys == adj.Keys
    ensures forall a: TxnId, b: TxnId :: Listed(adj', a, b) == Listed(adj, a, b) + Adjoins(q, a, b)
  {
    adj' := adj;
    if |q| <= 1 { return; }
    for i := 1 to |q|
      invariant adj'.Keys == adj.Keys
      invariant forall a: TxnId, b: TxnId :: Listed(adj', a, b) == Listed(adj, a, b) + Adjoins(q[..i], a, b)
    {
      var prev, cur := q[i - 1], q[i];
      forall a: TxnId, b: TxnId
        ensures Adjoins(q[..i + 1], a, b) == Adjoins(q[..i], a, b) + if a == prev && b == cur then 1 else 0
        ensures Occurrences(adj'[prev] + [cur], b) == Occurrences(adj'[prev], b) + if b == cur then 1 else 0
      {
        assert q[..i + 1][..i] == q[..i];
        assert (adj'[prev] + [cur])[..|adj'[prev]|] == adj'[prev];
      }
      adj' := adj'[prev := adj'[prev] + [cur]];
    }
    assert q[..|q|] == q;
  }

  /** The keys of a list on which `b` is the next writer after `a`. */
  ghost function KeysAmong(txns: seq<Txn>, keys: seq<Key>, a: TxnId, b: TxnId): set<Key> {
    set k | k in keys && NextWriterOn(txns, a, b, k)
  }

  /** All keys on which `b` is the next writer after `a`. */
  ghost function SharedKeys(txns: seq<Txn>, a: TxnId, b: TxnId): set<Key> {
    if a < |txns| then set k | k in txns[a].writeset && NextWriterOn(txns, a, b, k) else {}
  }

  /** One entry per key: `b` is listed after `a` as often as there are keys on which it is the next writer. */
  ghost predicate ListsNextWriters(txns: seq<Txn>, keys: seq<Key>, adj: Adjacency) {
    forall a: TxnId, b: TxnId :: Listed(adj, a, b) == |KeysAmong(txns, keys, a, b)|
  }

  method BuildExclusiveDag(txns: seq<Txn>) returns (adj: Adjacency)
    ensures forall t: TxnId :: t in adj <==> t < |txns|
    ensures forall a: TxnId, b: TxnId :: Listed(adj, a, b) == |SharedKeys(txns, a, b)|
    ensures forall a: TxnId, b: TxnId :: EdgeIn(adj, a, b) <==> NextWriter(txns, a, b)
  {
    var table := BuildLockTable(txns);
    adj := map[];
    for t := 0 to |txns|
      invariant forall u: TxnId :: u in adj <==> u < t
      invariant forall u | u in adj :: adj[u] == []
    {
      adj := adj[t := []];
    }
    var keys := Enumerate(table.Keys);
    NothingListed(txns, adj);
    for i := 0 to |keys|
      invariant forall t: TxnId :: t in adj <==> t < |txns|
      invariant ListsNextWriters(txns, keys[..i], adj)
    {
      ghost var before := adj;
      assert QueueOf(table, keys[i]) == WritersOf(txns, keys[i], |txns|);
      WritersInRange(txns, keys[i], |txns|);
      adj := LinkQueue(adj, table[keys[i]]);
      OneQueueMore(txns, keys, i, before, adj);
    }
    assert keys[..|keys|] == keys;
    AllQueuesLinked(txns, table, keys, adj);
  }

  lemma NothingListed(txns: seq<Txn>, adj: Adjacency)
    requires forall u | u in adj :: adj[u] == []
    ensures ListsNextWriters(txns, [], adj)
  {
    forall a: TxnId, b: TxnId ensures KeysAmong(txns, [], a, b) == {} {}
  }

  lemma OneQueueMore(txns: seq<Txn>, keys: seq<Key>, i: nat, before: Adjacency, after: Adjacency)
    requires i < |keys| && Distinct(keys) && ListsNextWriters(txns, keys[..i], before)
    requires forall a: TxnId, b: TxnId ::
               Listed(after, a, b) == Listed(before, a, b) + Adjoins(WritersOf(txns, keys[i], |txns|), a, b)
    ensures ListsNextWriters(txns, keys[..i + 1], after)
  {
    forall a: TxnId, b: TxnId ensures Listed(after, a, b) == |KeysAmong(txns, keys[..i + 1], a, b)| {
      AdjoinsIfNext(txns, keys[i], |txns|, a, b);
      OneKeyMore(txns, keys, i, a, b);
    }
  }

  lemma OneKeyMore(txns: seq<Txn>, keys: seq<Key>, i: nat, a: TxnId, b: TxnId)
    requires i < |keys| && Distinct(keys)
    ensures |KeysAmong(txns, keys[..i + 1], a, b)|
         == |KeysAmong(txns, keys[..i], a, b)| + if NextWriterOn(txns, a, b, keys[i]) then 1 else 0
  {
    var some, more := KeysAmong(txns, keys[..i], a, b), KeysAmong(txns, keys[..i + 1], a, b);
    assert keys[..i + 1] == keys[..i] + [keys[i]];
    assert keys[i] !in keys[..i];
    if NextWriterOn(txns, a, b, keys[i]) {
      assert more == some + {keys[i]};
    } else {
      assert more == some;
    }
  }

  lemma {:induction false} WritersInRange(txns: seq<Txn>, k: Key, n: nat)
    ensures forall t: TxnId :: t in WritersOf(txns, k, n) <==> t < n && Writes(txns, t, k)
    decreases n
  {
    if n > 0 { WritersInRange(txns, k, n - 1); }
  }

  /** Neighbours in the queue of a key are consecutive writers of the key, and stand there once. */
  lemma {:induction false} AdjoinsIfNext(txns: seq<Txn>, k: Key, n: nat, a: TxnId, b: TxnId)
    ensures Adjoins(WritersOf(txns, k, n), a, b) == if b < n && NextWriterOn(txns, a, b, k) then 1 else 0
    decreases n
  {
    if n > 0 {
      var last := n - 1;
      var q, q0 := WritersOf(txns, k, n), WritersOf(txns, k, last);
      AdjoinsIfNext(txns, k, last, a, b);
      if Writes(txns, last, k) {
        LastWriterIsLast(txns, k, last);
        assert q == q0 + [last] && q[..|q| - 1] == q0;
        assert b == last ==> (NextWriterOn(txns, a, b, k) <==> IsLastWriter(txns, k, last, a));
      }
    }
  }

  ghost predicate IsLastWriter(txns: seq<Txn>, k: Key, n: nat, a: TxnId) {
    a < n && Writes(txns, a, k) && NoWriterIn(txns, k, a + 1, n)
  }

  lemma LastWriterMoves(txns: seq<Txn>, k: Key, last: nat, a: TxnId)
    ensures IsLastWriter(txns, k, last + 1, a)
       <==> if a == last then Writes(txns, last, k) else IsLastWriter(txns, k, last, a) && !Writes(txns, last, k)
  {
    var n, next := last + 1, a + 1;
    if a < last {
      assert NoWriterIn(txns, k, next, n) <==> NoWriterIn(txns, k, next, last) && !Writes(txns, last, k);
    }
  }

  lemma {:induction false} LastWriterIsLast(txns: seq<Txn>, k: Key, n: nat)
    ensures var q := WritersOf(txns, k, n);
            forall a: TxnId :: q != [] && q[|q| - 1] == a <==> IsLastWriter(txns, k, n, a)
    decreases n
  {
    if n > 0 {
      LastWriterIsLast(txns, k, n - 1);
      var q, last := WritersOf(txns, k, n), n - 1;
      var q0 := WritersOf(txns, k, last);
      assert q == if Writes(txns, last, k) then q0 + [last] else q0;
      forall a: TxnId
        ensures q != [] && q[|q| - 1] == a <==> IsLastWriter(txns, k, n, a)
      {
        LastWriterMoves(txns, k, last, a);
        assert q0 != [] && q0[|q0| - 1] == a <==> IsLastWriter(txns, k, last, a);
      }
    }
  }

  lemma AllQueuesLinked(txns: seq<Txn>, table: LockTable, keys: seq<Key>, adj: Adjacency)
    requires Enumerates(keys, table.Keys) && ListsNextWriters(txns, keys, adj)
    requires forall k: Key :: QueueOf(table, k) == WritersOf(txns, k, |txns|)
    ensures forall a: TxnId, b: TxnId :: Listed(adj, a, b) == |SharedKeys(txns, a, b)|
    ensures forall a: TxnId, b: TxnId :: EdgeIn(adj, a, b) <==> NextWriter(txns, a, b)
  {
    forall a: TxnId, b: TxnId
      ensures Listed(adj, a, b) == |SharedKeys(txns, a, b)|
      ensures EdgeIn(adj, a, b) <==> NextWriter(txns, a, b)
    {
      forall k: Key | NextWriterOn(txns, a, b, k) ensures k in keys {
        WritersInRange(txns, k, |txns|);
        assert a in WritersOf(txns, k, |txns|) && QueueOf(table, k) != [];
      }
      assert KeysAmong(txns, keys, a, b) == SharedKeys(txns, a, b);
      ListedIfEdge(adj, a, b);
      SharedIfNext(txns, a, b);
    }
  }

  lemma SharedIfNext(txns: seq<Txn>, a: TxnId, b: TxnId)
    ensures |SharedKeys(txns, a, b)| > 0 <==> NextWriter(txns, a, b)
  {
    if k: Key :| NextWriterOn(txns, a, b, k) { assert k in SharedKeys(txns, a, b); }
    if SharedKeys(txns, a, b) != {} { var k: Key :| k in SharedKeys(txns, a, b); }
  }

  // ---------- sorting it ----------

  /** `a` stands before `b` in the order. */
  ghost predicate Before(order: seq<TxnId>, a: TxnId, b: TxnId) {
    exists i, j :: 0 <= i < j < |order| && order[i] == a && order[j] == b
  }

  lemma {:induction false} WalkGoesUp(txns: seq<Txn>, adj: Adjacency, p: seq<Node>)
    requires forall a: TxnId, b: TxnId :: EdgeIn(adj, a, b) <==> NextWriter(txns, a, b)
    requires Walk(adj, p)
    ensures p[0] <= p[|p| - 1] && (|p| >= 2 ==> p[0] < p[|p| - 1])
    decreases |p|
  {
    if |p| >= 2 {
      assert EdgeIn(adj, p[0], p[1]);
      assert Walk(adj, p[1..]);
      WalkGoesUp(txns, adj, p[1..]);
    }
  }

  lemma ExclusiveDagIsAcyclic(txns: seq<Txn>, adj: Adjacency)
    requires forall a: TxnId, b: TxnId :: EdgeIn(adj, a, b) <==> NextWriter(txns, a, b)
    ensures Acyclic(adj)
  {
    forall m: Node ensures !Connects(adj, m, m) {
      if p :| Walk(adj, p) && |p| >= 2 && p[0] == m && p[|p| - 1] == m {
        WalkGoesUp(txns, adj, p);
      }
    }
  }

  /** In any order with forward edges, the writers of a key stand in list order. */
  lemma {:induction false} WritersKeepListOrder(txns: seq<Txn>, adj: Adjacency, order: seq<TxnId>, a: TxnId, b: TxnId, k: Key)
    requires forall x: TxnId, y: TxnId :: EdgeIn(adj, x, y) <==> NextWriter(txns, x, y)
    requires EdgesForward(adj, order) && Distinct(order) && forall t: TxnId :: t in order <==> t < |txns|
    requires a < b && Writes(txns, a, k) && Writes(txns, b, k)
    ensures Before(order, a, b)
    decreases b - a
  {
    if NoWriterIn(txns, k, a + 1, b) {
      assert NextWriterOn(txns, a, b, k);
      assert EdgeIn(adj, a, b) && a in order && b in order;
      var i :| 0 <= i < |order| && order[i] == a;
      var j :| 0 <= j < |order| && order[j] == b;
    } else {
      var w: TxnId :| a + 1 <= w < b && Writes(txns, w, k);
      WritersKeepListOrder(txns, adj, order, a, w, k);
      WritersKeepListOrder(txns, adj, order, w, b, k);
      var i, j :| 0 <= i < j < |order| && order[i] == a && order[j] == w;
      var x, y :| 0 <= x < y < |order| && order[x] == w && order[y] == b;
      assert j == x;
    }
  }

  /** Graph and sort together: all transactions, each once, writers of a key in list order, no failed start. */
  method SortExclusive(txns: seq<Txn>) returns (order: seq<TxnId>, ok: seq<bool>)
    ensures |ok| == |txns| && forall i | 0 <= i < |ok| :: ok[i]
    ensures Distinct(order) && forall t: TxnId :: t in order <==> t < |txns|
    ensures forall a: TxnId, b: TxnId, k: Key | a < b && Writes(txns, a, k) && Writes(txns, b, k) :: Before(order, a, b)
  {
    var adj := BuildExclusiveDag(txns);
    forall a, b | a in adj && b in adj[a] ensures b in adj {
      assert EdgeIn(adj, a, b);
    }
    ExclusiveDagIsAcyclic(txns, adj);
    AllStartsSucceedIffAcyclic(adj);
    var nodes := seq(|txns|, i requires 0 <= i < |txns| => i);
    forall t: TxnId ensures t in nodes <==> t in adj {
      if t < |txns| { assert nodes[t] == t; }
    }
    order, ok := Sort(adj, nodes);
    forall a: TxnId, b: TxnId, k: Key | a < b && Writes(txns, a, k) && Writes(txns, b, k) ensures Before(order, a, b) {
      WritersKeepListOrder(txns, adj, order, a, b, k);
    }
  }
}
