/**
 The notebooks' Kahn cells: count indegrees, queue the nodes without any, and
 complete the front of the queue again and again.

 A node may be listed twice in an adjacency list; it is then counted twice and
 taken down twice.  What the indegrees count is therefore a set of list entries,
 those of the nodes that are not completed yet, and the queue holds exactly the
 nodes that none of these entries leads to.
 */
module KahnQueue {
  import opened Iteration
  import opened TopologicalSort

  /** The i-th entry in the adjacency list of a node; a node may be listed twice. */
  type Edge = (Node, nat)

  ghost predicate IsEdge(g: Adjacency, e: Edge) {
    e.0 in g && e.1 < |g[e.0]|
  }

  ghost predicate Into(g: Adjacency, e: Edge, v: Node) {
    IsEdge(g, e) && g[e.0][e.1] == v
  }

  ghost function EdgesInto(g: Adjacency, edges: set<Edge>, v: Node): set<Edge> {
    set e | e in edges && Into(g, e, v)
  }

  /** The indegrees count the edges of this set. */
  ghost predicate Counts(g: Adjacency, edges: set<Edge>, indegrees: map<Node, int>) {
    indegrees.Keys == g.Keys && forall v | v in g :: indegrees[v] == |EdgesInto(g, edges, v)|
  }

  lemma OneEdgeMore(g: Adjacency, edges: set<Edge>, e: Edge, v: Node)
    requires IsEdge(g, e) && e !in edges
    ensures |EdgesInto(g, edges + {e}, v)| == |EdgesInto(g, edges, v)| + if Into(g, e, v) then 1 else 0
  {
    if Into(g, e, v) {
      assert EdgesInto(g, edges + {e}, v) == EdgesInto(g, edges, v) + {e};
    } else {
      assert EdgesInto(g, edges + {e}, v) == EdgesInto(g, edges, v);
    }
  }

  lemma OneEdgeCounted(g: Adjacency, edges: set<Edge>, e: Edge, indegrees: map<Node, int>)
    requires Closed(g) && IsEdge(g, e) && e !in edges && Counts(g, edges, indegrees)
    ensures var nei := g[e.0][e.1];
            nei in g && Counts(g, edges + {e}, indegrees[nei := indegrees[nei] + 1])
  {
    var nei := g[e.0][e.1];
    assert nei in g;
    forall v ensures |EdgesInto(g, edges + {e}, v)| == |EdgesInto(g, edges, v)| + if nei == v then 1 else 0 {
      OneEdgeMore(g, edges, e, v);
    }
  }

  /** Taking off one edge: one indegree falls, and its node becomes free when it reaches zero. */
  lemma OneEdgeLess(g: Adjacency, edges: set<Edge>, e: Edge, indegrees: map<Node, int>)
    requires Closed(g) && IsEdge(g, e) && e in edges && Counts(g, edges, indegrees)
    ensures var fewer, nei := edges - {e}, g[e.0][e.1];
            && nei in g && !Free(g, edges, nei)
            && Counts(g, fewer, indegrees[nei := indegrees[nei] - 1])
            && forall v :: Free(g, fewer, v) <==> Free(g, edges, v) || (v == nei && indegrees[nei] == 1)
  {
    var fewer, nei := edges - {e}, g[e.0][e.1];
    assert fewer + {e} == edges;
    assert e in EdgesInto(g, edges, nei);
    forall v ensures |EdgesInto(g, edges, v)| == |EdgesInto(g, fewer, v)| + if nei == v then 1 else 0 {
      OneEdgeMore(g, fewer, e, v);
    }
    forall v ensures Free(g, fewer, v) <==> Free(g, edges, v) || (v == nei && indegrees[nei] == 1) {
      assert Free(g, fewer, v) <==> |EdgesInto(g, fewer, v)| == 0;
      assert Free(g, edges, v) <==> |EdgesInto(g, edges, v)| == 0;
    }
  }

  /** The edges that leave a node of a set. */
  ghost predicate LeavingFrom(g: Adjacency, nodes: set<Node>, edges: set<Edge>) {
    forall e: Edge :: e in edges <==> IsEdge(g, e) && e.0 in nodes
  }

  /** ... and the first `i` entries of the list of `t` as well. */
  ghost predicate LeavingUpTo(g: Adjacency, nodes: set<Node>, t: Node, i: nat, edges: set<Edge>) {
    forall e: Edge :: e in edges <==> IsEdge(g, e) && (e.0 in nodes || (e.0 == t && e.1 < i))
  }

  ghost function AllEdges(g: Adjacency): set<Edge> {
    set a: Node, i: nat | a in g && i < |g[a]| :: (a, i)
  }

  method CountIndegrees(g: Adjacency) returns (indegrees: map<Node, int>)
    requires Closed(g)
    ensures Counts(g, AllEdges(g), indegrees)
  {
    ghost var edges := {};
    indegrees := map v | v in g :: 0;
    var order := Enumerate(g.Keys);
    assert Counts(g, {}, indegrees);
    for n := 0 to |order|
      invariant Counts(g, edges, indegrees)
      invariant LeavingFrom(g, Members(order[..n]), edges)
    {
      assert order[..n + 1] == order[..n] + [order[n]];
      assert Members(order[..n + 1]) == Members(order[..n]) + {order[n]};
      indegrees, edges := CountList(g, order[n], indegrees, Members(order[..n]), edges);
    }
    assert order[..|order|] == order;
    assert Members(order) == g.Keys;
    forall e: Edge ensures e in edges <==> e in AllEdges(g) {}
    assert edges == AllEdges(g);
  }

  ghost function Members(order: seq<Node>): set<Node> {
    set v | v in order
  }

  method CountList(g: Adjacency, t: Node, before: map<Node, int>, ghost nodes: set<Node>, ghost counted: set<Edge>)
    returns (indegrees: map<Node, int>, ghost edges: set<Edge>)
    requires Closed(g) && t in g && t !in nodes
    requires Counts(g, counted, before) && LeavingFrom(g, nodes, counted)
    ensures Counts(g, edges, indegrees) && LeavingFrom(g, nodes + {t}, edges)
  {
    indegrees, edges := before, counted;
    assert LeavingUpTo(g, nodes, t, 0, edges);
    for i := 0 to |g[t]|
      invariant Counts(g, edges, indegrees) && LeavingUpTo(g, nodes, t, i, edges)
    {
      indegrees, edges := CountEntry(g, t, i, indegrees, nodes, edges);
    }
    AllLeaving(g, nodes, t, edges);
  }

  method CountEntry(g: Adjacency, t: Node, i: nat, before: map<Node, int>, ghost nodes: set<Node>, ghost counted: set<Edge>)
    returns (indegrees: map<Node, int>, ghost edges: set<Edge>)
    requires Closed(g) && t in g && t !in nodes && i < |g[t]|
    requires Counts(g, counted, before) && LeavingUpTo(g, nodes, t, i, counted)
    ensures Counts(g, edges, indegrees) && LeavingUpTo(g, nodes, t, i + 1, edges)
  {
    var nei := g[t][i];
    OneMoreLeaving(g, nodes, t, i, counted);
    OneEdgeCounted(g, counted, (t, i), before);
    indegrees := before[nei := before[nei] + 1];
    edges := counted + {(t, i)};
  }

  lemma OneMoreLeaving(g: Adjacency, nodes: set<Node>, t: Node, i: nat, edges: set<Edge>)
    requires t in g && t !in nodes && i < |g[t]| && LeavingUpTo(g, nodes, t, i, edges)
    ensures (t, i) !in edges && LeavingUpTo(g, nodes, t, i + 1, edges + {(t, i)})
  {
    forall e: Edge
      ensures e in edges + {(t, i)} <==> IsEdge(g, e) && (e.0 in nodes || (e.0 == t && e.1 < i + 1))
    {
      assert e == (t, i) <==> e.0 == t && e.1 == i;
    }
  }

  lemma AllLeaving(g: Adjacency, nodes: set<Node>, t: Node, edges: set<Edge>)
    requires t in g && LeavingUpTo(g, nodes, t, |g[t]|, edges)
    ensures LeavingFrom(g, nodes + {t}, edges)
  {
  }

  /** Waiting for nobody: no edge of the set leads here. */
  ghost predicate Free(g: Adjacency, edges: set<Edge>, v: Node) {
    EdgesInto(g, edges, v) == {}
  }

  class Kahn {
    const adj: Adjacency
    var indegrees: map<Node, int>
    var q: seq<Node>
    ghost var done: seq<Node>        // completed nodes, in order
    ghost var left: set<Edge>        // edges not taken off yet

    ghost predicate Valid()
      reads this
    {
      && Closed(adj) && Counts(adj, left, indegrees)
      && LeavingFrom(adj, Unfinished(), left)
      && Distinct(done) && Distinct(q)
      && (forall v | v in done :: v in adj)
      && (forall v :: v in q <==> v in adj && v !in done && Free(adj, left, v))
      && PredecessorsFirst(adj, done)
      && (forall v | v in done :: Free(adj, left, v))
    }

    ghost function Unfinished(): set<Node>
      reads this
    {
      set v | v in adj && v !in done
    }

    constructor (adj: Adjacency)
      requires Closed(adj)
      ensures Valid() && this.adj == adj && done == []
    {
      var indegrees := CountIndegrees(adj);
      ghost var edges := AllEdges(adj);
      var order := Enumerate(adj.Keys);
      var q := [];
      for i := 0 to |order|
        invariant Distinct(q) && forall v :: v in q <==> v in order[..i] && Free(adj, edges, v)
      {
        assert forall v :: v in order[..i + 1] <==> v in order[..i] || v == order[i] by {
          assert order[..i + 1] == order[..i] + [order[i]];
        }
        if indegrees[order[i]] == 0 {
          AppendDistinct(q, order[i]);
          q := q + [order[i]];
        }
      }
      assert order[..|order|] == order;
      this.adj, this.indegrees, this.q := adj, indegrees, q;
      done, left := [], edges;
    }

    /** Pop the front, take its edges off, queue the nodes that become free. */
    method Complete() returns (txn: Node)
      requires Valid() && q != []
      modifies this
      ensures Valid()
      ensures txn == old(q[0]) && done == old(done) + [txn]
      ensures FreedInOrder(adj[txn], old(indegrees), old(q[1..]), q)
    {
      txn := PopFront();
      AllToTakeOff(adj, Unfinished(), txn, left);
      TakeOffAll(txn, Unfinished());
    }

    method TakeOffAll(txn: Node, ghost rest: set<Node>)
      requires Closed(adj) && txn in adj && txn !in rest && txn in done && rest == Unfinished()
      requires Released(rest) && LeavingAfter(adj, rest, txn, 0, left)
      modifies this`indegrees, this`q, this`left
      ensures Released(rest) && LeavingFrom(adj, rest, left)
      ensures FreedInOrder(adj[txn], old(indegrees), old(q), q)
    {
      ghost var queued, before, at := q, indegrees, [];
      for i := 0 to |adj[txn]|
        invariant Released(rest) && LeavingAfter(adj, rest, txn, i, left)
        invariant Freed(adj[txn], i, before, queued, indegrees, q, at)
      {
        ghost var now := indegrees;
        TakeOff(i, txn, rest);
        at := FreedStep(adj[txn], i, before, queued, now, at, indegrees, q);
      }
      NothingLeft(adj, rest, txn, left);
    }

    method PopFront() returns (txn: Node)
      requires Valid() && q != []
      modifies this`q, this`done
      ensures txn == old(q[0]) && q == old(q[1..]) && done == old(done) + [txn]
      ensures txn in adj && Distinct(done) && (forall v | v in done :: v in adj) && PredecessorsFirst(adj, done)
      ensures Unfinished() == old(Unfinished()) - {txn}
      ensures Released(Unfinished()) && LeavingFrom(adj, Unfinished() + {txn}, left)
    {
      txn := q[0];
      TailDistinct(q);
      CompletesOrder(adj, done, left, txn);
      AppendDistinct(done, txn);
      q := q[1..];
      done := done + [txn];
      assert Unfinished() + {txn} == old(Unfinished());
    }

    /** Complete everything that can be completed. */
    method Drain() returns (order: seq<Node>)
      requires Valid() && done == []
      modifies this
      ensures Valid() && order == done
      ensures Distinct(order) && PredecessorsFirst(adj, order)
      ensures (forall v | v in adj :: v in order) <==> Acyclic(adj)
    {
      order := [];
      while q != []
        invariant Valid() && order == done
        decreases Unfinished()
      {
        assert q[0] in Unfinished();
        var txn := Complete();
        order := order + [txn];
      }
      DrainedIffAcyclic(adj, done, left);
    }

    ghost predicate Released(rest: set<Node>)
      reads this
    {
      && Counts(adj, left, indegrees)
      && Distinct(q) && (forall v :: v in q <==> v in rest && Free(adj, left, v))
      && forall v | v in done :: Free(adj, left, v)
    }

    method TakeOff(i: nat, txn: Node, ghost rest: set<Node>)
      requires Closed(adj) && txn in adj && i < |adj[txn]| && txn !in rest && txn in done
      requires rest == Unfinished()
      requires Released(rest) && LeavingAfter(adj, rest, txn, i, left)
      modifies this`indegrees, this`q, this`left
      ensures Released(rest) && LeavingAfter(adj, rest, txn, i + 1, left)
      ensures adj[txn][i] in old(indegrees)
      ensures indegrees == old(indegrees)[adj[txn][i] := old(indegrees)[adj[txn][i]] - 1]
      ensures q == if indegrees[adj[txn][i]] == 0 then old(q) + [adj[txn][i]] else old(q)
    {
      var nei := adj[txn][i];
      OneEdgeLess(adj, left, (txn, i), indegrees);
      indegrees := indegrees[nei := indegrees[nei] - 1];
      left := left - {(txn, i)};
      if indegrees[nei] == 0 {
        AppendDistinct(q, nei);
        q := q + [nei];
      }
    }
  }

  // ---------- the order in which nodes are freed ----------

  /** The indegree of the j-th neighbour falls to zero at this entry of the list. */
  ghost predicate FreedAt(list: seq<Node>, indegrees: map<Node, int>, j: nat) {
    j < |list| && list[j] in indegrees && Occurrences(list[..j + 1], list[j]) == indegrees[list[j]]
  }

  /** The list entries at these positions. */
  ghost function EntriesAt(list: seq<Node>, at: seq<nat>): seq<Node> {
    seq(|at|, n requires 0 <= n < |at| => if at[n] < |list| then list[at[n]] else 0)
  }

  /** After the first `i` entries: indegrees taken down, and the freed neighbours queued in list order. */
  ghost predicate Freed(list: seq<Node>, i: nat, before: map<Node, int>, queued: seq<Node>,
                        indegrees: map<Node, int>, q: seq<Node>, at: seq<nat>) {
    && i <= |list| && Ascending(at)
    && (forall j: nat :: j in at <==> j < i && FreedAt(list, before, j))
    && q == queued + EntriesAt(list, at)
    && indegrees.Keys == before.Keys
    && forall v | v in before :: indegrees[v] == before[v] - Occurrences(list[..i], v)
  }

  /** The queue grows by the neighbours whose indegree falls to zero, in the order of the list entries where it does. */
  ghost predicate FreedInOrder(list: seq<Node>, before: map<Node, int>, queued: seq<Node>, q: seq<Node>) {
    exists at: seq<nat>, indegrees: map<Node, int> :: Freed(list, |list|, before, queued, indegrees, q, at)
  }

  lemma FreedStep(list: seq<Node>, i: nat, before: map<Node, int>, queued: seq<Node>, now: map<Node, int>, at: seq<nat>,
                  indegrees: map<Node, int>, q: seq<Node>) returns (at': seq<nat>)
    requires i < |list| && Freed(list, i, before, queued, now, queued + EntriesAt(list, at), at)
    requires list[i] in now && indegrees == now[list[i] := now[list[i]] - 1]
    requires q == if indegrees[list[i]] == 0 then queued + EntriesAt(list, at) + [list[i]] else queued + EntriesAt(list, at)
    ensures Freed(list, i + 1, before, queued, indegrees, q, at')
  {
    forall v ensures Occurrences(list[..i + 1], v) == Occurrences(list[..i], v) + if list[i] == v then 1 else 0 {
      assert list[..i + 1][..i] == list[..i];
    }
    forall n | 0 <= n < |at| ensures at[n] < i { assert at[n] in at; }
    if FreedAt(list, before, i) {
      at' := at + [i];
      assert EntriesAt(list, at') == EntriesAt(list, at) + [list[i]];
    } else {
      at' := at;
    }
  }

  /** The edges of unfinished nodes, and those of `t` from its i-th entry on. */
  ghost predicate LeavingAfter(g: Adjacency, rest: set<Node>, t: Node, i: nat, edges: set<Edge>) {
    forall e: Edge :: e in edges <==> IsEdge(g, e) && (e.0 in rest || (e.0 == t && e.1 >= i))
  }

  lemma AllToTakeOff(g: Adjacency, rest: set<Node>, t: Node, edges: set<Edge>)
    requires LeavingFrom(g, rest + {t}, edges)
    ensures LeavingAfter(g, rest, t, 0, edges)
  {
  }

  lemma NothingLeft(g: Adjacency, rest: set<Node>, t: Node, edges: set<Edge>)
    requires t in g && LeavingAfter(g, rest, t, |g[t]|, edges)
    ensures LeavingFrom(g, rest, edges)
  {
  }

  /** Every node comes after all nodes that have an edge to it. */
  ghost predicate PredecessorsFirst(g: Adjacency, done: seq<Node>) {
    forall i, a | 0 <= i < |done| && a in g && done[i] in g[a] :: a in done[..i]
  }

  // ---------- when everything gets completed ----------

  lemma {:induction false} Pigeonhole(p: seq<Node>, s: set<Node>)
    requires (forall x | x in p :: x in s) && |p| > |s|
    ensures exists i, j :: 0 <= i < j < |p| && p[i] == p[j]
    decreases |p|
  {
    var n := |p| - 1;
    if p[n] in p[..n] {
      var i :| 0 <= i < n && p[i] == p[n];
    } else {
      Pigeonhole(p[..n], s - {p[n]});
      var i, j :| 0 <= i < j < n && p[..n][i] == p[..n][j];
      assert p[i] == p[j];
    }
  }

  ghost predicate HasPredecessor(g: Adjacency, s: set<Node>, v: Node) {
    exists a :: a in s && a in g && v in g[a]
  }

  /** If every node of a set has a predecessor in the set, walks inside it get as long as one likes. */
  lemma {:induction false} LongWalk(g: Adjacency, s: set<Node>, n: nat) returns (p: seq<Node>)
    requires s != {} && forall v | v in s :: HasPredecessor(g, s, v)
    ensures Walk(g, p) && |p| == n + 1 && forall x | x in p :: x in s
  {
    if n == 0 {
      var v :| v in s;
      p := [v];
    } else {
      var rest := LongWalk(g, s, n - 1);
      assert HasPredecessor(g, s, rest[0]);
      var a :| a in s && a in g && rest[0] in g[a];
      p := [a] + rest;
    }
  }

  lemma NoStartMeansCycle(g: Adjacency, s: set<Node>)
    requires s != {} && forall v | v in s :: HasPredecessor(g, s, v)
    ensures !Acyclic(g)
  {
    var p := LongWalk(g, s, |s|);
    Pigeonhole(p, s);
    var i, j :| 0 <= i < j < |p| && p[i] == p[j];
    var loop := p[i..j + 1];
    assert Walk(g, loop) && loop[0] == p[i] && loop[|loop| - 1] == p[j];
    assert Connects(g, p[i], p[i]);
  }

  lemma CompletedLater(g: Adjacency, done: seq<Node>, x: nat, b: Node) returns (y: nat)
    requires PredecessorsFirst(g, done) && Distinct(done) && x < |done| && done[x] in g
    requires b in g[done[x]] && b in done
    ensures x < y < |done| && done[y] == b
  {
    y :| 0 <= y < |done| && done[y] == b;
    assert done[x] in done[..y];
  }

  /** Walks only go forward in the order of completion. */
  lemma {:induction false} WalkGoesForward(g: Adjacency, done: seq<Node>, p: seq<Node>, x: nat) returns (y: nat)
    requires Closed(g) && PredecessorsFirst(g, done) && Distinct(done) && forall v | v in g :: v in done
    requires Walk(g, p) && x < |done| && done[x] == p[0]
    ensures x <= y < |done| && done[y] == p[|p| - 1] && (|p| >= 2 ==> x < y)
    decreases |p|
  {
    y := x;
    if |p| >= 2 {
      assert p[0] in g && p[1] in g[p[0]] && p[1] in g;
      var next := CompletedLater(g, done, x, p[1]);
      assert Walk(g, p[1..]);
      y := WalkGoesForward(g, done, p[1..], next);
    }
  }

  /** With nothing free left, everything has been completed exactly when the graph has no cycle. */
  lemma DrainedIffAcyclic(g: Adjacency, done: seq<Node>, left: set<Edge>)
    requires Closed(g) && PredecessorsFirst(g, done) && Distinct(done)
    requires LeavingFrom(g, (set v | v in g && v !in done), left)
    requires forall v | v in g && v !in done :: !Free(g, left, v)
    ensures (forall v | v in g :: v in done) <==> Acyclic(g)
  {
    var open := set v | v in g && v !in done;
    if open == {} {
      assert forall v | v in g :: v in done by {
        forall v | v in g ensures v in done { assert v !in open; }
      }
      if m: Node :| Connects(g, m, m) {
        var p :| Walk(g, p) && |p| >= 2 && p[0] == m && p[|p| - 1] == m;
        assert p[0] in g;
        var x :| 0 <= x < |done| && done[x] == m;
        var y := WalkGoesForward(g, done, p, x);
      }
    } else {
      forall v | v in open ensures HasPredecessor(g, open, v) {
        var e :| e in EdgesInto(g, left, v);
        assert e.0 in open;
      }
      NoStartMeansCycle(g, open);
    }
  }

  lemma CompletesOrder(g: Adjacency, done: seq<Node>, left: set<Edge>, t: Node)
    requires PredecessorsFirst(g, done) && Free(g, left, t)
    requires LeavingFrom(g, (set v | v in g && v !in done), left)
    ensures PredecessorsFirst(g, done + [t])
  {
    var longer := done + [t];
    forall i, a | 0 <= i < |longer| && a in g && longer[i] in g[a] ensures a in longer[..i] {
      if i < |done| {
        assert longer[..i] == done[..i];
      } else {
        assert longer[..i] == done;
        var j :| 0 <= j < |g[a]| && g[a][j] == t;
        assert (a, j) !in EdgesInto(g, left, t) && Into(g, (a, j), t);
      }
    }
  }
}
