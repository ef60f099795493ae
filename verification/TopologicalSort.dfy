/**
 The notebook's depth-first sort.  A failed search leaves its path marked, and
 still exactly the starts from which a cycle can be reached fail.
 */
module TopologicalSort {
  import opened Iteration

  type Node = nat

  /** Adjacency lists; a node may occur twice in a list. */
  type Adjacency = map<Node, seq<Node>>

  ghost predicate Closed(g: Adjacency) {
    forall a, b | a in g && b in g[a] :: b in g
  }

  ghost predicate Walk(g: Adjacency, p: seq<Node>) {
    |p| > 0 && forall i | 0 <= i < |p| - 1 :: p[i] in g && p[i + 1] in g[p[i]]
  }

  /** A walk of at least one edge leads from `a` to `b`. */
  ghost predicate Connects(g: Adjacency, a: Node, b: Node) {
    exists p :: Walk(g, p) && |p| >= 2 && p[0] == a && p[|p| - 1] == b
  }

  /** A cycle can be reached from `a`. */
  ghost predicate ReachesCycle(g: Adjacency, a: Node) {
    exists m: Node :: (a == m || Connects(g, a, m)) && Connects(g, m, m)
  }

  ghost predicate Acyclic(g: Adjacency) {
    forall m: Node :: !Connects(g, m, m)
  }

  lemma EdgeConnects(g: Adjacency, a: Node, b: Node)
    requires a in g && b in g[a]
    ensures Connects(g, a, b)
  {
    assert Walk(g, [a, b]);
  }

  lemma ConnectsFurther(g: Adjacency, x: Node, a: Node, b: Node)
    requires Connects(g, x, a) && a in g && b in g[a]
    ensures Connects(g, x, b)
  {
    var p :| Walk(g, p) && |p| >= 2 && p[0] == x && p[|p| - 1] == a;
    assert Walk(g, p + [b]);
  }

  lemma ReachesCycleFrom(g: Adjacency, a: Node, b: Node)
    requires a in g && b in g[a] && ReachesCycle(g, b)
    ensures ReachesCycle(g, a)
  {
    var m: Node :| (b == m || Connects(g, b, m)) && Connects(g, m, m);
    if b == m {
      EdgeConnects(g, a, b);
    } else {
      var p :| Walk(g, p) && |p| >= 2 && p[0] == b && p[|p| - 1] == m;
      assert Walk(g, [a] + p);
    }
    assert Connects(g, a, m);
  }

  // ---------- finished nodes ----------

  /** Every node comes after all its successors. */
  ghost predicate SuccessorsFirst(g: Adjacency, res: seq<Node>) {
    forall i, b | 0 <= i < |res| && res[i] in g && b in g[res[i]] :: b in res[..i]
  }

  /** Walks only go back in such a list. */
  lemma {:induction false} WalkGoesBack(g: Adjacency, res: seq<Node>, p: seq<Node>, i: nat) returns (k: nat)
    requires SuccessorsFirst(g, res) && Walk(g, p) && i < |res| && res[i] == p[0]
    ensures k <= i && res[k] == p[|p| - 1] && (|p| >= 2 ==> k < i)
    decreases |p|
  {
    if |p| == 1 {
      k := i;
    } else {
      assert p[1] in res[..i];
      var j :| 0 <= j < i && res[j] == p[1];
      assert Walk(g, p[1..]);
      k := WalkGoesBack(g, res, p[1..], j);
    }
  }

  lemma FinishedReachNoCycle(g: Adjacency, res: seq<Node>, a: Node)
    requires SuccessorsFirst(g, res) && Distinct(res) && a in res
    ensures !ReachesCycle(g, a)
  {
    if ReachesCycle(g, a) {
      var m: Node :| (a == m || Connects(g, a, m)) && Connects(g, m, m);
      var i :| 0 <= i < |res| && res[i] == a;
      var k := i;
      if a != m {
        var p :| Walk(g, p) && |p| >= 2 && p[0] == a && p[|p| - 1] == m;
        k := WalkGoesBack(g, res, p, i);
      }
      var q :| Walk(g, q) && |q| >= 2 && q[0] == m && q[|q| - 1] == m;
      var j := WalkGoesBack(g, res, q, k);
      assert false;
    }
  }

  // ---------- neighbours and starts in turn ----------

  /** A search from `node` finishes it, unless it reaches a cycle, and otherwise only nodes reached from it. */
  ghost predicate Entered(g: Adjacency, node: Node, before: seq<Node>, after: seq<Node>) {
    && before <= after
    && (node in after || ReachesCycle(g, node))
    && (forall k | |before| <= k < |after| :: after[k] == node || Connects(g, node, after[k]))
  }

  /** The first `m` of the list were entered one after the other, from the front. */
  ghost predicate InTurn(g: Adjacency, list: seq<Node>, m: nat, before: seq<Node>, after: seq<Node>)
    requires m <= |list|
  {
    if m == 0 then
      before == after
    else
      var front := m - 1;
      exists mid: seq<Node> :: InTurn(g, list, front, before, mid) && Entered(g, list[front], mid, after)
  }

  lemma NextInTurn(g: Adjacency, list: seq<Node>, m: nat, before: seq<Node>, mid: seq<Node>, after: seq<Node>)
    requires m < |list| && InTurn(g, list, m, before, mid) && Entered(g, list[m], mid, after)
    ensures InTurn(g, list, m + 1, before, after)
  {
  }

  lemma {:induction false} ReachedFromList(g: Adjacency, list: seq<Node>, m: nat, before: seq<Node>, after: seq<Node>)
    requires m <= |list| && InTurn(g, list, m, before, after)
    ensures before <= after
    ensures forall k | |before| <= k < |after| :: exists h | 0 <= h < m :: list[h] == after[k] || Connects(g, list[h], after[k])
    ensures forall h | 0 <= h < m :: list[h] in after || ReachesCycle(g, list[h])
  {
    if m > 0 {
      var last := m - 1;
      var mid :| InTurn(g, list, last, before, mid) && Entered(g, list[last], mid, after);
      ReachedFromList(g, list, last, before, mid);
    }
  }

  /** The loop over the neighbours ends behind the first one that reaches a cycle. */
  ghost predicate Tried(g: Adjacency, list: seq<Node>, m: nat) {
    && m <= |list|
    && (forall h | 0 <= h < m - 1 :: !ReachesCycle(g, list[h]))
    && (m < |list| ==> m > 0 && ReachesCycle(g, list[m - 1]))
  }

  /** Up to there the neighbours were gone through in turn. */
  ghost predicate NeighboursInTurn(g: Adjacency, node: Node, before: seq<Node>, after: seq<Node>)
    requires node in g
  {
    exists m: nat :: Tried(g, g[node], m) && InTurn(g, g[node], m, before, after)
  }

  lemma ReachedThrough(g: Adjacency, node: Node, nei: Node, x: Node)
    requires node in g && nei in g[node] && (nei == x || Connects(g, nei, x))
    ensures Connects(g, node, x)
  {
    if nei == x {
      EdgeConnects(g, node, x);
    } else {
      var p :| Walk(g, p) && |p| >= 2 && p[0] == nei && p[|p| - 1] == x;
      assert Walk(g, [node] + p);
    }
  }

  lemma NeighboursEntered(g: Adjacency, node: Node, before: seq<Node>, after: seq<Node>)
    requires node in g && NeighboursInTurn(g, node, before, after)
    ensures before <= after && forall k | |before| <= k < |after| :: Connects(g, node, after[k])
  {
    var m: nat :| Tried(g, g[node], m) && InTurn(g, g[node], m, before, after);
    ReachedFromList(g, g[node], m, before, after);
    forall k | |before| <= k < |after| ensures Connects(g, node, after[k]) {
      var h :| 0 <= h < m && (g[node][h] == after[k] || Connects(g, g[node][h], after[k]));
      ReachedThrough(g, node, g[node][h], after[k]);
    }
  }

  // ---------- the search ----------

  /** What is marked as on the path leads to `node`, or was left there for a good reason. */
  ghost predicate OnPath(g: Adjacency, path: set<Node>, node: Node) {
    forall x | x in path :: Connects(g, x, node) || ReachesCycle(g, x)
  }

  class Search {
    const adj: Adjacency
    var visit: set<Node>   // finished
    var cycle: set<Node>   // on the current path, or left there by a failed search
    var res: seq<Node>

    ghost predicate Valid()
      reads this
    {
      && Closed(adj)
      && visit <= adj.Keys && cycle <= adj.Keys && visit !! cycle
      && Distinct(res) && (forall x :: x in res <==> x in visit)
      && SuccessorsFirst(adj, res)
    }

    constructor (adj: Adjacency)
      requires Closed(adj)
      ensures Valid() && this.adj == adj && visit == {} && cycle == {} && res == []
    {
      this.adj := adj;
      visit, cycle, res := {}, {}, [];
    }

    method Dfs(node: Node) returns (ok: bool)
      requires Valid() && node in adj && OnPath(adj, cycle, node)
      modifies this
      ensures Valid() && old(visit) <= visit && old(cycle) <= cycle
      ensures ok <==> !ReachesCycle(adj, node)
      ensures ok ==> cycle == old(cycle) && node in visit
      ensures forall x | x in cycle :: x in old(cycle) || ReachesCycle(adj, x)
      ensures Entered(adj, node, old(res), res)
      ensures node in old(visit) + old(cycle) ==> res == old(res)
      ensures node !in old(visit) + old(cycle) ==>
                && (ok ==> |res| > 0 && res[|res| - 1] == node)
                && NeighboursInTurn(adj, node, old(res), if ok then res[..|res| - 1] else res)
      decreases Unmarked(), 1
    {
      if node in visit {
        FinishedReachNoCycle(adj, res, node);
        return true;
      }
      if node in cycle {
        return false;
      }
      cycle := cycle + {node};
      ok := Explore(node);
      NeighboursEntered(adj, node, old(res), res);
      if ok {
        ghost var explored := res;
        Leave(node);
        assert res[..|res| - 1] == explored;
      }
    }

    ghost function Unmarked(): set<Node>
      reads this
    {
      adj.Keys - visit - cycle
    }

    /** The loop over the neighbours of a node that is on the path. */
    method Explore(node: Node) returns (ok: bool)
      requires Valid() && node in adj && node in cycle && OnPath(adj, cycle - {node}, node)
      modifies this
      ensures Valid() && old(visit) <= visit && old(cycle) <= cycle
      ensures ok ==> cycle == old(cycle) && forall j | 0 <= j < |adj[node]| :: adj[node][j] in visit
      ensures !ok ==> ReachesCycle(adj, node)
      ensures forall x | x in cycle :: x in old(cycle) || ReachesCycle(adj, x)
      ensures NeighboursInTurn(adj, node, old(res), res)
      decreases Unmarked(), 2
    {
      for i := 0 to |adj[node]|
        invariant Valid() && old(visit) <= visit && cycle == old(cycle)
        invariant forall j | 0 <= j < i :: !ReachesCycle(adj, adj[node][j])
        invariant InTurn(adj, adj[node], i, old(res), res)
      {
        var nei := adj[node][i];
        PathGrows(adj, cycle - {node}, node, nei);
        assert cycle - {node} + {node} == cycle;
        ghost var mid := res;
        ok := Dfs(nei);
        NextInTurn(adj, adj[node], i, old(res), mid, res);
        if !ok {
          assert Tried(adj, adj[node], i + 1);
          ReachesCycleFrom(adj, node, nei);
          return;
        }
      }
      assert Tried(adj, adj[node], |adj[node]|);
      ReachedFromList(adj, adj[node], |adj[node]|, old(res), res);
      ok := true;
    }

    method Leave(node: Node)
      requires Valid() && node in adj && node in cycle
      requires forall j | 0 <= j < |adj[node]| :: adj[node][j] in visit
      modifies this
      ensures Valid() && visit == old(visit) + {node} && cycle == old(cycle) - {node} && res == old(res) + [node]
      ensures !ReachesCycle(adj, node)
    {
      Finish(adj, res, node);
      res := res + [node];
      cycle := cycle - {node};
      visit := visit + {node};
      FinishedReachNoCycle(adj, res, node);
    }
  }

  lemma PathGrows(g: Adjacency, path: set<Node>, node: Node, nei: Node)
    requires node in g && nei in g[node]
    requires OnPath(g, path, node)
    ensures OnPath(g, path + {node}, nei)
  {
    EdgeConnects(g, node, nei);
    forall x | x in path && Connects(g, x, node) ensures Connects(g, x, nei) {
      ConnectsFurther(g, x, node, nei);
    }
  }

  lemma Finish(g: Adjacency, res: seq<Node>, node: Node)
    requires SuccessorsFirst(g, res) && Distinct(res) && node !in res
    requires node in g && forall j | 0 <= j < |g[node]| :: g[node][j] in res
    ensures SuccessorsFirst(g, res + [node]) && Distinct(res + [node])
  {
    AppendDistinct(res, node);
    var longer := res + [node];
    forall i, b | 0 <= i < |longer| && longer[i] in g && b in g[longer[i]] ensures b in longer[..i] {
      if i < |res| {
        assert longer[..i] == res[..i];
      } else {
        assert longer[..i] == res;
      }
    }
  }

  // ---------- the whole sort ----------

  function Reversed(res: seq<Node>): seq<Node> {
    seq(|res|, i requires 0 <= i < |res| => res[|res| - 1 - i])
  }

  /** Every edge between listed nodes goes forward. */
  ghost predicate EdgesForward(g: Adjacency, order: seq<Node>) {
    forall i, j | 0 <= i < |order| && 0 <= j < |order| && order[i] in g && order[j] in g[order[i]] :: i < j
  }

  lemma ReversedForward(g: Adjacency, res: seq<Node>)
    requires SuccessorsFirst(g, res) && Distinct(res)
    ensures EdgesForward(g, Reversed(res)) && Distinct(Reversed(res))
    ensures forall x :: x in Reversed(res) <==> x in res
  {
    var order := Reversed(res);
    forall i, j | 0 <= i < |order| && 0 <= j < |order| && order[i] in g && order[j] in g[order[i]] ensures i < j {
      var p := |res| - 1 - i;
      assert order[j] in res[..p];
    }
    forall x | x in res ensures x in Reversed(res) {
      var i :| 0 <= i < |res| && res[i] == x;
      assert order[|res| - 1 - i] == x;
    }
  }

  /** Each start reports whether it can reach a cycle. */
  ghost predicate Reports(g: Adjacency, nodes: seq<Node>, ok: seq<bool>) {
    |ok| <= |nodes| && forall i | 0 <= i < |ok| :: ok[i] <==> !ReachesCycle(g, nodes[i])
  }

  lemma ReportsOneMore(g: Adjacency, nodes: seq<Node>, ok: seq<bool>, good: bool)
    requires Reports(g, nodes, ok) && |ok| < |nodes| && (good <==> !ReachesCycle(g, nodes[|ok|]))
    ensures Reports(g, nodes, ok + [good])
  {
  }

  /**
   The search is started from every node in turn; a failed start does not stop
   the loop.  `ok[i]` tells whether the i-th start succeeded.
   */
  method Sort(adj: Adjacency, nodes: seq<Node>) returns (order: seq<Node>, ok: seq<bool>)
    requires Closed(adj) && forall x :: x in nodes <==> x in adj
    ensures |ok| == |nodes| && Reports(adj, nodes, ok)
    ensures Distinct(order) && EdgesForward(adj, order)
    ensures forall x :: x in order <==> x in adj && !ReachesCycle(adj, x)
    ensures InTurn(adj, nodes, |nodes|, [], Reversed(order))
  {
    var search := new Search(adj);
    ok := [];
    for i := 0 to |nodes|
      invariant search.Valid() && search.adj == adj && fresh(search)
      invariant forall x | x in search.cycle :: ReachesCycle(adj, x)
      invariant |ok| == i && Reports(adj, nodes, ok)
      invariant InTurn(adj, nodes, i, [], search.res)
    {
      assert nodes[i] in adj;
      ghost var mid := search.res;
      var good := search.Dfs(nodes[i]);
      NextInTurn(adj, nodes, i, [], mid, search.res);
      ReportsOneMore(adj, nodes, ok, good);
      ok := ok + [good];
    }
    order := Reversed(search.res);
    StartsExhausted(adj, nodes, search.res);
  }

  lemma StartsExhausted(g: Adjacency, nodes: seq<Node>, res: seq<Node>)
    requires forall x :: x in nodes <==> x in g
    requires Distinct(res) && SuccessorsFirst(g, res) && (forall x | x in res :: x in g)
    requires InTurn(g, nodes, |nodes|, [], res)
    ensures Distinct(Reversed(res)) && EdgesForward(g, Reversed(res)) && Reversed(Reversed(res)) == res
    ensures forall x :: x in Reversed(res) <==> x in g && !ReachesCycle(g, x)
  {
    ReversedForward(g, res);
    ReachedFromList(g, nodes, |nodes|, [], res);
    forall x ensures x in res <==> x in g && !ReachesCycle(g, x) {
      if x in res { FinishedReachNoCycle(g, res, x); }
      if x in g { assert x in nodes; }
    }
  }

  /** Some start fails exactly when the graph has a cycle. */
  lemma AllStartsSucceedIffAcyclic(g: Adjacency)
    requires Closed(g)
    ensures (forall x | x in g :: !ReachesCycle(g, x)) <==> Acyclic(g)
  {
    if m: Node :| Connects(g, m, m) {
      var p :| Walk(g, p) && |p| >= 2 && p[0] == m && p[|p| - 1] == m;
      assert p[0] in g;
      assert ReachesCycle(g, m);
    }
  }
}
