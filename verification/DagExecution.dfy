/**
 Executing a conflict graph epoch by epoch.

 The scheduler thread takes the next epoch, builds its graph, pushes the roots
 to the ready queue and waits for a counter to reach zero.  A pool of workers
 pops ready transactions, executes them, and then decrements the indegree of
 each successor, pushing the ones that reach zero.  Epoch cuts, the pace of
 every thread and the order in which successors are visited are arbitrary.

 The graph is a parameter, so the same machine runs the graph of the epoch
 builder and the graph of the notebook builder.
 */
module DagExecution {
  import opened Transactions
  import opened Execution
  import opened Dependencies
  import opened Iteration

  const THREAD_COUNT: nat := 8

  datatype Config = Config(init: Store, txns: seq<Txn>, g: Graph)

  /** A graph for these transactions: no edge goes backwards. */
  ghost predicate ValidConfig(c: Config) {
    && WellFormed(c.txns)
    && |c.g| == |c.txns|
    && forall a: TxnId, b: TxnId | b < |c.g| && a in c.g[b] :: a <= b
  }

  // ---------- the graph of one epoch ----------

  /** The graph handed to the executor: successor lists, indegrees, and the roots in arrival order. */
  datatype EpochDag = EpochDag(adj: map<TxnId, set<TxnId>>, indegree: map<TxnId, int>, roots: seq<TxnId>)

  ghost function PredsFrom(g: Graph, lo: nat, b: TxnId): set<TxnId>
    requires b < |g|
  {
    set a | a in g[b] && lo <= a
  }

  ghost function Successors(g: Graph, a: TxnId, hi: nat): set<TxnId>
    requires hi <= |g|
  {
    set b: TxnId | a <= b < hi && a in g[b]
  }

  ghost function Roots(g: Graph, lo: nat, hi: nat): seq<TxnId>
    requires lo <= hi <= |g|
    decreases hi
  {
    if lo == hi then []
    else Roots(g, lo, hi - 1) + (if PredsFrom(g, lo, hi - 1) == {} then [hi - 1] else [])
  }

  ghost function DagOf(g: Graph, lo: nat, hi: nat): EpochDag
    requires lo <= hi <= |g|
  {
    EpochDag(
      map a: TxnId | lo <= a < hi :: Successors(g, a, hi),
      map b: TxnId | lo <= b < hi :: |PredsFrom(g, lo, b)|,
      Roots(g, lo, hi))
  }

  // ---------- states and steps ----------

  datatype State = State(
    exec: Exec,
    lo: nat, hi: nat,               // the current epoch is lo..hi; empty between epochs
    dag: EpochDag,                  // its graph; indegrees and roots are consumed
    left: int,                      // num_txns_left_in_epoch
    ready: seq<TxnId>,              // calvin_ready_txns_
    busy: set<TxnId>,               // held by a worker, from pop to return
    todo: map<TxnId, set<TxnId>>,   // successors not yet visited, for workers in their release loop
    returned: seq<TxnId>)           // txn_results_

  datatype Action =
    | OpenEpoch(upto: nat)             // scheduler: build the graph of the next epoch, set the counter
    | PushRoot                         // scheduler: next root to the ready queue
    | CloseEpoch                       // scheduler: the wait loop ends
    | Pop                              // a worker takes the front of the ready queue
    | Step(w: Work)                    // a worker reads, runs the logic or writes
    | Finish(t: TxnId)                 // a worker sets the final status and copies the successor set
    | Release(t: TxnId, b: TxnId)      // a worker decrements one successor, pushing it at zero
    | CountDown(t: TxnId)              // a worker decrements the epoch counter
    | Return(t: TxnId)                 // a worker hands the result to the client

  const NO_DAG := EpochDag(map[], map[], [])

  ghost function Start(c: Config): State {
    State(Initial(c.init, c.txns), 0, 0, NO_DAG, 0, [], {}, map[], [])
  }

  ghost predicate Open(s: State) {
    s.lo < s.hi
  }

  ghost predicate CanDo(c: Config, s: State, act: Action) {
    match act
    case OpenEpoch(upto) => !Open(s) && s.hi < upto <= |c.txns| && upto <= |c.g|
    case PushRoot => Open(s) && s.dag.roots != []
    case CloseEpoch => Open(s) && s.dag.roots == [] && s.left == 0
    case Pop => s.ready != [] && |s.busy| < THREAD_COUNT && Enabled(c.txns, s.exec, Begin(s.ready[0]))
    case Step(w) => !w.Begin? && !w.SetStatus? && w.t in s.busy && Enabled(c.txns, s.exec, w)
    case Finish(t) => t in s.busy && Enabled(c.txns, s.exec, SetStatus(t)) && t in s.dag.adj
    case Release(t, b) => t in s.todo && b in s.todo[t] && b in s.dag.indegree
    case CountDown(t) => t in s.todo && s.todo[t] == {}
    case Return(t) => t in s.busy && t !in s.todo && t < |s.exec.phase| && s.exec.phase[t].Finished?
  }

  ghost function Next(c: Config, s: State, act: Action): State
    requires CanDo(c, s, act)
  {
    match act
    case OpenEpoch(upto) =>
      s.(lo := s.hi, hi := upto, dag := DagOf(c.g, s.hi, upto), left := upto - s.hi)
    case PushRoot =>
      s.(dag := s.dag.(roots := s.dag.roots[1..]), ready := s.ready + [s.dag.roots[0]])
    case CloseEpoch =>
      s.(lo := s.hi, dag := NO_DAG)
    case Pop =>
      s.(exec := Do(c.txns, s.exec, Begin(s.ready[0])), ready := s.ready[1..], busy := s.busy + {s.ready[0]})
    case Step(w) =>
      s.(exec := Do(c.txns, s.exec, w))
    case Finish(t) =>
      s.(exec := Do(c.txns, s.exec, SetStatus(t)), todo := s.todo[t := s.dag.adj[t]])
    case Release(t, b) =>
      s.(dag := s.dag.(indegree := s.dag.indegree[b := s.dag.indegree[b] - 1]),
         ready := if s.dag.indegree[b] == 1 then s.ready + [b] else s.ready,
         todo := s.todo[t := s.todo[t] - {b}])
    case CountDown(t) =>
      s.(left := s.left - 1, todo := s.todo - {t})
    case Return(t) =>
      s.(busy := s.busy - {t}, returned := s.returned + [t])
  }

  /** `acts` leads from `s` to `s'`. */
  ghost predicate Leads(c: Config, s: State, acts: seq<Action>, s': State)
    decreases |acts|
  {
    if acts == [] then s == s'
    else CanDo(c, s, acts[0]) && Leads(c, Next(c, s, acts[0]), acts[1..], s')
  }

  // ---------- what every step keeps ----------

  ghost predicate Final(s: State, t: TxnId) {
    t < |s.exec.phase| && s.exec.phase[t].Finished?
  }

  ghost predicate Unstarted(s: State, t: TxnId) {
    t < |s.exec.phase| && s.exec.phase[t].Idle?
  }

  /** `a` has decremented the indegree of its successor `b`. */
  ghost predicate Released(s: State, a: TxnId, b: TxnId) {
    Final(s, a) && (a in s.todo ==> b !in s.todo[a])
  }

  /** The in-edges of `b` inside the epoch whose source has not decremented `b` yet. */
  ghost function Waiting(c: Config, s: State, b: TxnId): set<TxnId>
    requires b < |c.g|
  {
    set a | a in c.g[b] && s.lo <= a && !Released(s, a, b)
  }

  /** The worker of `t` has passed its decrement of the epoch counter. */
  ghost predicate Counted(s: State, t: TxnId) {
    Final(s, t) && t !in s.todo
  }

  /** The transactions of the epoch that still count. */
  ghost function Uncounted(s: State): set<TxnId> {
    set t: TxnId | s.lo <= t < s.hi && !Counted(s, t)
  }

  /** Earlier epochs are final, later ones have not started. */
  ghost predicate EpochBounds(c: Config, s: State) {
    && |s.exec.phase| == |c.txns|
    && s.lo <= s.hi <= |c.txns|
    && (forall t: TxnId | t < s.lo :: Final(s, t))
    && (forall t: TxnId | s.hi <= t < |c.txns| :: Unstarted(s, t))
  }

  ghost predicate WorkersConsistent(c: Config, s: State) {
    && |s.busy| <= THREAD_COUNT
    && (forall t | t in s.busy :: t < |c.txns| && !Unstarted(s, t))
    && (forall t: TxnId | t < |c.txns| && !Unstarted(s, t) && !Final(s, t) :: t in s.busy)
    && (forall t | t in s.todo :: t in s.busy && Final(s, t) && s.lo <= t < s.hi)
    && (forall t | t in s.todo :: t in s.dag.adj && s.todo[t] <= s.dag.adj[t])
  }

  /** Every transaction is handed back once, when its worker is through with it. */
  ghost predicate ReturnsConsistent(c: Config, s: State) {
    && Distinct(s.returned)
    && forall t: TxnId :: t in s.returned <==> t < |c.txns| && Final(s, t) && t !in s.busy
  }

  ghost predicate DagConsistent(c: Config, s: State)
    requires s.hi <= |c.g|
  {
    && (forall t: TxnId :: t in s.dag.adj <==> Open(s) && s.lo <= t < s.hi)
    && (forall t: TxnId :: t in s.dag.indegree <==> Open(s) && s.lo <= t < s.hi)
    && (forall a: TxnId | a in s.dag.adj :: s.dag.adj[a] == Successors(c.g, a, s.hi))
  }

  ghost predicate DegreesConsistent(c: Config, s: State)
    requires |c.g| == |c.txns| && s.hi <= |c.txns|
  {
    forall b | b in s.dag.indegree && b < s.hi :: s.dag.indegree[b] == |Waiting(c, s, b)|
  }

  ghost predicate InQueue(s: State, b: TxnId) {
    b in s.dag.roots || b in s.ready
  }

  /** Ready means: indegree zero and not started; nothing is queued twice. */
  ghost predicate QueuesConsistent(c: Config, s: State) {
    && Distinct(s.dag.roots) && Distinct(s.ready) && (forall b | b in s.dag.roots :: b !in s.ready)
    && (forall b: TxnId | InQueue(s, b) :: b in s.dag.indegree && Unstarted(s, b))
    && (forall b | b in s.dag.indegree :: s.dag.indegree[b] == 0 <==> InQueue(s, b) || !Unstarted(s, b))
  }

  ghost predicate CounterConsistent(s: State) {
    s.left == |Uncounted(s)|
  }

  ghost predicate Consistent(c: Config, s: State) {
    && ValidConfig(c)
    && EpochBounds(c, s)
    && WorkersConsistent(c, s)
    && ReturnsConsistent(c, s)
    && DagConsistent(c, s)
    && DegreesConsistent(c, s)
    && QueuesConsistent(c, s)
    && CounterConsistent(s)
  }

  lemma StartConsistent(c: Config)
    requires ValidConfig(c)
    ensures Consistent(c, Start(c))
  {
    assert Uncounted(Start(c)) == {};
  }

  lemma RootsAreRoots(g: Graph, lo: nat, hi: nat)
    requires lo <= hi <= |g|
    ensures forall b: TxnId :: b in Roots(g, lo, hi) <==> lo <= b < hi && PredsFrom(g, lo, b) == {}
    ensures Ascending(Roots(g, lo, hi)) && Distinct(Roots(g, lo, hi))
    decreases hi
  {
    if lo < hi {
      RootsAreRoots(g, lo, hi - 1);
      var front := Roots(g, lo, hi - 1);
      assert forall i | 0 <= i < |front| :: front[i] in front;
    }
  }

  /** Nodes, edges, indegrees and roots, edge by edge; the roots stand in arrival order. */
  ghost predicate DagTells(g: Graph, lo: nat, hi: nat, dag: EpochDag)
    requires lo <= hi <= |g|
  {
    && (forall t: TxnId :: t in dag.adj <==> lo <= t < hi)
    && (forall t: TxnId :: t in dag.indegree <==> lo <= t < hi)
    && (forall a: TxnId, b: TxnId | a in dag.adj :: b in dag.adj[a] <==> a <= b < hi && a in g[b])
    && (forall b: TxnId | lo <= b < hi :: dag.indegree[b] == |set a: TxnId | a in g[b] && lo <= a|)
    && Ascending(dag.roots)
    && (forall b: TxnId :: b in dag.roots <==> lo <= b < hi && forall a: TxnId | a in g[b] :: a < lo)
  }

  lemma DagOfTells(g: Graph, lo: nat, hi: nat, dag: EpochDag)
    requires lo <= hi <= |g| && dag == DagOf(g, lo, hi)
    ensures DagTells(g, lo, hi, dag)
  {
    RootsAreRoots(g, lo, hi);
    forall b: TxnId | lo <= b < hi
      ensures PredsFrom(g, lo, b) == (set a: TxnId | a in g[b] && lo <= a)
      ensures PredsFrom(g, lo, b) == {} <==> forall a: TxnId | a in g[b] :: a < lo
    {
      if PredsFrom(g, lo, b) == {} {
        forall a: TxnId | a in g[b] ensures a < lo { assert a !in PredsFrom(g, lo, b); }
      }
    }
  }

  lemma RangeCount(lo: nat, hi: nat, x: set<nat>)
    requires lo <= hi
    requires forall t: nat :: t in x <==> lo <= t < hi
    ensures |x| == hi - lo
    decreases hi
  {
    if lo < hi {
      RangeCount(lo, hi - 1, x - {hi - 1});
    } else {
      assert x == {};
    }
  }

  /** The barrier: a zero counter means all of the epoch is final and nobody is still in its release loop. */
  lemma CounterIsBarrier(c: Config, s: State)
    requires CounterConsistent(s)
    ensures s.left == 0 <==> forall t: TxnId | s.lo <= t < s.hi :: Final(s, t) && t !in s.todo
    ensures s.left >= 0
  {
    if s.left == 0 {
      forall t: TxnId | s.lo <= t < s.hi ensures Final(s, t) && t !in s.todo {
        assert t !in Uncounted(s);
        assert Counted(s, t);
      }
    }
    if forall t: TxnId | s.lo <= t < s.hi :: Final(s, t) && t !in s.todo {
      assert Uncounted(s) == {};
    }
  }

  // ---------- one lemma per part of the invariant ----------

  lemma FinalStays(c: Config, s: State, act: Action, t: TxnId)
    requires EpochBounds(c, s) && CanDo(c, s, act) && Final(s, t)
    ensures Final(Next(c, s, act), t)
  {
  }

  /** Only transactions of the open epoch start or move. */
  lemma LaterStayUnstarted(c: Config, s: State, act: Action, t: TxnId)
    requires ValidConfig(c) && EpochBounds(c, s) && WorkersConsistent(c, s) && DagConsistent(c, s) && QueuesConsistent(c, s)
    requires CanDo(c, s, act) && s.hi <= t && Unstarted(s, t)
    ensures Unstarted(Next(c, s, act), t)
  {
    if act.Pop? { assert InQueue(s, s.ready[0]); }
  }

  lemma BoundsKept(c: Config, s: State, act: Action)
    requires Consistent(c, s) && CanDo(c, s, act)
    ensures EpochBounds(c, Next(c, s, act))
  {
    var s' := Next(c, s, act);
    if act.CloseEpoch? { CounterIsBarrier(c, s); }
    forall t: TxnId | t < s'.lo ensures Final(s', t) {
      FinalStays(c, s, act, t);
    }
    forall t: TxnId | s'.hi <= t < |c.txns| ensures Unstarted(s', t) {
      LaterStayUnstarted(c, s, act, t);
    }
  }

  lemma PopKeepsWorkers(c: Config, s: State)
    requires Consistent(c, s) && CanDo(c, s, Pop)
    ensures WorkersConsistent(c, Next(c, s, Pop))
  {
    var s' := Next(c, s, Pop);
    assert InQueue(s, s.ready[0]);
    assert |s'.busy| <= |s.busy| + 1;
    assert forall t: TxnId :: t != s.ready[0] ==> Unstarted(s', t) == Unstarted(s, t) && Final(s', t) == Final(s, t);
  }

  lemma StepKeepsWorkers(c: Config, s: State, act: Action)
    requires ValidConfig(c) && EpochBounds(c, s) && WorkersConsistent(c, s) && DagConsistent(c, s) && CanDo(c, s, act)
    requires act.Step? || act.Finish?
    ensures WorkersConsistent(c, Next(c, s, act))
  {
    var s' := Next(c, s, act);
    var t0 := if act.Step? then act.w.t else act.t;
    assert !Unstarted(s, t0) && !Final(s, t0) && !Unstarted(s', t0);
    assert forall t: TxnId :: t != t0 ==> Unstarted(s', t) == Unstarted(s, t) && Final(s', t) == Final(s, t);
  }

  lemma OthersKeepWorkers(c: Config, s: State, act: Action)
    requires ValidConfig(c) && EpochBounds(c, s) && WorkersConsistent(c, s) && CounterConsistent(s) && CanDo(c, s, act)
    requires !act.Step? && !act.Finish? && !act.Pop?
    ensures WorkersConsistent(c, Next(c, s, act))
  {
    var s' := Next(c, s, act);
    CounterIsBarrier(c, s);
    assert forall t: TxnId :: Unstarted(s', t) == Unstarted(s, t) && Final(s', t) == Final(s, t);
  }

  lemma ReturnsKept(c: Config, s: State, act: Action)
    requires Consistent(c, s) && CanDo(c, s, act)
    ensures ReturnsConsistent(c, Next(c, s, act))
  {
    var s' := Next(c, s, act);
    if act.Return? {
      AppendDistinct(s.returned, act.t);
      assert forall t: TxnId :: Final(s', t) == Final(s, t);
    } else {
      assert s'.returned == s.returned;
      forall t: TxnId ensures (Final(s', t) && t !in s'.busy) == (Final(s, t) && t !in s.busy) {
        ReturnableKept(c, s, act, t);
      }
    }
  }

  lemma ReturnableKept(c: Config, s: State, act: Action, t: TxnId)
    requires Consistent(c, s) && CanDo(c, s, act) && !act.Return?
    ensures var s' := Next(c, s, act); (Final(s', t) && t !in s'.busy) == (Final(s, t) && t !in s.busy)
  {
  }

  lemma DagKept(c: Config, s: State, act: Action)
    requires Consistent(c, s) && CanDo(c, s, act)
    requires Next(c, s, act).hi <= |c.g|
    ensures DagConsistent(c, Next(c, s, act))
  {
  }

  /** A transaction that has just finished has all its decrements ahead of it. */
  lemma FinishReleasesNothing(c: Config, s: State, a: TxnId, b: TxnId)
    requires ValidConfig(c) && s.hi <= |c.txns| && DagConsistent(c, s) && CanDo(c, s, Finish(a))
    requires b in s.dag.indegree && a in c.g[b] && s.lo <= a
    ensures !Released(s, a, b) && !Released(Next(c, s, Finish(a)), a, b)
  {
    assert b in s.dag.adj[a];
  }

  lemma ReleasedKept(c: Config, s: State, act: Action, a: TxnId, b: TxnId)
    requires ValidConfig(c) && EpochBounds(c, s) && WorkersConsistent(c, s) && DagConsistent(c, s)
    requires CanDo(c, s, act) && !act.OpenEpoch?
    requires b in s.dag.indegree && a in c.g[b] && s.lo <= a
    ensures Released(Next(c, s, act), a, b) <==> Released(s, a, b) || act == Release(a, b)
  {
    if act == Finish(a) { FinishReleasesNothing(c, s, a, b); }
  }

  lemma WaitingAfter(c: Config, s: State, act: Action, b: TxnId)
    requires ValidConfig(c) && EpochBounds(c, s) && WorkersConsistent(c, s) && DagConsistent(c, s)
    requires CanDo(c, s, act) && !act.OpenEpoch? && !act.CloseEpoch?
    requires b in s.dag.indegree
    ensures Waiting(c, Next(c, s, act), b)
         == if act.Release? && act.b == b then Waiting(c, s, b) - {act.t} else Waiting(c, s, b)
  {
    var s' := Next(c, s, act);
    assert s'.lo == s.lo;
    forall a | a in c.g[b] && s.lo <= a
      ensures Released(s', a, b) <==> Released(s, a, b) || act == Release(a, b)
    {
      ReleasedKept(c, s, act, a, b);
    }
  }

  lemma DegreesKept(c: Config, s: State, act: Action)
    requires Consistent(c, s) && CanDo(c, s, act) && !act.OpenEpoch?
    requires Next(c, s, act).hi <= |c.txns|
    ensures DegreesConsistent(c, Next(c, s, act))
  {
    var s' := Next(c, s, act);
    forall b | b in s'.dag.indegree && b < s'.hi ensures s'.dag.indegree[b] == |Waiting(c, s', b)| {
      WaitingAfter(c, s, act, b);
      if act.Release? && act.b == b {
        assert act.t in Waiting(c, s, b);
      }
    }
  }

  lemma OpenKeepsDegrees(c: Config, s: State, upto: nat)
    requires Consistent(c, s) && CanDo(c, s, OpenEpoch(upto))
    ensures DegreesConsistent(c, Next(c, s, OpenEpoch(upto)))
  {
    var s' := Next(c, s, OpenEpoch(upto));
    forall b | b in s'.dag.indegree && b < s'.hi ensures s'.dag.indegree[b] == |Waiting(c, s', b)| {
      forall a | a in PredsFrom(c.g, s'.lo, b) ensures a in Waiting(c, s', b) {
        assert Unstarted(s, a);
      }
      assert Waiting(c, s', b) == PredsFrom(c.g, s'.lo, b);
    }
  }

  lemma OpenKeepsQueues(c: Config, s: State, upto: nat)
    requires Consistent(c, s) && CanDo(c, s, OpenEpoch(upto))
    ensures QueuesConsistent(c, Next(c, s, OpenEpoch(upto)))
  {
    var s' := Next(c, s, OpenEpoch(upto));
    RootsAreRoots(c.g, s.hi, upto);
    assert forall b | b in s.ready :: InQueue(s, b);
    assert forall b: TxnId | s'.lo <= b < s'.hi :: Unstarted(s, b) && Unstarted(s', b);
  }

  lemma CloseKeepsQueues(c: Config, s: State)
    requires Consistent(c, s) && CanDo(c, s, CloseEpoch)
    ensures QueuesConsistent(c, Next(c, s, CloseEpoch))
  {
    CounterIsBarrier(c, s);
    assert forall b | b in s.ready :: InQueue(s, b);
    assert forall b: TxnId | s.lo <= b < s.hi :: !Unstarted(s, b);
  }

  lemma PushKeepsQueues(c: Config, s: State)
    requires Consistent(c, s) && CanDo(c, s, PushRoot)
    ensures QueuesConsistent(c, Next(c, s, PushRoot))
  {
    var s' := Next(c, s, PushRoot);
    TailDistinct(s.dag.roots);
    assert InQueue(s, s.dag.roots[0]);
    AppendDistinct(s.ready, s.dag.roots[0]);
    assert forall b :: InQueue(s', b) <==> InQueue(s, b);
  }

  lemma PopKeepsQueues(c: Config, s: State)
    requires Consistent(c, s) && CanDo(c, s, Pop)
    ensures QueuesConsistent(c, Next(c, s, Pop))
  {
    var s' := Next(c, s, Pop);
    TailDistinct(s.ready);
    assert InQueue(s, s.ready[0]);
    assert forall b :: InQueue(s', b) <==> InQueue(s, b) && b != s.ready[0];
    assert forall b: TxnId :: Unstarted(s', b) <==> Unstarted(s, b) && b != s.ready[0];
  }

  lemma ReleaseKeepsQueues(c: Config, s: State, t: TxnId, b: TxnId)
    requires Consistent(c, s) && CanDo(c, s, Release(t, b))
    ensures QueuesConsistent(c, Next(c, s, Release(t, b)))
  {
    var s' := Next(c, s, Release(t, b));
    assert t in Waiting(c, s, b);
    assert s.dag.indegree[b] > 0;
    if s.dag.indegree[b] == 1 {
      assert !InQueue(s, b);
      AppendDistinct(s.ready, b);
    }
    assert forall x :: InQueue(s', x) <==> InQueue(s, x) || (x == b && s.dag.indegree[b] == 1);
  }

  lemma OthersKeepQueues(c: Config, s: State, act: Action)
    requires Consistent(c, s) && CanDo(c, s, act)
    requires act.Step? || act.Finish? || act.CountDown? || act.Return?
    ensures QueuesConsistent(c, Next(c, s, act))
  {
    var s' := Next(c, s, act);
    assert s'.dag == s.dag && s'.ready == s.ready;
    assert forall b: TxnId :: Unstarted(s', b) <==> Unstarted(s, b);
    assert forall b :: InQueue(s', b) <==> InQueue(s, b);
  }

  lemma QueuesKept(c: Config, s: State, act: Action)
    requires Consistent(c, s) && CanDo(c, s, act) && !act.OpenEpoch?
    ensures QueuesConsistent(c, Next(c, s, act))
  {
    match act
    case PushRoot => PushKeepsQueues(c, s);
    case CloseEpoch => CloseKeepsQueues(c, s);
    case Pop => PopKeepsQueues(c, s);
    case Release(t, b) => ReleaseKeepsQueues(c, s, t, b);
    case _ => OthersKeepQueues(c, s, act);
  }

  lemma CountedKept(c: Config, s: State, act: Action, t: TxnId)
    requires ValidConfig(c) && EpochBounds(c, s) && WorkersConsistent(c, s) && DagConsistent(c, s)
    requires CanDo(c, s, act) && s.lo <= t < s.hi
    ensures Counted(Next(c, s, act), t) <==> Counted(s, t) || act == CountDown(t)
  {
  }

  lemma UncountedKept(c: Config, s: State, act: Action)
    requires ValidConfig(c) && EpochBounds(c, s) && WorkersConsistent(c, s) && DagConsistent(c, s)
    requires CanDo(c, s, act) && !act.OpenEpoch? && !act.CloseEpoch?
    ensures Uncounted(Next(c, s, act)) == if act.CountDown? then Uncounted(s) - {act.t} else Uncounted(s)
  {
    var s' := Next(c, s, act);
    forall t: TxnId | s.lo <= t < s.hi
      ensures Counted(s', t) <==> Counted(s, t) || act == CountDown(t)
    {
      CountedKept(c, s, act, t);
    }
    assert s'.lo == s.lo && s'.hi == s.hi;
  }

  lemma CounterKept(c: Config, s: State, act: Action)
    requires Consistent(c, s) && CanDo(c, s, act) && !act.OpenEpoch?
    ensures CounterConsistent(Next(c, s, act))
  {
    if act.CloseEpoch? {
      assert Uncounted(Next(c, s, act)) == {};
    } else {
      UncountedKept(c, s, act);
    }
  }

  lemma OpenKeepsCounter(c: Config, s: State, upto: nat)
    requires Consistent(c, s) && CanDo(c, s, OpenEpoch(upto))
    ensures CounterConsistent(Next(c, s, OpenEpoch(upto)))
  {
    var s' := Next(c, s, OpenEpoch(upto));
    forall t: nat ensures t in Uncounted(s') <==> s.hi <= t < upto {
      assert s.hi <= t < upto ==> Unstarted(s, t);
    }
    RangeCount(s.hi, upto, Uncounted(s'));
  }

  lemma ConsistentKept(c: Config, s: State, act: Action)
    requires Consistent(c, s) && CanDo(c, s, act)
    ensures Consistent(c, Next(c, s, act))
  {
    BoundsKept(c, s, act);
    if act.Pop? {
      PopKeepsWorkers(c, s);
    } else if act.Step? || act.Finish? {
      StepKeepsWorkers(c, s, act);
    } else {
      OthersKeepWorkers(c, s, act);
    }
    ReturnsKept(c, s, act);
    DagKept(c, s, act);
    if act.OpenEpoch? {
      OpenKeepsDegrees(c, s, act.upto);
      OpenKeepsQueues(c, s, act.upto);
      OpenKeepsCounter(c, s, act.upto);
    } else {
      DegreesKept(c, s, act);
      QueuesKept(c, s, act);
      CounterKept(c, s, act);
    }
  }
}
