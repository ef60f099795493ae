/**
 Continuous scheduling with one pair of mutexes per transaction.

 A single scheduler thread links each arriving transaction into the graph
 while workers are executing it.  `indegree_mutex` of the new transaction is
 held by the scheduler while it is being linked; `neighbors_mutex` of a
 possible predecessor is taken with try_lock, so the scheduler never waits.
 A worker that has set its final status takes its own `neighbors_mutex`,
 copies the neighbour set, and takes the `indegree_mutex` of one neighbour
 after the other to decrement it.
 */
module IndividualLocks {
  import opened Transactions
  import opened Execution
  import opened Dependencies
  import opened Iteration

  const THREAD_COUNT: nat := 8

  datatype Config = Config(init: Store, txns: seq<Txn>)

  ghost predicate ValidConfig(c: Config) {
    WellFormed(c.txns)
  }

  ghost function GraphOf(c: Config): Graph {
    IndivGraph(c.txns)
  }

  /** The checks the scheduler makes for transaction `t`: a key and a transaction found there. */
  ghost function Checks(txns: seq<Txn>, t: TxnId): set<(Key, TxnId)>
    requires t < |txns|
  {
    set k, a: TxnId | k in txns[t].Footprint() && 0 <= a < t && IndivEdgeOn(txns, a, t, k) :: (k, a)
  }

  /** What the scheduler is doing with the transaction it is linking. */
  datatype Probe =
    | NoProbe
    | Probing(k: Key, a: TxnId)   // holds neighbors_mutex of `a`
    | Linking(k: Key, a: TxnId)   // holds it and has found `a` not final

  datatype Linker = Resting | Busy(todo: set<(Key, TxnId)>, probe: Probe)

  /** A worker whose transaction is final. */
  datatype Grip = NoGrip | Gripping(b: TxnId)   // holds indegree_mutex of `b`

  datatype Exit =
    | WantsOwn                                       // about to lock its own neighbors_mutex
    | Releasing(left: set<TxnId>, grip: Grip)        // holds it; neighbours still to be decremented

  datatype State = State(
    exec: Exec,
    next: nat,                        // requests below are linked; `next` is being linked if the linker is busy
    linker: Linker,
    neighbors: seq<set<TxnId>>,
    indegree: seq<int>,
    ready: seq<TxnId>,                // calvin_ready_txns_
    busy: set<TxnId>,                 // held by a worker, from pop to return
    exits: map<TxnId, Exit>,
    returned: seq<TxnId>)             // txn_results_

  datatype Action =
    | Receive                               // scheduler: pop a request, lock its indegree_mutex, reset it
    | TryLock(k: Key, a: TxnId)             // scheduler: try the neighbors_mutex of `a`
    | CheckStatus                           // scheduler: look at the status and neighbours of `a`
    | Link                                  // scheduler: add the edge, unlock
    | Publish                               // scheduler: push if the indegree is zero, unlock
    | Pop                                   // a worker takes the front of the ready queue
    | Step(w: Work)                         // a worker reads, runs the logic or writes
    | Finish(t: TxnId)                      // a worker sets the final status
    | LockOwn(t: TxnId)                     // a worker locks its neighbors_mutex and copies the set
    | GripNext(t: TxnId, b: TxnId)          // a worker locks the indegree_mutex of a neighbour
    | Decrement(t: TxnId)                   // ... decrements it, pushes it at zero, unlocks
    | Return(t: TxnId)                      // a worker returns the result and unlocks its neighbors_mutex

  ghost function Start(c: Config): State {
    State(Initial(c.init, c.txns), 0, Resting, seq(|c.txns|, _ => {}), seq(|c.txns|, _ => 0), [], {}, map[], [])
  }

  ghost predicate Final(s: State, t: TxnId) {
    t < |s.exec.phase| && s.exec.phase[t].Finished?
  }

  ghost predicate Unstarted(s: State, t: TxnId) {
    t < |s.exec.phase| && s.exec.phase[t].Idle?
  }

  /** The worker of `t` holds `neighbors_mutex` of `t`. */
  ghost predicate WorkerHoldsNeighbors(s: State, t: TxnId) {
    t in s.exits && s.exits[t].Releasing?
  }

  ghost predicate SchedulerHoldsNeighbors(s: State, a: TxnId) {
    s.linker.Busy? && !s.linker.probe.NoProbe? && s.linker.probe.a == a
  }

  ghost predicate Grips(s: State, t: TxnId, b: TxnId) {
    t in s.exits && s.exits[t].Releasing? && s.exits[t].grip == Gripping(b)
  }

  ghost predicate IndegreeLocked(s: State, b: TxnId) {
    (s.linker.Busy? && b == s.next) || exists t :: Grips(s, t, b)
  }

  ghost predicate Shaped(c: Config, s: State) {
    && |s.exec.phase| == |c.txns| && |s.neighbors| == |c.txns| && |s.indegree| == |c.txns|
    && s.next <= |c.txns| && (s.linker.Busy? ==> s.next < |c.txns|)
  }

  ghost predicate CanDo(c: Config, s: State, act: Action) {
    && Shaped(c, s)
    && match act
       case Receive => s.linker.Resting? && s.next < |c.txns|
       case TryLock(k, a) => s.linker.Busy? && s.linker.probe.NoProbe? && (k, a) in s.linker.todo
       case CheckStatus => s.linker.Busy? && s.linker.probe.Probing? && s.linker.probe.a < |c.txns|
       case Link => s.linker.Busy? && s.linker.probe.Linking? && s.linker.probe.a < |c.txns|
       case Publish => s.linker.Busy? && s.linker.probe.NoProbe? && s.linker.todo == {}
       case Pop => s.ready != [] && |s.busy| < THREAD_COUNT && Enabled(c.txns, s.exec, Begin(s.ready[0]))
       case Step(w) => !w.Begin? && !w.SetStatus? && w.t in s.busy && Enabled(c.txns, s.exec, w)
       case Finish(t) => t in s.busy && Enabled(c.txns, s.exec, SetStatus(t))
       case LockOwn(t) => t in s.exits && s.exits[t].WantsOwn? && !SchedulerHoldsNeighbors(s, t) && t < |c.txns|
       case GripNext(t, b) =>
         && WorkerHoldsNeighbors(s, t) && s.exits[t].grip.NoGrip? && b in s.exits[t].left
         && !IndegreeLocked(s, b)
       case Decrement(t) =>
         WorkerHoldsNeighbors(s, t) && s.exits[t].grip.Gripping? && s.exits[t].grip.b < |c.txns|
       case Return(t) =>
         WorkerHoldsNeighbors(s, t) && s.exits[t].grip.NoGrip? && s.exits[t].left == {}
  }

  /** The edge to the transaction being linked is still worth adding. */
  ghost predicate Wanted(s: State, a: TxnId)
    requires a < |s.neighbors|
  {
    !Final(s, a) && s.next !in s.neighbors[a]
  }

  ghost function Next(c: Config, s: State, act: Action): State
    requires CanDo(c, s, act)
  {
    match act
    case Receive =>
      s.(linker := Busy(Checks(c.txns, s.next), NoProbe),
         indegree := s.indegree[s.next := 0], neighbors := s.neighbors[s.next := {}])
    case TryLock(k, a) =>
      s.(linker := if WorkerHoldsNeighbors(s, a) then Busy(s.linker.todo - {(k, a)}, NoProbe)
                   else Busy(s.linker.todo, Probing(k, a)))
    case CheckStatus =>
      var p := s.linker.probe;
      s.(linker := if Wanted(s, p.a) then Busy(s.linker.todo, Linking(p.k, p.a))
                   else Busy(s.linker.todo - {(p.k, p.a)}, NoProbe))
    case Link =>
      var p := s.linker.probe;
      s.(linker := Busy(s.linker.todo - {(p.k, p.a)}, NoProbe),
         indegree := s.indegree[s.next := s.indegree[s.next] + 1],
         neighbors := s.neighbors[p.a := s.neighbors[p.a] + {s.next}])
    case Publish =>
      s.(linker := Resting, next := s.next + 1,
         ready := if s.indegree[s.next] == 0 then s.ready + [s.next] else s.ready)
    case Pop =>
      s.(exec := Do(c.txns, s.exec, Begin(s.ready[0])), ready := s.ready[1..], busy := s.busy + {s.ready[0]})
    case Step(w) =>
      s.(exec := Do(c.txns, s.exec, w))
    case Finish(t) =>
      s.(exec := Do(c.txns, s.exec, SetStatus(t)), exits := s.exits[t := WantsOwn])
    case LockOwn(t) =>
      s.(exits := s.exits[t := Releasing(s.neighbors[t], NoGrip)])
    case GripNext(t, b) =>
      s.(exits := s.exits[t := Releasing(s.exits[t].left, Gripping(b))])
    case Decrement(t) =>
      var b := s.exits[t].grip.b;
      s.(exits := s.exits[t := Releasing(s.exits[t].left - {b}, NoGrip)],
         indegree := s.indegree[b := s.indegree[b] - 1],
         ready := if s.indegree[b] == 1 then s.ready + [b] else s.ready)
    case Return(t) =>
      s.(exits := s.exits - {t}, busy := s.busy - {t}, returned := s.returned + [t])
  }

  ghost predicate Leads(c: Config, s: State, acts: seq<Action>, s': State)
    decreases |acts|
  {
    if acts == [] then s == s'
    else CanDo(c, s, acts[0]) && Leads(c, Next(c, s, acts[0]), acts[1..], s')
  }

  ghost predicate Reachable(c: Config, s: State) {
    exists acts :: Leads(c, Start(c), acts, s)
  }

  // ---------- what every step keeps ----------

  /** Linked already, or being linked. */
  ghost predicate Known(s: State, t: TxnId) {
    t < s.next || (s.linker.Busy? && t == s.next)
  }

  ghost predicate EdgeTo(s: State, a: TxnId, b: TxnId) {
    a < |s.neighbors| && b in s.neighbors[a]
  }

  /** The worker of `a` has decremented `b`. */
  ghost predicate Dropped(s: State, a: TxnId, b: TxnId) {
    Final(s, a) && (a in s.exits ==> s.exits[a].Releasing? && b !in s.exits[a].left)
  }

  /** The in-edges of `b` whose source has not decremented it yet. */
  ghost function Pending(s: State, b: TxnId): set<TxnId> {
    set a: TxnId | a < |s.neighbors| && EdgeTo(s, a, b) && !Dropped(s, a, b)
  }

  /** The checks not made yet for `t`. */
  ghost function Todo(s: State, t: TxnId): set<(Key, TxnId)> {
    if s.linker.Busy? && t == s.next then s.linker.todo else {}
  }

  ghost predicate Arrivals(c: Config, s: State)
    requires Shaped(c, s)
  {
    && (forall t: TxnId | s.next <= t < |c.txns| :: Unstarted(s, t))
    && (s.linker.Busy? ==>
          && s.linker.todo <= Checks(c.txns, s.next)
          && (!s.linker.probe.NoProbe? ==> (s.linker.probe.k, s.linker.probe.a) in s.linker.todo))
  }

  ghost predicate WorkersConsistent(c: Config, s: State) {
    && |s.busy| <= THREAD_COUNT
    && (forall t | t in s.busy :: t < |c.txns| && !Unstarted(s, t))
    && (forall t: TxnId | t < |c.txns| && !Unstarted(s, t) && !Final(s, t) :: t in s.busy)
    && (forall t | t in s.exits :: t in s.busy && Final(s, t))
    && (forall t | t in s.busy && Final(s, t) :: t in s.exits)
  }

  ghost predicate ReturnsConsistent(c: Config, s: State) {
    && Distinct(s.returned)
    && forall t: TxnId :: t in s.returned <==> t < |c.txns| && Final(s, t) && t !in s.busy
  }

  /** Who holds which mutex; a copied neighbour set is the neighbour set. */
  ghost predicate LocksConsistent(c: Config, s: State) {
    && (forall a | SchedulerHoldsNeighbors(s, a) :: !WorkerHoldsNeighbors(s, a))
    && (s.linker.Busy? && s.linker.probe.Linking? ==> var a := s.linker.probe.a;
          (Final(s, a) ==> a in s.exits) && !EdgeTo(s, a, s.next))
    && (forall t | WorkerHoldsNeighbors(s, t) ::
          && (forall b | b in s.exits[t].left :: EdgeTo(s, t, b))
          && (forall b | Grips(s, t, b) :: b in s.exits[t].left))
    && (forall t, u, b | Grips(s, t, b) && Grips(s, u, b) :: t == u)
    && (forall t, b | Grips(s, t, b) :: !(s.linker.Busy? && b == s.next))
  }

  ghost predicate EdgesConsistent(c: Config, s: State)
    requires Shaped(c, s)
  {
    && (forall a: TxnId, b: TxnId | EdgeTo(s, a, b) :: Known(s, b) && b < |c.txns| && a in GraphOf(c)[b])
    && (forall b: TxnId, k: Key, a: TxnId | Known(s, b) && b < |c.txns| && (k, a) in Checks(c.txns, b) - Todo(s, b) ::
          Final(s, a) || EdgeTo(s, a, b))
  }

  ghost predicate DegreesConsistent(c: Config, s: State)
    requires Shaped(c, s)
  {
    forall b: TxnId | Known(s, b) :: s.indegree[b] == |Pending(s, b)|
  }

  /** A linked transaction with indegree zero is queued or started; nothing is queued twice. */
  ghost predicate ReadyConsistent(c: Config, s: State)
    requires Shaped(c, s)
  {
    && Distinct(s.ready)
    && (forall b: TxnId | b in s.ready :: b < s.next && Unstarted(s, b))
    && (forall b: TxnId | b < s.next :: s.indegree[b] == 0 <==> b in s.ready || !Unstarted(s, b))
  }

  ghost predicate Consistent(c: Config, s: State) {
    && ValidConfig(c)
    && Shaped(c, s)
    && Arrivals(c, s)
    && WorkersConsistent(c, s)
    && ReturnsConsistent(c, s)
    && LocksConsistent(c, s)
    && EdgesConsistent(c, s)
    && DegreesConsistent(c, s)
    && ReadyConsistent(c, s)
  }
}
