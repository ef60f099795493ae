/**
 The locking scheduler as a step machine, and what its steps keep.

 One scheduler thread admits transactions in arrival order, requesting all
 their locks at once, hands ready ones to a thread pool, and processes the
 completed ones: apply the writes, release the locks, return the result.
 Worker threads read and run the logic in between, at any pace.

 All requests are made in arrival order, so every queue is the list of the
 unfinished admitted transactions that declare its key, in arrival order.  From
 that and the exact counts it follows that a transaction without blockers has
 its earlier conflicts behind it, that the oldest one never waits, and that the
 ready list holds exactly the admitted transactions that may start.
 */
module LockingScheduler {
  import opened Transactions
  import opened Execution
  import opened Iteration
  import opened LockTables
  import opened LockBatches

  /** `readMode` is SHARED for the shared/exclusive manager and EXCLUSIVE for the exclusive-only one. */
  datatype Config = Config(init: Store, txns: seq<Txn>, readMode: LockMode)

  ghost predicate ValidConfig(c: Config) {
    WellFormed(c.txns) && c.readMode != UNLOCKED
  }

  datatype Slot = Free | Held(t: TxnId)

  datatype State = State(
    exec: Exec,
    locks: Locks,
    admitted: nat,             // how many requests were popped
    completed: seq<TxnId>,     // completed_txns_
    applying: Slot,            // the completed transaction the scheduler is processing
    returned: seq<TxnId>)      // txn_results_

  datatype Action =
    | Admit(readOrder: seq<Key>, writeOrder: seq<Key>)   // request all locks of the next transaction
    | Launch                                             // front of the ready list to the thread pool
    | Read(t: TxnId, k: Key)                             // a worker reads a key
    | Run(t: TxnId)                                      // a worker runs the logic and reports completion
    | Take                                               // scheduler: next completed transaction
    | Apply(k: Key)                                      // scheduler: apply one of its writes
    | Finish(readOrder: seq<Key>, writeOrder: seq<Key>)  // scheduler: status, release all locks, return

  ghost function Start(c: Config): State {
    State(Initial(c.init, c.txns), NO_LOCKS, 0, [], Free, [])
  }

  ghost predicate CanDo(c: Config, s: State, act: Action) {
    match act
    case Admit(readOrder, writeOrder) =>
      && s.applying.Free? && s.admitted < |c.txns|
      && Enumerates(readOrder, c.txns[s.admitted].readset)
      && Enumerates(writeOrder, c.txns[s.admitted].writeset)
    case Launch =>
      s.applying.Free? && s.locks.ready != [] && Enabled(c.txns, s.exec, Begin(s.locks.ready[0]))
    case Read(t, k) => Enabled(c.txns, s.exec, ReadKey(t, k))
    case Run(t) => Enabled(c.txns, s.exec, RunLogic(t))
    case Take => s.applying.Free? && s.completed != []
    case Apply(k) => s.applying.Held? && Enabled(c.txns, s.exec, WriteKey(s.applying.t, k))
    case Finish(readOrder, writeOrder) =>
      && s.applying.Held? && Enabled(c.txns, s.exec, SetStatus(s.applying.t))
      && Enumerates(readOrder, c.txns[s.applying.t].readset)
      && Enumerates(writeOrder, c.txns[s.applying.t].writeset)
  }

  ghost function AdmitLocks(c: Config, s: State, act: Action): Locks
    requires CanDo(c, s, act) && act.Admit?
  {
    var b := RequestBoth(s.locks, s.admitted, act.readOrder, act.writeOrder, c.readMode);
    if b.blocked then b.locks else b.locks.(ready := b.locks.ready + [s.admitted])
  }

  ghost function FinishLocks(s: State, act: Action): Locks
    requires act.Finish? && s.applying.Held?
  {
    ReleaseAll(ReleaseAll(s.locks, s.applying.t, act.readOrder), s.applying.t, act.writeOrder)
  }

  ghost function Next(c: Config, s: State, act: Action): State
    requires CanDo(c, s, act)
  {
    match act
    case Admit(_, _) =>
      s.(locks := AdmitLocks(c, s, act), admitted := s.admitted + 1)
    case Launch =>
      s.(exec := Do(c.txns, s.exec, Begin(s.locks.ready[0])), locks := s.locks.(ready := s.locks.ready[1..]))
    case Read(t, k) =>
      s.(exec := Do(c.txns, s.exec, ReadKey(t, k)))
    case Run(t) =>
      s.(exec := Do(c.txns, s.exec, RunLogic(t)), completed := s.completed + [t])
    case Take =>
      s.(applying := Held(s.completed[0]), completed := s.completed[1..])
    case Apply(k) =>
      s.(exec := Do(c.txns, s.exec, WriteKey(s.applying.t, k)))
    case Finish(_, _) =>
      s.(exec := Do(c.txns, s.exec, SetStatus(s.applying.t)), locks := FinishLocks(s, act),
         applying := Free, returned := s.returned + [s.applying.t])
  }

  ghost predicate Leads(c: Config, s: State, acts: seq<Action>, s': State)
    decreases |acts|
  {
    if acts == [] then s == s'
    else CanDo(c, s, acts[0]) && Leads(c, Next(c, s, acts[0]), acts[1..], s')
  }

  ghost predicate Reachable(c: Config, s: State) {
    exists acts :: Leads(c, Start(c), acts, s)
  }

  // ---------- what every step keeps ----------

  /** Admitted and not yet final: the transactions that have requests in the table. */
  ghost predicate Active(s: State, t: TxnId) {
    t < s.admitted && t < |s.exec.phase| && !s.exec.phase[t].Finished?
  }

  /** What `t` asks for under `k`: the read lock first; both if it declares the key in both sets. */
  ghost function RequestsOf(c: Config, t: TxnId, k: Key): Queue
    requires t < |c.txns|
  {
    (if k in c.txns[t].readset then [LockRequest(c.readMode, t)] else [])
    + if k in c.txns[t].writeset then [LockRequest(EXCLUSIVE, t)] else []
  }

  ghost predicate Queued(c: Config, s: State, t: TxnId, k: Key) {
    t < |c.txns| && Active(s, t) && k in c.txns[t].Footprint()
  }

  /** The queue of `k` when it holds the requests of every active transaction, in arrival order. */
  ghost function ArrivalQueue(c: Config, s: State, k: Key, m: nat): Queue
    requires m <= |c.txns|
  {
    if m == 0 then []
    else
      var front := ArrivalQueue(c, s, k, m - 1);
      if Queued(c, s, m - 1, k) then front + RequestsOf(c, m - 1, k) else front
  }

  ghost predicate QueuesInArrivalOrder(c: Config, s: State) {
    forall k: Key :: QueueAt(s.locks.table, k) == ArrivalQueue(c, s, k, |c.txns|)
  }

  ghost predicate Bounds(c: Config, s: State) {
    && |s.exec.phase| == |c.txns| && s.admitted <= |c.txns|
    && forall t: TxnId | s.admitted <= t < |c.txns| :: s.exec.phase[t].Idle?
  }

  /** Ready or started means: no blockers left. */
  ghost predicate ReadyConsistent(c: Config, s: State)
    requires Bounds(c, s)
  {
    && Distinct(s.locks.ready)
    && (forall t: TxnId | t in s.locks.ready :: Active(s, t) && s.exec.phase[t].Idle?)
    && (forall t: TxnId | Active(s, t) ::
          TotalBlockers(s.locks, t) == 0 <==> t in s.locks.ready || !s.exec.phase[t].Idle?)
  }

  /** A transaction that declares a key in both sets never gets past its own first request. */
  ghost predicate StartedAreDisjoint(c: Config, s: State)
    requires Bounds(c, s)
  {
    forall t: TxnId | t < |c.txns| && !s.exec.phase[t].Idle? :: c.txns[t].Disjoint()
  }

  ghost predicate Completing(s: State, t: TxnId) {
    t in s.completed || s.applying == Held(t)
  }

  ghost predicate CompletionsConsistent(c: Config, s: State)
    requires Bounds(c, s)
  {
    && Distinct(s.completed) && Distinct(s.returned)
    && (s.applying.Held? ==> s.applying.t !in s.completed)
    && (forall t: TxnId :: Completing(s, t) <==> t < |c.txns| && s.exec.phase[t].Writing?)
    && (forall t: TxnId :: t in s.returned <==> t < |c.txns| && s.exec.phase[t].Finished?)
  }

  ghost predicate Consistent(c: Config, s: State) {
    && ValidConfig(c)
    && Bounds(c, s)
    && QueuesInArrivalOrder(c, s)
    && CountsExact(s.locks, {})
    && ReadyConsistent(c, s)
    && StartedAreDisjoint(c, s)
    && CompletionsConsistent(c, s)
  }

  // ---------- arrival queues ----------

  lemma {:induction false} EmptyArrivalQueue(c: Config, s: State, k: Key, m: nat)
    requires m <= |c.txns| && forall t: TxnId | t < m :: !Queued(c, s, t, k)
    ensures ArrivalQueue(c, s, k, m) == []
  {
    if m > 0 { EmptyArrivalQueue(c, s, k, m - 1); }
  }

  lemma {:induction false} SameArrivalQueue(c: Config, s: State, s': State, k: Key, m: nat)
    requires m <= |c.txns| && forall t: TxnId | t < m :: Queued(c, s, t, k) == Queued(c, s', t, k)
    ensures ArrivalQueue(c, s, k, m) == ArrivalQueue(c, s', k, m)
  {
    if m > 0 { SameArrivalQueue(c, s, s', k, m - 1); }
  }

  /** Every request in the arrival queue belongs to an active transaction. */
  lemma {:induction false} ArrivalQueueMembers(c: Config, s: State, k: Key, m: nat)
    requires m <= |c.txns|
    ensures forall i | 0 <= i < |ArrivalQueue(c, s, k, m)| ::
              var r := ArrivalQueue(c, s, k, m)[i]; r.txn < m && Queued(c, s, r.txn, k)
  {
    if m > 0 { ArrivalQueueMembers(c, s, k, m - 1); }
  }

  /** `t` asks for an exclusive lock on `k`. */
  ghost predicate Excludes(c: Config, t: TxnId, k: Key) {
    t < |c.txns| && (k in c.txns[t].writeset || (k in c.txns[t].readset && c.readMode == EXCLUSIVE))
  }

  /** Others keep their blockers; the requests of `t` stand behind the whole queue. */
  ghost predicate Grown(c: Config, q: Queue, q': Queue, t: TxnId, k: Key, u: TxnId)
    requires t < |c.txns|
  {
    && |q'| > |q| && CountExclusive(q') >= CountExclusive(q) && Blockers(q', u) >= Blockers(q, u)
    && (u != t ==> Blockers(q', u) == Blockers(q, u))
    && (Excludes(c, t, k) ==> CountExclusive(q') > 0)
    && (k in c.txns[t].writeset ==> Blockers(q', t) >= |q'| - 1)
    && (k in c.txns[t].readset ==> Blockers(q', t) >= AheadOf(q, c.readMode))
    && (k in c.txns[t].readset && k in c.txns[t].writeset ==> |q'| > 1)
  }

  lemma OneRequest(c: Config, q: Queue, t: TxnId, k: Key, r: LockRequest, u: TxnId)
    requires t < |c.txns| && !(k in c.txns[t].readset && k in c.txns[t].writeset) && RequestsOf(c, t, k) == [r]
    ensures Grown(c, q, q + [r], t, k, u)
    ensures Blockers(q + [r], t) == Blockers(q, t) + AheadOf(q, r.mode)
  {
    RequestAppends(q, r, u);
    RequestAppends(q, r, t);
    ExclusiveAppends(q, r);
  }

  lemma TwoRequests(c: Config, q: Queue, t: TxnId, k: Key, u: TxnId)
    requires t < |c.txns| && k in c.txns[t].readset && k in c.txns[t].writeset
    ensures Grown(c, q, q + RequestsOf(c, t, k), t, k, u)
  {
    var r, w := LockRequest(c.readMode, t), LockRequest(EXCLUSIVE, t);
    var mid := q + [r];
    assert q + RequestsOf(c, t, k) == mid + [w];
    RequestAppends(q, r, u);
    RequestAppends(q, r, t);
    ExclusiveAppends(q, r);
    RequestAppends(mid, w, u);
    RequestAppends(mid, w, t);
    ExclusiveAppends(mid, w);
  }

  lemma RequestsAppend(c: Config, q: Queue, t: TxnId, k: Key, u: TxnId)
    requires t < |c.txns| && k in c.txns[t].Footprint()
    ensures Grown(c, q, q + RequestsOf(c, t, k), t, k, u)
  {
    if k in c.txns[t].readset && k in c.txns[t].writeset {
      TwoRequests(c, q, t, k, u);
    } else {
      SingleRequest(c, t, k);
      OneRequest(c, q, t, k, RequestsOf(c, t, k)[0], u);
    }
  }

  lemma SingleRequest(c: Config, t: TxnId, k: Key)
    requires t < |c.txns| && k in c.txns[t].Footprint() && !(k in c.txns[t].readset && k in c.txns[t].writeset)
    ensures |RequestsOf(c, t, k)| == 1 && RequestsOf(c, t, k) == [RequestsOf(c, t, k)[0]]
    ensures RequestsOf(c, t, k)[0].txn == t
  {
  }

  /** The queue at the time of the next transaction, in terms of the queue before it. */
  lemma ArrivalStep(c: Config, s: State, k: Key, m: nat, u: TxnId)
    requires 0 < m <= |c.txns|
    ensures var q, q' := ArrivalQueue(c, s, k, m - 1), ArrivalQueue(c, s, k, m);
            if Queued(c, s, m - 1, k) then Grown(c, q, q', m - 1, k, u) else q' == q
  {
    if Queued(c, s, m - 1, k) {
      RequestsAppend(c, ArrivalQueue(c, s, k, m - 1), m - 1, k, u);
    }
  }

  /** An earlier active transaction is in the queue, and counted there if it is exclusive. */
  lemma {:induction false} EarlierCounts(c: Config, s: State, k: Key, j: TxnId, m: nat)
    requires j < m <= |c.txns| && Queued(c, s, j, k)
    ensures |ArrivalQueue(c, s, k, m)| > 0
    ensures Excludes(c, j, k) ==> CountExclusive(ArrivalQueue(c, s, k, m)) > 0
  {
    ArrivalStep(c, s, k, m, j);
    if j < m - 1 { EarlierCounts(c, s, k, j, m - 1); }
  }

  lemma {:induction false} EarlierBlocks(c: Config, s: State, k: Key, j: TxnId, t: TxnId, m: nat)
    requires j < t < m <= |c.txns| && Queued(c, s, j, k) && Queued(c, s, t, k)
    requires k in c.txns[j].writeset || k in c.txns[t].writeset
    ensures Blockers(ArrivalQueue(c, s, k, m), t) > 0
  {
    ArrivalStep(c, s, k, m, t);
    if t == m - 1 {
      ExclusiveWithin(ArrivalQueue(c, s, k, m - 1));
      EarlierCounts(c, s, k, j, m - 1);
    } else {
      EarlierBlocks(c, s, k, j, t, m - 1);
    }
  }

  /** An overlapping transaction stands behind its own first request. */
  lemma {:induction false} OverlapBlocks(c: Config, s: State, k: Key, t: TxnId, m: nat)
    requires t < m <= |c.txns| && Queued(c, s, t, k)
    requires k in c.txns[t].readset && k in c.txns[t].writeset
    ensures Blockers(ArrivalQueue(c, s, k, m), t) > 0
  {
    ArrivalStep(c, s, k, m, t);
    if t < m - 1 { OverlapBlocks(c, s, k, t, m - 1); }
  }

  /** Nothing blocks the oldest active transaction, unless it blocks itself. */
  lemma {:induction false} OldestUnblocked(c: Config, s: State, k: Key, t: TxnId, m: nat)
    requires m <= |c.txns| && forall j: TxnId | j < t :: !Active(s, j)
    requires t < |c.txns| && c.txns[t].Disjoint()
    ensures Blockers(ArrivalQueue(c, s, k, m), t) == 0
  {
    if m > 0 {
      OldestUnblocked(c, s, k, t, m - 1);
      ArrivalStep(c, s, k, m, t);
      if t == m - 1 && Queued(c, s, t, k) {
        EmptyArrivalQueue(c, s, k, t);
        SingleRequest(c, t, k);
        OneRequest(c, [], t, k, RequestsOf(c, t, k)[0], t);
      }
    }
  }

  lemma NotInArrivalQueue(c: Config, s: State, k: Key, t: TxnId, m: nat)
    requires m <= |c.txns| && m <= t
    ensures Position(ArrivalQueue(c, s, k, m), t) == |ArrivalQueue(c, s, k, m)|
  {
    ArrivalQueueMembers(c, s, k, m);
  }

  lemma LeftKeepsOthers(c: Config, q: Queue, u: TxnId, k: Key, t: TxnId)
    requires u < |c.txns| && u != t
    ensures Left(q + RequestsOf(c, u, k), t) == Left(q, t) + RequestsOf(c, u, k)
  {
    var r, w := LockRequest(c.readMode, u), LockRequest(EXCLUSIVE, u);
    if k in c.txns[u].readset && k in c.txns[u].writeset {
      LeftAppend(q, r, t);
      LeftAppend(q + [r], w, t);
      assert q + RequestsOf(c, u, k) == (q + [r]) + [w];
      assert Left(q, t) + RequestsOf(c, u, k) == (Left(q, t) + [r]) + [w];
    } else if k in c.txns[u].writeset {
      LeftAppend(q, w, t);
      assert RequestsOf(c, u, k) == [w];
    } else if k in c.txns[u].readset {
      LeftAppend(q, r, t);
      assert RequestsOf(c, u, k) == [r];
    } else {
      assert q + RequestsOf(c, u, k) == q && Left(q, t) + RequestsOf(c, u, k) == Left(q, t);
    }
  }

  lemma LeftDropsOwn(c: Config, q: Queue, t: TxnId, k: Key)
    requires t < |c.txns| && c.txns[t].Disjoint() && k in c.txns[t].Footprint() && Position(q, t) == |q|
    ensures Left(q + RequestsOf(c, t, k), t) == Left(q, t)
  {
    SingleRequest(c, t, k);
    LeftAppend(q, RequestsOf(c, t, k)[0], t);
  }

  /** Taking `t` out of the active transactions takes its one request out of the queue. */
  lemma {:induction false} ArrivalQueueWithout(c: Config, s: State, s': State, k: Key, t: TxnId, m: nat)
    requires m <= |c.txns| && !Queued(c, s', t, k) && t < |c.txns| && c.txns[t].Disjoint()
    requires forall u: TxnId | u != t :: Queued(c, s, u, k) == Queued(c, s', u, k)
    ensures ArrivalQueue(c, s', k, m) == Left(ArrivalQueue(c, s, k, m), t)
  {
    if m > 0 {
      ArrivalQueueWithout(c, s, s', k, t, m - 1);
      if m - 1 == t {
        WithoutAtOwn(c, s, s', k, t);
      } else {
        WithoutAtOther(c, s, s', k, t, m);
      }
    }
  }

  lemma WithoutAtOwn(c: Config, s: State, s': State, k: Key, t: TxnId)
    requires t < |c.txns| && c.txns[t].Disjoint() && !Queued(c, s', t, k)
    requires ArrivalQueue(c, s', k, t) == Left(ArrivalQueue(c, s, k, t), t)
    ensures ArrivalQueue(c, s', k, t + 1) == Left(ArrivalQueue(c, s, k, t + 1), t)
  {
    var front := ArrivalQueue(c, s, k, t);
    if Queued(c, s, t, k) {
      NotInArrivalQueue(c, s, k, t, t);
      LeftDropsOwn(c, front, t, k);
      assert ArrivalQueue(c, s, k, t + 1) == front + RequestsOf(c, t, k);
    }
  }

  lemma WithoutAtOther(c: Config, s: State, s': State, k: Key, t: TxnId, m: nat)
    requires 0 < m <= |c.txns| && m - 1 != t && Queued(c, s, m - 1, k) == Queued(c, s', m - 1, k)
    requires ArrivalQueue(c, s', k, m - 1) == Left(ArrivalQueue(c, s, k, m - 1), t)
    ensures ArrivalQueue(c, s', k, m) == Left(ArrivalQueue(c, s, k, m), t)
  {
    var front := ArrivalQueue(c, s, k, m - 1);
    if Queued(c, s, m - 1, k) {
      LeftKeepsOthers(c, front, m - 1, k, t);
      assert ArrivalQueue(c, s, k, m) == front + RequestsOf(c, m - 1, k);
      assert ArrivalQueue(c, s', k, m) == Left(front, t) + RequestsOf(c, m - 1, k);
    }
  }

  // ---------- totals ----------

  lemma {:induction false} ZeroParts(table: map<Key, Queue>, keys: set<Key>, t: TxnId)
    ensures BlockersIn(table, keys, t) == 0 <==> forall k | k in keys :: Blockers(QueueAt(table, k), t) == 0
  {
    if keys != {} {
      var k :| k in keys;
      SplitKey(table, keys, k, t);
      ZeroParts(table, keys - {k}, t);
      assert forall x | x in keys :: x == k || x in keys - {k};
    }
  }

  lemma ZeroTotal(l: Locks, t: TxnId)
    ensures TotalBlockers(l, t) == 0 <==> forall k: Key :: Blockers(QueueAt(l.table, k), t) == 0
  {
    ZeroParts(l.table, l.table.Keys, t);
    assert forall k: Key | k !in l.table :: Blockers(QueueAt(l.table, k), t) == 0;
  }

  // ---------- admission ----------

  ghost predicate CanAdmit(c: Config, s: State, act: Action) {
    Consistent(c, s) && act.Admit? && CanDo(c, s, act)
  }

  lemma {:induction false} ArrivalQueueAdmits(c: Config, s: State, s': State, k: Key, m: nat)
    requires Bounds(c, s) && s.admitted < m <= |c.txns|
    requires s'.exec == s.exec && s'.admitted == s.admitted + 1
    ensures ArrivalQueue(c, s', k, m) == ArrivalQueue(c, s, k, m)
            + RequestsOf(c, s.admitted, k)
  {
    if s.admitted == m - 1 {
      SameArrivalQueue(c, s, s', k, m - 1);
    } else {
      ArrivalQueueAdmits(c, s, s', k, m - 1);
    }
  }

  /** The requests go where arrival order puts them. */
  lemma AdmitKeepsQueues(c: Config, s: State, act: Action)
    requires CanAdmit(c, s, act)
    ensures QueuesInArrivalOrder(c, Next(c, s, act))
  {
    var s', t := Next(c, s, act), s.admitted;
    var b0 := Batch(s.locks, false);
    forall k: Key ensures QueueAt(s'.locks.table, k) == ArrivalQueue(c, s', k, |c.txns|) {
      RequestAllQueues(b0, t, act.readOrder, c.readMode, k);
      RequestAllQueues(RequestAll(b0, t, act.readOrder, c.readMode), t, act.writeOrder, EXCLUSIVE, k);
      ArrivalQueueAdmits(c, s, s', k, |c.txns|);
    }
  }

  lemma NotYetRequested(c: Config, s: State, t: TxnId, k: Key)
    requires Consistent(c, s) && !Active(s, t)
    ensures !HasRequest(QueueAt(s.locks.table, k), t)
  {
    ArrivalQueueMembers(c, s, k, |c.txns|);
  }

  lemma AdmitCounts(c: Config, s: State, act: Action)
    requires CanAdmit(c, s, act)
    ensures var b := RequestBoth(s.locks, s.admitted, act.readOrder, act.writeOrder, c.readMode);
            && CountsExact(b.locks, {}) && b.locks.ready == s.locks.ready
            && (b.blocked <==> TotalBlockers(b.locks, s.admitted) > 0)
            && forall u: TxnId | u != s.admitted :: TotalBlockers(b.locks, u) == TotalBlockers(s.locks, u)
  {
    var t, b0 := s.admitted, Batch(s.locks, false);
    var mid := RequestAll(b0, t, act.readOrder, c.readMode);
    forall k: Key ensures !HasRequest(QueueAt(s.locks.table, k), t) && Blockers(QueueAt(s.locks.table, k), t) == 0 {
      NotYetRequested(c, s, t, k);
      NoRequestNoBlockers(QueueAt(s.locks.table, k), t);
    }
    ZeroTotal(s.locks, t);
    RequestAllCounts(b0, t, act.readOrder, c.readMode);
    RequestAllCounts(mid, t, act.writeOrder, EXCLUSIVE);
    RequestAllQueues(b0, t, act.readOrder, c.readMode, 0);
    RequestAllQueues(mid, t, act.writeOrder, EXCLUSIVE, 0);
    forall u: TxnId | u != t
      ensures TotalBlockers(RequestAll(mid, t, act.writeOrder, EXCLUSIVE).locks, u) == TotalBlockers(s.locks, u)
    {
      RequestAllOthers(b0, t, act.readOrder, c.readMode, u);
      RequestAllOthers(mid, t, act.writeOrder, EXCLUSIVE, u);
    }
  }

  lemma ReadyListIrrelevant(l: Locks, ready: seq<TxnId>)
    ensures CountsExact(l.(ready := ready), {}) <==> CountsExact(l, {})
    ensures forall t :: TotalBlockers(l.(ready := ready), t) == TotalBlockers(l, t)
  {
    forall t: TxnId ensures Exact(l.(ready := ready), t) <==> Exact(l, t) {}
  }

  lemma AdmitKeepsReady(c: Config, s: State, act: Action)
    requires CanAdmit(c, s, act)
    ensures CountsExact(Next(c, s, act).locks, {})
    ensures ReadyConsistent(c, Next(c, s, act))
  {
    var s' := Next(c, s, act);
    var b := RequestBoth(s.locks, s.admitted, act.readOrder, act.writeOrder, c.readMode);
    AdmitCounts(c, s, act);
    ReadyListIrrelevant(b.locks, s'.locks.ready);
    assert s.admitted !in s.locks.ready;
    forall t: TxnId | Active(s', t)
      ensures TotalBlockers(s'.locks, t) == 0 <==> t in s'.locks.ready || !s'.exec.phase[t].Idle?
    {
      assert t != s.admitted ==> Active(s, t);
    }
  }

  // ---------- completion ----------

  ghost predicate CanFinish(c: Config, s: State, act: Action) {
    Consistent(c, s) && act.Finish? && CanDo(c, s, act)
  }

  lemma FinishKeepsQueues(c: Config, s: State, act: Action)
    requires CanFinish(c, s, act)
    ensures QueuesInArrivalOrder(c, Next(c, s, act))
  {
    var s', t := Next(c, s, act), s.applying.t;
    forall k: Key ensures QueueAt(s'.locks.table, k) == ArrivalQueue(c, s', k, |c.txns|) {
      ReleaseAllQueues(s.locks, t, act.readOrder, k);
      ReleaseAllQueues(ReleaseAll(s.locks, t, act.readOrder), t, act.writeOrder, k);
      ArrivalQueueWithout(c, s, s', k, t, |c.txns|);
      assert c.txns[t].Disjoint();
      if k !in c.txns[t].Footprint() {
        SameArrivalQueue(c, s, s', k, |c.txns|);
      }
    }
  }

  /** A started transaction holds all its locks. */
  lemma StartedHolds(c: Config, s: State, t: TxnId, order: seq<Key>)
    requires Consistent(c, s) && Active(s, t) && !s.exec.phase[t].Idle?
    ensures Holding(s.locks, t, order)
  {
    ZeroTotal(s.locks, t);
  }

  /** Everything `FinishCounts` needs to know about a lock table from which `t` is about to release. */
  ghost predicate Releasable(l: Locks, t: TxnId, order: seq<Key>) {
    && Distinct(order) && Holding(l, t, order) && CountsExact(l, {})
    && Distinct(l.ready) && t !in l.ready
    && forall u | u in l.ready :: TotalBlockers(l, u) == 0
  }

  lemma BatchReleased(l: Locks, t: TxnId, order: seq<Key>)
    requires Releasable(l, t, order)
    ensures var l' := ReleaseAll(l, t, order);
            && CountsExact(l', {}) && Distinct(l'.ready) && t !in l'.ready
            && (forall u: TxnId | u != t :: WakesExactly(l, l', u))
            && (forall u | u in l'.ready :: TotalBlockers(l', u) == 0)
  {
    ReleaseAllCounts(l, t, order);
    ReleaseAllDistinct(l, t, order);
    forall u: TxnId | u != t ensures WakesExactly(l, ReleaseAll(l, t, order), u) {
      ReleaseAllWakes(l, t, order, u);
    }
    forall u | u in ReleaseAll(l, t, order).ready ensures TotalBlockers(ReleaseAll(l, t, order), u) == 0 {
      assert WakesExactly(l, ReleaseAll(l, t, order), u);
    }
  }

  lemma ReadsReleased(c: Config, s: State, act: Action)
    requires CanFinish(c, s, act)
    ensures Releasable(s.locks, s.applying.t, act.readOrder)
    ensures Releasable(ReleaseAll(s.locks, s.applying.t, act.readOrder), s.applying.t, act.writeOrder)
  {
    var t := s.applying.t;
    var mid := ReleaseAll(s.locks, t, act.readOrder);
    assert Active(s, t) && Completing(s, t);
    StartedHolds(c, s, t, act.readOrder);
    StartedHolds(c, s, t, act.writeOrder);
    BatchReleased(s.locks, t, act.readOrder);
    forall k | k in act.writeOrder ensures Blockers(QueueAt(mid.table, k), t) == 0 {
      ReleaseAllQueues(s.locks, t, act.readOrder, k);
      assert c.txns[t].Disjoint() && k !in act.readOrder;
    }
  }

  lemma FinishCounts(c: Config, s: State, act: Action)
    requires CanFinish(c, s, act)
    ensures var l' := FinishLocks(s, act);
            && CountsExact(l', {}) && Distinct(l'.ready) && s.applying.t !in l'.ready
            && forall u: TxnId | u != s.applying.t :: WakesExactly(s.locks, l', u)
  {
    var t := s.applying.t;
    var mid := ReleaseAll(s.locks, t, act.readOrder);
    ReadsReleased(c, s, act);
    BatchReleased(s.locks, t, act.readOrder);
    BatchReleased(mid, t, act.writeOrder);
    forall u: TxnId | u != t ensures WakesExactly(s.locks, FinishLocks(s, act), u) {
      assert WakesExactly(s.locks, mid, u) && WakesExactly(mid, FinishLocks(s, act), u);
    }
  }

  lemma FinishKeepsReady(c: Config, s: State, act: Action)
    requires CanFinish(c, s, act)
    ensures CountsExact(Next(c, s, act).locks, {})
    ensures ReadyConsistent(c, Next(c, s, act))
  {
    var s', t := Next(c, s, act), s.applying.t;
    FinishCounts(c, s, act);
    forall u: TxnId | u in s'.locks.ready ensures Active(s', u) && s'.exec.phase[u].Idle? {
      assert WakesExactly(s.locks, s'.locks, u);
      if u !in s.locks.ready {
        WaitingIsActive(c, s, u);
      }
    }
    forall u: TxnId | Active(s', u)
      ensures TotalBlockers(s'.locks, u) == 0 <==> u in s'.locks.ready || !s'.exec.phase[u].Idle?
    {
      assert Active(s, u) && WakesExactly(s.locks, s'.locks, u);
    }
  }

  /** Only admitted, unstarted transactions have blockers. */
  lemma WaitingIsActive(c: Config, s: State, u: TxnId)
    requires Consistent(c, s) && TotalBlockers(s.locks, u) > 0
    ensures Active(s, u) && s.exec.phase[u].Idle?
  {
    ZeroTotal(s.locks, u);
    var k: Key :| Blockers(QueueAt(s.locks.table, k), u) > 0;
    if !Active(s, u) {
      NotYetRequested(c, s, u, k);
      NoRequestNoBlockers(QueueAt(s.locks.table, k), u);
    }
  }

  // ---------- the other steps ----------

  ghost predicate LeavesTable(act: Action) {
    !act.Admit? && !act.Finish?
  }

  lemma OthersKeepQueues(c: Config, s: State, act: Action)
    requires Consistent(c, s) && CanDo(c, s, act) && LeavesTable(act)
    ensures QueuesInArrivalOrder(c, Next(c, s, act))
    ensures CountsExact(Next(c, s, act).locks, {})
  {
    var s' := Next(c, s, act);
    forall k: Key ensures QueueAt(s'.locks.table, k) == ArrivalQueue(c, s', k, |c.txns|) {
      SameArrivalQueue(c, s, s', k, |c.txns|);
    }
    ReadyListIrrelevant(s.locks, s'.locks.ready);
  }

  lemma OthersKeepReady(c: Config, s: State, act: Action)
    requires Consistent(c, s) && CanDo(c, s, act) && LeavesTable(act)
    ensures ReadyConsistent(c, Next(c, s, act))
  {
    var s' := Next(c, s, act);
    ReadyListIrrelevant(s.locks, s'.locks.ready);
    if act.Launch? {
      TailDistinct(s.locks.ready);
    }
    forall t: TxnId | Active(s', t)
      ensures TotalBlockers(s'.locks, t) == 0 <==> t in s'.locks.ready || !s'.exec.phase[t].Idle?
    {
      assert Active(s, t);
    }
  }

  lemma CompletionsKept(c: Config, s: State, act: Action)
    requires Consistent(c, s) && CanDo(c, s, act)
    requires Bounds(c, Next(c, s, act))
    ensures CompletionsConsistent(c, Next(c, s, act))
  {
    var s' := Next(c, s, act);
    if act.Take? {
      TailDistinct(s.completed);
    }
    if act.Run? {
      assert !Completing(s, act.t);
    }
    if act.Finish? || act.Apply? {
      assert Completing(s, s.applying.t);
    }
    forall t: TxnId ensures Completing(s', t) <==> t < |c.txns| && s'.exec.phase[t].Writing? {
      assert Completing(s, t) <==> t < |c.txns| && s.exec.phase[t].Writing?;
    }
    forall t: TxnId ensures t in s'.returned <==> t < |c.txns| && s'.exec.phase[t].Finished? {
      assert t in s.returned <==> t < |c.txns| && s.exec.phase[t].Finished?;
    }
  }

  lemma ConsistentKept(c: Config, s: State, act: Action)
    requires Consistent(c, s) && CanDo(c, s, act)
    ensures Consistent(c, Next(c, s, act))
  {
    if act.Launch? {
      assert Active(s, s.locks.ready[0]);
      ReadyIsDisjoint(c, s, s.locks.ready[0]);
    }
    if act.Admit? {
      AdmitKeepsQueues(c, s, act);
      AdmitKeepsReady(c, s, act);
    } else if act.Finish? {
      FinishKeepsQueues(c, s, act);
      FinishKeepsReady(c, s, act);
    } else {
      OthersKeepQueues(c, s, act);
      OthersKeepReady(c, s, act);
    }
    CompletionsKept(c, s, act);
  }

  /** Nobody with blockers is ready, so nobody who declares a key in both sets. */
  lemma ReadyIsDisjoint(c: Config, s: State, t: TxnId)
    requires Consistent(c, s) && Active(s, t) && TotalBlockers(s.locks, t) == 0
    ensures c.txns[t].Disjoint()
  {
    ZeroTotal(s.locks, t);
    forall k | k in c.txns[t].readset && k in c.txns[t].writeset ensures Blockers(QueueAt(s.locks.table, k), t) > 0 {
      OverlapBlocks(c, s, k, t, |c.txns|);
    }
  }

  lemma StartConsistent(c: Config)
    requires ValidConfig(c)
    ensures Consistent(c, Start(c))
  {
    var s := Start(c);
    forall k: Key ensures QueueAt(s.locks.table, k) == ArrivalQueue(c, s, k, |c.txns|) {
      EmptyArrivalQueue(c, s, k, |c.txns|);
    }
    assert forall t: TxnId :: !Active(s, t);
  }
}
