/**
 Continuous scheduling with two global locks.

 The scheduler links a request, and a worker that is through decrements its
 neighbours, each while holding `adj_list_lock` and `indegree_lock`.  Statuses
 change outside the locks, so an edge is skipped as soon as its source has
 run, whether or not its writes have been applied.

 A request is checked against what it finds in the scheduler's two tables: the
 readers of a key since its last writer, and that writer.  A writer and the
 previous writer of a key are compared as well, but what this adds goes into
 fields which the worker of this scheduler never reads; it is no part of the
 machine.
 */
module GlobalLocks {
  import opened Transactions
  import opened Execution
  import opened Dependencies
  import opened Iteration

  const THREAD_COUNT: nat := 8

  datatype Config = Config(init: Store, txns: seq<Txn>)

  /** Reader before the next writer, writer before the readers up to the next writer. */
  ghost predicate LookedAtOn(txns: seq<Txn>, a: TxnId, b: TxnId, k: Key) {
    && a < b && NoWriterIn(txns, k, a + 1, b)
    && ((Reads(txns, a, k) && Writes(txns, b, k)) || (Writes(txns, a, k) && Reads(txns, b, k) && !Writes(txns, b, k)))
  }

  ghost predicate LookedAt(txns: seq<Txn>, a: TxnId, b: TxnId) {
    exists k :: LookedAtOn(txns, a, b, k)
  }

  ghost function Sources(txns: seq<Txn>, b: TxnId): set<TxnId> {
    set a: TxnId | a < b && LookedAt(txns, a, b)
  }

  datatype Linker = Resting | Busy(todo: set<TxnId>, ind: int)   // holds both locks when busy

  /** A worker whose transaction is final. */
  datatype Exit =
    | WantsLocks                    // about to take both locks
    | Releasing(left: set<TxnId>)   // holds them; neighbours still to be decremented

  datatype State = State(
    exec: Exec,
    next: nat,
    linker: Linker,
    adj: map<TxnId, set<TxnId>>,
    indegree: map<TxnId, int>,
    ready: seq<TxnId>,
    exits: map<TxnId, Exit>,
    returned: seq<TxnId>)

  datatype Action =
    | Receive
    | Look(a: TxnId)             // scheduler: look at a holder of a key, add the edge or skip it
    | Publish
    | Pop
    | Step(w: Work)              // a worker reads, runs the logic or writes
    | Finish(t: TxnId)           // a worker sets the final status
    | LockBoth(t: TxnId)         // ... takes both locks and copies its neighbours
    | Decrement(t: TxnId, b: TxnId)
    | Return(t: TxnId)

  ghost function Start(c: Config): State {
    State(Initial(c.init, c.txns), 0, Resting, map[], map[], [], map[], [])
  }

  /** The logic has not run: neither COMPLETED nor final. */
  ghost predicate Incomplete(s: State, t: TxnId) {
    t < |s.exec.phase| && (s.exec.phase[t].Idle? || s.exec.phase[t].Reading?)
  }

  ghost predicate Started(s: State, t: TxnId) {
    t < |s.exec.phase| && !s.exec.phase[t].Idle?
  }

  ghost predicate Final(s: State, t: TxnId) {
    t < |s.exec.phase| && s.exec.phase[t].Finished?
  }

  ghost predicate IsReleasing(s: State, t: TxnId) {
    t in s.exits && s.exits[t].Releasing?
  }

  /** The worker is through with `t`. */
  ghost predicate Done(s: State, t: TxnId) {
    Final(s, t) && t !in s.exits
  }

  ghost predicate LocksFree(s: State) {
    s.linker.Resting? && forall t: TxnId :: !IsReleasing(s, t)
  }

  ghost function Workers(s: State): set<TxnId> {
    set t: TxnId | t < |s.exec.phase| && Started(s, t) && !Done(s, t)
  }

  ghost predicate CanDo(c: Config, s: State, act: Action) {
    && |s.exec.phase| == |c.txns|
    && match act
       case Receive => LocksFree(s) && s.next < |c.txns|
       case Look(a) => s.linker.Busy? && a in s.linker.todo && a in s.adj
       case Publish => s.linker.Busy? && s.linker.todo == {} && s.next < |c.txns|
       case Pop => s.ready != [] && |Workers(s)| < THREAD_COUNT && Enabled(c.txns, s.exec, Begin(s.ready[0]))
       case Step(w) => !w.Begin? && !w.SetStatus? && Enabled(c.txns, s.exec, w)
       case Finish(t) => Enabled(c.txns, s.exec, SetStatus(t))
       case LockBoth(t) => t in s.exits && s.exits[t].WantsLocks? && LocksFree(s) && t in s.adj
       case Decrement(t, b) => IsReleasing(s, t) && b in s.exits[t].left && b in s.indegree
       case Return(t) => IsReleasing(s, t) && s.exits[t].left == {}
  }

  /** The status test and the membership test before an edge is added. */
  ghost predicate Wanted(s: State, a: TxnId) {
    Incomplete(s, a) && a in s.adj && s.next !in s.adj[a]
  }

  ghost function Next(c: Config, s: State, act: Action): State
    requires CanDo(c, s, act)
  {
    match act
    case Receive => s.(linker := Busy(Sources(c.txns, s.next), 0), adj := s.adj[s.next := {}])
    case Look(a) =>
      if Wanted(s, a)
      then s.(linker := Busy(s.linker.todo - {a}, s.linker.ind + 1), adj := s.adj[a := s.adj[a] + {s.next}])
      else s.(linker := Busy(s.linker.todo - {a}, s.linker.ind))
    case Publish =>
      s.(linker := Resting, next := s.next + 1,
         ready := if s.linker.ind == 0 then s.ready + [s.next] else s.ready,
         indegree := if s.linker.ind == 0 then s.indegree else s.indegree[s.next := s.linker.ind])
    case Pop => s.(ready := s.ready[1..], exec := Do(c.txns, s.exec, Begin(s.ready[0])))
    case Step(w) => s.(exec := Do(c.txns, s.exec, w))
    case Finish(t) => s.(exec := Do(c.txns, s.exec, SetStatus(t)), exits := s.exits[t := WantsLocks])
    case LockBoth(t) => s.(exits := s.exits[t := Releasing(s.adj[t])])
    case Decrement(t, b) =>
      s.(exits := s.exits[t := Releasing(s.exits[t].left - {b})],
         indegree := s.indegree[b := s.indegree[b] - 1],
         ready := if s.indegree[b] == 1 then s.ready + [b] else s.ready)
    case Return(t) => s.(exits := s.exits - {t}, returned := s.returned + [t])
  }

  ghost predicate Leads(c: Config, s: State, acts: seq<Action>, s': State)
    decreases |acts|
  {
    if acts == [] then s == s'
    else CanDo(c, s, acts[0]) && Leads(c, Next(c, s, acts[0]), acts[1..], s')
  }

  ghost predicate Reachable(c: Config, s: State) {
    exists acts :: Leads(c, Start(c), acts, s)
  }

  // ---------- what every step keeps ----------

  ghost predicate EdgeTo(s: State, a: TxnId, b: TxnId) {
    a in s.adj && b in s.adj[a]
  }

  /** The worker of `a` has decremented `b`. */
  ghost predicate Dropped(s: State, a: TxnId, b: TxnId) {
    Done(s, a) || (IsReleasing(s, a) && b !in s.exits[a].left)
  }

  ghost function Pending(s: State, b: TxnId): set<TxnId> {
    set a: TxnId | a < |s.exec.phase| && EdgeTo(s, a, b) && !Dropped(s, a, b)
  }

  ghost predicate Known(s: State, t: TxnId) {
    t < s.next || (s.linker.Busy? && t == s.next)
  }

  ghost function Todo(s: State, b: TxnId): set<TxnId> {
    if s.linker.Busy? && b == s.next then s.linker.todo else {}
  }

  ghost predicate Shaped(c: Config, s: State) {
    && |s.exec.phase| == |c.txns|
    && s.next <= |c.txns| && (s.linker.Busy? ==> s.next < |c.txns| && s.linker.todo <= Sources(c.txns, s.next))
    && (forall t: TxnId :: t in s.adj <==> Known(s, t))
    && (forall t: TxnId | s.next <= t :: !Started(s, t))
    && (forall t: TxnId | t in s.exits :: Final(s, t))
  }

  /** At most one thread is in a critical section; a copied neighbour set is the neighbour set. */
  ghost predicate LocksConsistent(s: State) {
    && (forall t: TxnId, u: TxnId | IsReleasing(s, t) && IsReleasing(s, u) :: t == u)
    && (forall t: TxnId | IsReleasing(s, t) :: s.linker.Resting? && forall b | b in s.exits[t].left :: EdgeTo(s, t, b))
  }

  ghost predicate EdgesConsistent(c: Config, s: State) {
    && (forall a: TxnId, b: TxnId | EdgeTo(s, a, b) :: a < b && Known(s, b))
    && (forall a: TxnId, b: TxnId | Known(s, b) && a in Sources(c.txns, b) - Todo(s, b) ::
          !Incomplete(s, a) || EdgeTo(s, a, b))
  }

  ghost predicate DegreesConsistent(s: State) {
    && (s.linker.Busy? ==> s.linker.ind == |Pending(s, s.next)|)
    && (forall b: TxnId | b in s.indegree :: b < s.next && s.indegree[b] == |Pending(s, b)|)
    && (forall b: TxnId | b < s.next && b !in s.indegree :: Pending(s, b) == {})
  }

  /** Nothing pending means queued or started. */
  ghost predicate ReadyExact(s: State, b: TxnId) {
    Pending(s, b) == {} <==> b in s.ready || Started(s, b)
  }

  ghost predicate ReadyConsistent(s: State) {
    && Distinct(s.ready)
    && (forall b: TxnId | b in s.ready :: b < s.next && !Started(s, b))
    && (forall b: TxnId | b < s.next :: ReadyExact(s, b))
  }

  ghost predicate ReturnsConsistent(s: State) {
    && Distinct(s.returned)
    && forall t: TxnId :: t in s.returned <==> Done(s, t)
  }

  ghost predicate Consistent(c: Config, s: State) {
    && Shaped(c, s)
    && LocksConsistent(s)
    && EdgesConsistent(c, s)
    && DegreesConsistent(s)
    && ReadyConsistent(s)
    && ReturnsConsistent(s)
  }

  lemma StartConsistent(c: Config)
    ensures Consistent(c, Start(c))
  {
  }

  lemma ShapeKept(c: Config, s: State, act: Action)
    requires Consistent(c, s) && CanDo(c, s, act)
    ensures Shaped(c, Next(c, s, act))
  {
    var s' := Next(c, s, act);
    if act.Pop? { assert s.ready[0] in s.ready; }
    forall t: TxnId | s'.next <= t ensures !Started(s', t) {
      StartedAfter(c, s, act, t);
    }
  }

  lemma StartedAfter(c: Config, s: State, act: Action, t: TxnId)
    requires CanDo(c, s, act)
    ensures Started(Next(c, s, act), t) <==> Started(s, t) || (act.Pop? && t == s.ready[0])
  {
  }

  lemma LocksKept(c: Config, s: State, act: Action)
    requires Consistent(c, s) && CanDo(c, s, act)
    ensures LocksConsistent(Next(c, s, act))
  {
    var s' := Next(c, s, act);
    forall t: TxnId | IsReleasing(s', t)
      ensures (act == LockBoth(t) && LocksFree(s)) || (IsReleasing(s, t) && s'.exits[t].left <= s.exits[t].left)
    {
    }
    forall t: TxnId, b: TxnId | EdgeTo(s, t, b) ensures EdgeTo(s', t, b) || act.Receive? {
    }
  }

  /** The one edge a step can add. */
  lemma EdgesAfter(c: Config, s: State, act: Action, a: TxnId, b: TxnId)
    requires Consistent(c, s) && CanDo(c, s, act)
    ensures EdgeTo(Next(c, s, act), a, b) <==> EdgeTo(s, a, b) || (act == Look(a) && Wanted(s, a) && b == s.next)
  {
    assert act.Receive? ==> s.next !in s.adj;
  }

  lemma IncompleteAfter(c: Config, s: State, act: Action, a: TxnId)
    requires Consistent(c, s) && CanDo(c, s, act)
    ensures Incomplete(Next(c, s, act), a) ==> Incomplete(s, a)
  {
    if act.Pop? { assert s.ready[0] in s.ready; }
  }

  lemma EdgesKept(c: Config, s: State, act: Action)
    requires Consistent(c, s) && CanDo(c, s, act)
    ensures EdgesConsistent(c, Next(c, s, act))
  {
    var s' := Next(c, s, act);
    forall a: TxnId, b: TxnId | EdgeTo(s', a, b) ensures a < b && Known(s', b) {
      EdgesAfter(c, s, act, a, b);
    }
    forall a: TxnId, b: TxnId | Known(s', b) && a in Sources(c.txns, b) - Todo(s', b)
      ensures !Incomplete(s', a) || EdgeTo(s', a, b)
    {
      EdgesAfter(c, s, act, a, b);
      IncompleteAfter(c, s, act, a);
      assert a in Todo(s, b) ==> act == Look(a) && b == s.next;
    }
  }

  lemma DroppedAfter(c: Config, s: State, act: Action, a: TxnId, b: TxnId)
    requires Consistent(c, s) && CanDo(c, s, act) && EdgeTo(s, a, b)
    ensures Dropped(Next(c, s, act), a, b) <==> Dropped(s, a, b) || act == Decrement(a, b)
  {
    if act.Pop? { assert s.ready[0] in s.ready; }
  }

  lemma PendingMember(c: Config, s: State, act: Action, a: TxnId, b: TxnId)
    requires Consistent(c, s) && CanDo(c, s, act)
    ensures a in Pending(Next(c, s, act), b)
       <==> (a in Pending(s, b) && act != Decrement(a, b)) || (act == Look(a) && Wanted(s, a) && b == s.next)
  {
    EdgesAfter(c, s, act, a, b);
    if EdgeTo(s, a, b) { DroppedAfter(c, s, act, a, b); }
  }

  ghost predicate AddsEdge(s: State, act: Action) {
    act.Look? && Wanted(s, act.a)
  }

  /** What a step makes of the pending sources of `b`. */
  ghost function PendingThen(s: State, act: Action, b: TxnId): set<TxnId> {
    if AddsEdge(s, act) && b == s.next then Pending(s, b) + {act.a}
    else if act.Decrement? && act.b == b then Pending(s, b) - {act.t}
    else Pending(s, b)
  }

  lemma PendingAfter(c: Config, s: State, act: Action, b: TxnId)
    requires Consistent(c, s) && CanDo(c, s, act)
    ensures Pending(Next(c, s, act), b) == PendingThen(s, act, b)
  {
    forall a: TxnId ensures a in Pending(Next(c, s, act), b) <==> a in PendingThen(s, act, b) {
      PendingMember(c, s, act, a, b);
    }
  }

  lemma WantedIsNew(s: State, a: TxnId)
    requires Wanted(s, a)
    ensures a !in Pending(s, s.next)
  {
  }

  lemma DecrementedWasPending(c: Config, s: State, t: TxnId, b: TxnId)
    requires Consistent(c, s) && CanDo(c, s, Decrement(t, b))
    ensures t in Pending(s, b)
  {
    assert EdgeTo(s, t, b) && Final(s, t);
  }

  lemma NothingPendingYet(c: Config, s: State)
    requires Consistent(c, s) && s.linker.Resting?
    ensures Pending(s, s.next) == {} && s.next !in s.indegree
  {
  }

  lemma DegreesKept(c: Config, s: State, act: Action)
    requires Consistent(c, s) && CanDo(c, s, act)
    ensures DegreesConsistent(Next(c, s, act))
  {
    var s' := Next(c, s, act);
    if act.Decrement? { DecrementedWasPending(c, s, act.t, act.b); }
    if AddsEdge(s, act) { WantedIsNew(s, act.a); }
    forall b: TxnId ensures b in s'.indegree ==> b < s'.next && s'.indegree[b] == |Pending(s', b)|
                    ensures b < s'.next && b !in s'.indegree ==> Pending(s', b) == {} {
      PendingAfter(c, s, act, b);
    }
    if s'.linker.Busy? {
      PendingAfter(c, s, act, s.next);
      if act.Receive? { NothingPendingYet(c, s); }
    }
  }

  lemma PublishReady(c: Config, s: State, b: TxnId)
    requires Consistent(c, s) && CanDo(c, s, Publish) && b <= s.next
    ensures ReadyExact(Next(c, s, Publish), b)
  {
    PendingAfter(c, s, Publish, b);
    StartedAfter(c, s, Publish, b);
    assert b < s.next ==> ReadyExact(s, b);
    assert s.linker.ind == 0 <==> Pending(s, s.next) == {};
  }

  lemma DecrementReady(c: Config, s: State, t: TxnId, b: TxnId, x: TxnId)
    requires Consistent(c, s) && CanDo(c, s, Decrement(t, b)) && x < s.next
    ensures ReadyExact(Next(c, s, Decrement(t, b)), x)
  {
    PendingAfter(c, s, Decrement(t, b), x);
    DecrementedWasPending(c, s, t, b);
    assert ReadyExact(s, x) && ReadyExact(s, b) && t in Pending(s, b);
    assert |Pending(s, b) - {t}| == s.indegree[b] - 1;
  }

  lemma ReadyAfter(c: Config, s: State, act: Action, b: TxnId)
    requires Consistent(c, s) && CanDo(c, s, act) && !act.Publish? && !act.Decrement? && b < s.next
    ensures ReadyExact(Next(c, s, act), b)
  {
    PendingAfter(c, s, act, b);
    assert ReadyExact(s, b);
    if act.Pop? {
      TailDistinct(s.ready);
    }
  }

  lemma QueueKept(c: Config, s: State, act: Action)
    requires Consistent(c, s) && CanDo(c, s, act)
    ensures var s' := Next(c, s, act);
            Distinct(s'.ready) && forall b: TxnId | b in s'.ready :: b < s'.next && !Started(s', b)
  {
    var s' := Next(c, s, act);
    forall b: TxnId ensures Started(s', b) <==> Started(s, b) || (act.Pop? && b == s.ready[0]) {
      StartedAfter(c, s, act, b);
    }
    match act
    case Publish =>
      AppendDistinct(s.ready, s.next);
    case Pop =>
      TailDistinct(s.ready);
    case Decrement(t, b) =>
      DecrementedWasPending(c, s, t, b);
      assert b < s.next && ReadyExact(s, b) && b !in s.ready && !Started(s, b);
      AppendDistinct(s.ready, b);
    case _ =>
  }

  lemma ReadyKept(c: Config, s: State, act: Action)
    requires Consistent(c, s) && CanDo(c, s, act)
    ensures ReadyConsistent(Next(c, s, act))
  {
    var s' := Next(c, s, act);
    QueueKept(c, s, act);
    forall b: TxnId | b < s'.next ensures ReadyExact(s', b) {
      match act
      case Publish => PublishReady(c, s, b);
      case Decrement(t, x) => DecrementReady(c, s, t, x, b);
      case _ => ReadyAfter(c, s, act, b);
    }
  }

  lemma ReturnsKept(c: Config, s: State, act: Action)
    requires Consistent(c, s) && CanDo(c, s, act)
    ensures ReturnsConsistent(Next(c, s, act))
  {
    var s' := Next(c, s, act);
    if act.Pop? { assert s.ready[0] in s.ready; }
    if act.Return? { AppendDistinct(s.returned, act.t); }
    forall t: TxnId ensures t in s'.returned <==> Done(s', t) {
      assert t in s.returned <==> Done(s, t);
    }
  }

  lemma ConsistentKept(c: Config, s: State, act: Action)
    requires Consistent(c, s) && CanDo(c, s, act)
    ensures Consistent(c, Next(c, s, act))
  {
    ShapeKept(c, s, act);
    LocksKept(c, s, act);
    EdgesKept(c, s, act);
    DegreesKept(c, s, act);
    ReadyKept(c, s, act);
    ReturnsKept(c, s, act);
  }
}
