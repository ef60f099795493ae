/**
 What continuous scheduling with individual locks guarantees: order, wake-ups,
 no cycle of waiting threads, and an end to every run.
 */
module IndividualLocksCorrectness {
  import opened Transactions
  import opened Execution
  import opened Dependencies
  import opened Iteration
  import opened Measures
  import opened IndividualLocks
  import opened IndividualLocksInvariant

  // A transaction that is queued or started has every transaction its scheduler checks
  // pointed at behind it, whether or not an edge was added; skipped edges were not needed.

  lemma {:induction false} RunConsistent(c: Config, s: State, acts: seq<Action>, s': State)
    requires Consistent(c, s) && Leads(c, s, acts, s')
    ensures Consistent(c, s')
    decreases |acts|
  {
    if acts != [] {
      ConsistentKept(c, s, acts[0]);
      RunConsistent(c, Next(c, s, acts[0]), acts[1..], s');
    }
  }

  lemma ReachableConsistent(c: Config, s: State)
    requires ValidConfig(c) && Reachable(c, s)
    ensures Consistent(c, s)
  {
    var acts :| Leads(c, Start(c), acts, s);
    StartConsistent(c);
    RunConsistent(c, Start(c), acts, s);
  }

  // ---------- no wake-up is lost ----------

  /**
   Once the scheduler is through with `b`, its indegree is the number of
   in-edges whose source has not decremented it, and at zero it has been
   pushed: it is in the queue exactly once, or was taken from it.
   */
  lemma NoWakeUpLost(c: Config, s: State, b: TxnId)
    requires ValidConfig(c) && Reachable(c, s) && b < s.next
    ensures b < |s.indegree| && s.indegree[b] == |Pending(s, b)|
    ensures Occurrences(s.ready, b) == if Unstarted(s, b) && Pending(s, b) == {} then 1 else 0
    ensures !Unstarted(s, b) ==> Pending(s, b) == {}
  {
    ReachableConsistent(c, s);
    assert Known(s, b);
    DistinctOccursOnce(s.ready, b);
  }

  /** No transaction is in the queue before the scheduler is through with it. */
  lemma NothingPushedEarly(c: Config, s: State, b: TxnId)
    requires ValidConfig(c) && Reachable(c, s) && s.next <= b
    ensures Occurrences(s.ready, b) == 0
  {
    ReachableConsistent(c, s);
    DistinctOccursOnce(s.ready, b);
  }

  ghost predicate QueuedOrStarted(s: State, t: TxnId) {
    t in s.ready || (t < |s.exec.phase| && !Unstarted(s, t))
  }

  /** What a step appends to the ready queue. */
  ghost function Pushed(c: Config, s: State, act: Action): seq<TxnId>
    requires CanDo(c, s, act)
  {
    if act.Pop? then [] else Next(c, s, act).ready[|s.ready|..]
  }

  /** All pushes of a run, in order. */
  ghost function Pushes(c: Config, s: State, acts: seq<Action>): seq<TxnId>
    decreases |acts|
  {
    if acts == [] || !CanDo(c, s, acts[0]) then []
    else Pushed(c, s, acts[0]) + Pushes(c, Next(c, s, acts[0]), acts[1..])
  }

  /** The transactions that a run starts, in order. */
  ghost function Starts(c: Config, s: State, acts: seq<Action>): seq<TxnId>
    decreases |acts|
  {
    if acts == [] || !CanDo(c, s, acts[0]) then []
    else (if acts[0].Pop? then [s.ready[0]] else []) + Starts(c, Next(c, s, acts[0]), acts[1..])
  }

  ghost predicate StartsNow(s: State, s': State, t: TxnId) {
    && t < |s.exec.phase| && t < |s'.exec.phase|
    && s.exec.phase[t].Idle? && !s'.exec.phase[t].Idle?
  }

  /** The front of the queue is what starts; all other steps start nobody and only append; results are only appended. */
  lemma QueueStep(c: Config, s: State, act: Action)
    requires CanDo(c, s, act)
    ensures var s' := Next(c, s, act);
            && s.returned <= s'.returned
            && (act.Pop? ==> s.ready == [s.ready[0]] + s'.ready && forall t :: StartsNow(s, s', t) <==> t == s.ready[0])
            && (!act.Pop? ==> s'.ready == s.ready + Pushed(c, s, act) && forall t :: !StartsNow(s, s', t))
  {
  }

  /** First in, first out: what a run starts is what was queued and pushed, in that order, up to what is still queued. */
  lemma {:induction false} QueueIsFifo(c: Config, s: State, acts: seq<Action>, s': State)
    requires Leads(c, s, acts, s')
    ensures s.ready + Pushes(c, s, acts) == Starts(c, s, acts) + s'.ready
    ensures s.returned <= s'.returned
    decreases |acts|
  {
    if acts == [] {
      assert s.ready + [] == [] + s'.ready;
    } else {
      var next := Next(c, s, acts[0]);
      var started := if acts[0].Pop? then [s.ready[0]] else [];
      QueueStep(c, s, acts[0]);
      QueueIsFifo(c, next, acts[1..], s');
      assert s.ready + Pushed(c, s, acts[0]) == started + next.ready;
      QueueStretches(s.ready, Pushed(c, s, acts[0]), Pushes(c, next, acts[1..]), started, Starts(c, next, acts[1..]),
                     next.ready, s'.ready);
    }
  }

  /** The pushes of a step are the change in who is queued or started. */
  ghost predicate PushesExplain(c: Config, s: State, act: Action, t: TxnId)
    requires CanDo(c, s, act)
  {
    Occurrences(Pushed(c, s, act), t) + (if QueuedOrStarted(s, t) then 1 else 0)
      == if QueuedOrStarted(Next(c, s, act), t) then 1 else 0
  }

  lemma PublishPushes(c: Config, s: State, t: TxnId)
    requires Consistent(c, s) && CanDo(c, s, Publish)
    ensures PushesExplain(c, s, Publish, t)
  {
    AppendedOnce(s.ready, Next(c, s, Publish).ready, s.next, t);
    assert s.next !in s.ready && Unstarted(s, s.next);
  }

  lemma DecrementPushes(c: Config, s: State, u: TxnId, t: TxnId)
    requires Consistent(c, s) && CanDo(c, s, Decrement(u))
    ensures PushesExplain(c, s, Decrement(u), t)
  {
    var b := s.exits[u].grip.b;
    assert Grips(s, u, b) && EdgeTo(s, u, b) && Known(s, b) && u in Pending(s, b);
    AppendedOnce(s.ready, Next(c, s, Decrement(u)).ready, b, t);
  }

  lemma PopPushes(c: Config, s: State, t: TxnId)
    requires Consistent(c, s) && CanDo(c, s, Pop)
    ensures PushesExplain(c, s, Pop, t)
  {
    TailDistinct(s.ready);
    assert s.ready[0] in s.ready;
  }

  lemma PushedByStep(c: Config, s: State, act: Action, t: TxnId)
    requires Consistent(c, s) && CanDo(c, s, act)
    ensures PushesExplain(c, s, act, t)
  {
    match act
    case Publish => PublishPushes(c, s, t);
    case Decrement(u) => DecrementPushes(c, s, u, t);
    case Pop => PopPushes(c, s, t);
    case _ => StepKeepsQueued(c, s, act, t);
  }

  lemma StepKeepsQueued(c: Config, s: State, act: Action, t: TxnId)
    requires Consistent(c, s) && CanDo(c, s, act) && !act.Publish? && !act.Decrement? && !act.Pop?
    ensures Pushed(c, s, act) == [] && (QueuedOrStarted(Next(c, s, act), t) <==> QueuedOrStarted(s, t))
  {
    assert Next(c, s, act).ready == s.ready;
  }

  lemma {:induction false} PushesOfRun(c: Config, s: State, acts: seq<Action>, s': State, t: TxnId)
    requires Consistent(c, s) && Leads(c, s, acts, s')
    ensures Occurrences(Pushes(c, s, acts), t) + (if QueuedOrStarted(s, t) then 1 else 0)
         == if QueuedOrStarted(s', t) then 1 else 0
    decreases |acts|
  {
    if acts != [] {
      ConsistentKept(c, s, acts[0]);
      PushedByStep(c, s, acts[0], t);
      PushesOfRun(c, Next(c, s, acts[0]), acts[1..], s', t);
      OccurrencesAdd(Pushed(c, s, acts[0]), Pushes(c, Next(c, s, acts[0]), acts[1..]), t);
    }
  }

  /** Over a whole run every transaction is pushed at most once, by whichever thread; exactly once if it has come back. */
  lemma PushedOnce(c: Config, acts: seq<Action>, s: State, t: TxnId)
    requires ValidConfig(c) && Leads(c, Start(c), acts, s)
    ensures Occurrences(Pushes(c, Start(c), acts), t) <= 1
    ensures t < s.next ==> (Occurrences(Pushes(c, Start(c), acts), t) == 1 <==> Pending(s, t) == {})
    ensures t in s.returned ==> Occurrences(Pushes(c, Start(c), acts), t) == 1
  {
    StartConsistent(c);
    RunConsistent(c, Start(c), acts, s);
    PushesOfRun(c, Start(c), acts, s, t);
    assert !QueuedOrStarted(Start(c), t);
    if t < s.next { assert Known(s, t); }
  }

  // ---------- safety ----------

  /** A queued or started transaction has its predecessors behind it, linked or not. */
  lemma PredecessorsFinal(c: Config, s: State, a: TxnId, b: TxnId)
    requires Consistent(c, s) && b < |c.txns| && a in GraphOf(c)[b]
    requires b in s.ready || !Unstarted(s, b)
    ensures Final(s, a)
  {
    assert b < s.next && Known(s, b);
    assert s.indegree[b] == 0 && Pending(s, b) == {};
    assert IndivEdge(c.txns, a, b);
    var k: Key :| IndivEdgeOn(c.txns, a, b, k);
    assert (k, a) in Checks(c.txns, b) - Todo(s, b);
    if EdgeTo(s, a, b) {
      assert a !in Pending(s, b);
      assert Dropped(s, a, b);
    }
  }

  lemma {:induction false} AncestorsFinal(c: Config, s: State, j: TxnId, b: TxnId)
    requires Consistent(c, s) && Reaches(GraphOf(c), j, b) && j < b < |c.txns|
    requires b in s.ready || !Unstarted(s, b)
    ensures Final(s, j)
    decreases b
  {
    var a: TxnId :| a in GraphOf(c)[b] && a < b && Reaches(GraphOf(c), j, a);
    ReachesForward(GraphOf(c), j, a);
    PredecessorsFinal(c, s, a, b);
    if j < a { AncestorsFinal(c, s, j, a); }
  }

  lemma ReadyMayBegin(c: Config, s: State)
    requires Consistent(c, s) && Covers(c.txns, GraphOf(c)) && CanDo(c, s, Pop)
    ensures MayBegin(c.txns, s.exec, s.ready[0])
  {
    var t := s.ready[0];
    forall j: TxnId | j < t && Conflict(c.txns, j, t) ensures s.exec.phase[j].Finished? {
      AncestorsFinal(c, s, j, t);
    }
  }

  lemma SerialKept(c: Config, s: State, act: Action)
    requires Consistent(c, s) && CanDo(c, s, act) && Covers(c.txns, GraphOf(c))
    requires Serial(c.init, c.txns, s.exec)
    ensures Serial(c.init, c.txns, Next(c, s, act).exec)
  {
    match act
    case Pop =>
      ReadyMayBegin(c, s);
      StepKeepsSerial(c.init, c.txns, s.exec, Begin(s.ready[0]));
    case Step(w) => StepKeepsSerial(c.init, c.txns, s.exec, w);
    case Finish(t) => StepKeepsSerial(c.init, c.txns, s.exec, SetStatus(t));
    case _ =>
  }

  lemma {:induction false} RunSerialKept(c: Config, s: State, acts: seq<Action>, s': State)
    requires Consistent(c, s) && Covers(c.txns, GraphOf(c)) && Serial(c.init, c.txns, s.exec)
    requires Leads(c, s, acts, s')
    ensures Serial(c.init, c.txns, s'.exec)
    decreases |acts|
  {
    if acts != [] {
      ConsistentKept(c, s, acts[0]);
      SerialKept(c, s, acts[0]);
      RunSerialKept(c, Next(c, s, acts[0]), acts[1..], s');
    }
  }

  /** All transactions were handed back to the client. */
  ghost predicate Complete(c: Config, s: State) {
    forall t: TxnId | t < |c.txns| :: t in s.returned
  }

  ghost predicate SerialSoFar(c: Config, s: State) {
    ServedSerially(c.init, c.txns, s.exec, s.returned)
  }

  lemma CoveredRunIsSerial(c: Config, s: State)
    requires ValidConfig(c) && Covers(c.txns, GraphOf(c)) && Reachable(c, s)
    ensures SerialSoFar(c, s)
    ensures Gated(c.txns, s.exec)
  {
    var acts :| Leads(c, Start(c), acts, s);
    StartConsistent(c);
    InitiallySerial(c.init, c.txns);
    RunConsistent(c, Start(c), acts, s);
    RunSerialKept(c, Start(c), acts, s);
    SerialIsObservable(c.init, c.txns, s.exec);
    ObservableIsServed(c.init, c.txns, s.exec, s.returned);
  }

  // ---------- mutexes ----------

  datatype Thread = Scheduler | Worker(t: TxnId)

  /** `x` is blocked in a lock() call on a mutex that `y` holds; try_lock never blocks. */
  ghost predicate WaitsFor(c: Config, s: State, x: Thread, y: Thread) {
    match x
    case Scheduler => s.linker.Resting? && s.next < |c.txns| && y.Worker? && Grips(s, y.t, s.next)
    case Worker(t) =>
      || (t in s.exits && s.exits[t].WantsOwn? && y.Scheduler? && SchedulerHoldsNeighbors(s, t))
      || (WorkerHoldsNeighbors(s, t) && s.exits[t].grip.NoGrip? && exists b ::
            b in s.exits[t].left
            && if y.Scheduler? then s.linker.Busy? && b == s.next else Grips(s, y.t, b))
  }

  /** A thread that others wait for waits for nobody, so there is no cycle of waiting threads. */
  lemma NoWaitCycle(c: Config, s: State, x: Thread, y: Thread, z: Thread)
    requires ValidConfig(c) && Reachable(c, s)
    requires WaitsFor(c, s, x, y)
    ensures y != x && !WaitsFor(c, s, y, z)
  {
    ReachableConsistent(c, s);
    SchedulerNeverWaits(c, s, y);
    SchedulerNeverWaits(c, s, z);
  }

  /** The scheduler never blocks: nobody holds the indegree mutex of a transaction that has no edges yet. */
  lemma SchedulerNeverWaits(c: Config, s: State, y: Thread)
    requires Consistent(c, s)
    ensures !WaitsFor(c, s, Scheduler, y)
  {
    forall t: TxnId, b: TxnId | Grips(s, t, b) ensures Known(s, b) {
      assert EdgeTo(s, t, b);
    }
  }

  /** The scheduler skips an edge only because its source is final, or because it is there already. */
  lemma SkippedEdgeNotNeeded(c: Config, s: State, act: Action, a: TxnId)
    requires ValidConfig(c) && Reachable(c, s) && CanDo(c, s, act)
    requires (act.TryLock? && act.a == a) || (act.CheckStatus? && s.linker.probe.a == a)
    requires Next(c, s, act).linker.probe.NoProbe?
    ensures Final(s, a) || EdgeTo(s, a, s.next)
    ensures act.TryLock? ==> Final(s, a)
  {
    ReachableConsistent(c, s);
  }

  // ---------- termination ----------

  ghost function Rank(c: Config, s: State, t: TxnId): nat
    requires t < |c.txns| == |s.exec.phase|
  {
    var n := |c.txns|;
    match s.exec.phase[t]
    case Idle => |c.txns[t].Footprint()| + |c.txns[t].writeset| + 2 * n + 6
    case Reading(_, left) => |left| + |c.txns[t].writeset| + 2 * n + 5
    case Writing(_, buffer) => |buffer| + 2 * n + 4
    case Finished(_) => if t in s.exits then ExitRank(n, s.exits[t]) else 0
  }

  ghost function ExitRank(n: nat, x: Exit): nat {
    match x
    case WantsOwn => 2 * n + 3
    case Releasing(left, grip) => 2 * |left| + (if grip.NoGrip? then 2 else 1)
  }

  ghost function TotalRank(c: Config, s: State): nat
    requires |c.txns| == |s.exec.phase|
  {
    Sum(seq(|c.txns|, t requires 0 <= t < |c.txns| => Rank(c, s, t)))
  }

  ghost function ProbeRank(p: Probe): nat {
    match p
    case NoProbe => 2
    case Probing(_, _) => 1
    case Linking(_, _) => 0
  }

  ghost function TodoSize(l: Linker): nat {
    if l.Busy? then |l.todo| else 0
  }

  ghost function StageRank(l: Linker): nat {
    if l.Busy? then ProbeRank(l.probe) else 0
  }

  /** Lexicographic: requests to come, request being linked, checks to make, stage of the check, work of the workers. */
  ghost predicate Smaller(c: Config, s': State, s: State)
    requires |c.txns| == |s.exec.phase| == |s'.exec.phase|
  {
    || s.next < s'.next <= |c.txns|
    || (s'.next == s.next && s.linker.Resting? && s'.linker.Busy?)
    || (s'.next == s.next && s'.linker.Resting? == s.linker.Resting? && TodoSize(s'.linker) < TodoSize(s.linker))
    || (s'.next == s.next && s'.linker.Resting? == s.linker.Resting? && TodoSize(s'.linker) == TodoSize(s.linker)
        && StageRank(s'.linker) < StageRank(s.linker))
    || (s'.next == s.next && s'.linker == s.linker && TotalRank(c, s') < TotalRank(c, s))
  }

  lemma WorkRankDrops(c: Config, s: State, w: Work)
    requires Consistent(c, s) && CanDo(c, s, Step(w))
    ensures Rank(c, Next(c, s, Step(w)), w.t) < Rank(c, s, w.t)
  {
    if w.RunLogic? {
      assert c.txns[w.t].WritesDeclared();
      KeysWithin(c.txns[w.t].Effects(s.exec.phase[w.t].seen), c.txns[w.t].writeset);
    }
    if w.WriteKey? {
      RemovalShrinks(s.exec.phase[w.t].buffer, w.k);
    }
  }

  lemma ExitRankDrops(c: Config, s: State, act: Action)
    requires Consistent(c, s) && CanDo(c, s, act) && OnTheWayOut(act)
    ensures act.t < |c.txns| && Final(s, act.t) && Final(Next(c, s, act), act.t)
    ensures Rank(c, Next(c, s, act), act.t) < Rank(c, s, act.t)
  {
    var t := act.t;
    assert t in s.exits && Final(s, t);
    if act.LockOwn? {
      forall b | b in s.neighbors[t] ensures b < |c.txns| { assert EdgeTo(s, t, b); }
      BoundedSize(s.neighbors[t], |c.txns|);
    }
    if act.Decrement? {
      assert Grips(s, t, s.exits[t].grip.b);
    }
  }

  /** The transaction a worker's action works for. */
  ghost function Actor(s: State, act: Action): TxnId
    requires !ByScheduler(act) && (act.Pop? ==> s.ready != [])
  {
    match act
    case Pop => s.ready[0]
    case Step(w) => w.t
    case Finish(t) => t
    case LockOwn(t) => t
    case GripNext(t, _) => t
    case Decrement(t) => t
    case Return(t) => t
  }

  lemma StartRankDrops(c: Config, s: State, act: Action)
    requires Shaped(c, s) && CanDo(c, s, act) && (act.Pop? || act.Finish?)
    ensures var x := Actor(s, act);
            x < |c.txns| && Rank(c, Next(c, s, act), x) < Rank(c, s, x)
  {
  }

  lemma ActorRankDrops(c: Config, s: State, act: Action)
    requires Consistent(c, s) && CanDo(c, s, act) && !ByScheduler(act)
    ensures var x := Actor(s, act);
            x < |c.txns| && Rank(c, Next(c, s, act), x) < Rank(c, s, x)
  {
    if act.Step? {
      WorkRankDrops(c, s, act.w);
    } else if OnTheWayOut(act) {
      ExitRankDrops(c, s, act);
    } else {
      StartRankDrops(c, s, act);
    }
  }

  lemma OthersUntouched(c: Config, s: State, act: Action, t: TxnId)
    requires Consistent(c, s) && CanDo(c, s, act) && !ByScheduler(act)
    requires t < |c.txns| && t != Actor(s, act)
    ensures var s' := Next(c, s, act);
            && |s'.exec.phase| == |c.txns| && s'.exec.phase[t] == s.exec.phase[t]
            && (t in s'.exits <==> t in s.exits) && (t in s.exits ==> s'.exits[t] == s.exits[t])
  {
  }

  lemma OtherRanksStay(c: Config, s: State, act: Action, t: TxnId)
    requires Consistent(c, s) && CanDo(c, s, act) && !ByScheduler(act)
    requires t < |c.txns| && t != Actor(s, act)
    ensures |Next(c, s, act).exec.phase| == |c.txns|
    ensures Rank(c, Next(c, s, act), t) == Rank(c, s, t)
  {
    OthersUntouched(c, s, act, t);
  }

  lemma WorkersShrink(c: Config, s: State, act: Action)
    requires Consistent(c, s) && CanDo(c, s, act) && !ByScheduler(act)
    ensures |Next(c, s, act).exec.phase| == |c.txns|
    ensures TotalRank(c, Next(c, s, act)) < TotalRank(c, s)
  {
    ActorRankDrops(c, s, act);
    forall t: TxnId | t < |c.txns| && t != Actor(s, act)
      ensures Rank(c, Next(c, s, act), t) == Rank(c, s, t)
    {
      OtherRanksStay(c, s, act, t);
    }
    SumDrops(seq(|c.txns|, t requires 0 <= t < |c.txns| => Rank(c, s, t)),
             seq(|c.txns|, t requires 0 <= t < |c.txns| => Rank(c, Next(c, s, act), t)), Actor(s, act));
  }

  /** Every step makes a well-founded measure smaller, so no run goes on for ever. */
  lemma EveryStepShrinks(c: Config, s: State, act: Action)
    requires Consistent(c, s) && CanDo(c, s, act)
    ensures Smaller(c, Next(c, s, act), s)
  {
    if ByScheduler(act) {
      SchedulerLeavesWorkers(c, s, act);
    } else {
      WorkersLeaveLinker(c, s, act);
      WorkersShrink(c, s, act);
    }
  }

  // ---------- progress ----------

  lemma SchedulerCanMove(c: Config, s: State) returns (act: Action)
    requires Consistent(c, s) && (s.linker.Busy? || s.next < |c.txns|)
    ensures CanDo(c, s, act) && ByScheduler(act)
  {
    if s.linker.Resting? {
      act := Receive;
    } else if s.linker.probe.NoProbe? {
      if s.linker.todo == {} {
        act := Publish;
      } else {
        var check :| check in s.linker.todo;
        act := TryLock(check.0, check.1);
      }
    } else {
      CheckIsEdge(c, s.next, s.linker.probe.k, s.linker.probe.a);
      act := if s.linker.probe.Probing? then CheckStatus else Link;
    }
  }

  /** A worker on its way out can move, or the worker whose mutex it needs can. */
  lemma ExitCanMove(c: Config, s: State, t: TxnId) returns (act: Action)
    requires Consistent(c, s) && t in s.exits && s.linker.Resting?
    ensures CanDo(c, s, act) && OnTheWayOut(act) && act.t in s.exits
  {
    if s.exits[t].WantsOwn? {
      act := LockOwn(t);
    } else if s.exits[t].grip.Gripping? {
      assert Grips(s, t, s.exits[t].grip.b);
      assert EdgeTo(s, t, s.exits[t].grip.b);
      act := Decrement(t);
    } else if s.exits[t].left == {} {
      act := Return(t);
    } else {
      var b :| b in s.exits[t].left;
      if u :| Grips(s, u, b) {
        assert EdgeTo(s, u, b);
        act := Decrement(u);
      } else {
        act := GripNext(t, b);
      }
    }
  }

  lemma WorkerCanMove(c: Config, s: State, t: TxnId) returns (act: Action)
    requires Consistent(c, s) && t in s.busy && s.linker.Resting?
    ensures CanDo(c, s, act) && !ByScheduler(act) && !act.Pop?
    ensures Actor(s, act) == t || Final(s, Actor(s, act))
  {
    var phase := s.exec.phase[t];
    assert !Unstarted(s, t);
    if phase.Reading? {
      if phase.left == {} {
        act := Step(RunLogic(t));
      } else {
        var k :| k in phase.left;
        act := Step(ReadKey(t, k));
      }
    } else if phase.Writing? {
      if phase.buffer == map[] {
        act := Finish(t);
      } else {
        var k :| k in phase.buffer;
        act := Step(WriteKey(t, k));
      }
    } else {
      assert Final(s, t);
      act := ExitCanMove(c, s, t);
    }
  }

  lemma QuietPredecessors(c: Config, s: State, b: TxnId)
    requires Consistent(c, s) && s.linker.Resting? && b < s.next && s.ready == []
    requires forall a | a in GraphOf(c)[b] :: Final(s, a) && a !in s.busy
    ensures !Unstarted(s, b)
  {
    assert Known(s, b);
    forall a: TxnId | EdgeTo(s, a, b) ensures Dropped(s, a, b) {
      assert a in GraphOf(c)[b];
      assert a !in s.exits;
    }
    assert Pending(s, b) == {};
  }

  /** With all linked, nothing queued and only `stalled` held by workers, all that is not behind them is done. */
  lemma {:induction false} QuietMeansDone(c: Config, s: State, stalled: set<TxnId>, b: TxnId)
    requires Consistent(c, s) && s.linker.Resting? && s.next == |c.txns|
    requires s.ready == [] && s.busy <= stalled
    requires b < |c.txns| && NotBehind(GraphOf(c), stalled, b)
    ensures Final(s, b) && b !in s.busy
    decreases b
  {
    var g := GraphOf(c);
    forall a | a in g[b] ensures Final(s, a) && a !in s.busy {
      forall x | x in stalled ensures !Reaches(g, x, a) {
        if Reaches(g, x, a) {
          EdgeReaches(g, a, b);
          ReachesTransitive(g, x, a, b);
        }
      }
      QuietMeansDone(c, s, stalled, a);
    }
    QuietPredecessors(c, s, b);
    assert Reaches(g, b, b);
  }

  /** As long as something not behind a stalled worker is unfinished, some other thread can move. */
  lemma SomeoneCanMove(c: Config, s: State, stalled: set<TxnId>, b: TxnId) returns (act: Action)
    requires Consistent(c, s) && |stalled| < THREAD_COUNT
    requires forall x | x in stalled :: !Final(s, x)
    requires b < |c.txns| && NotBehind(GraphOf(c), stalled, b)
    requires !Final(s, b) || b in s.busy
    ensures CanDo(c, s, act)
    ensures !ByScheduler(act) && !act.Pop? ==> Actor(s, act) !in stalled
  {
    if s.linker.Busy? || s.next < |c.txns| {
      act := SchedulerCanMove(c, s);
    } else if t :| t in s.busy && t !in stalled {
      act := WorkerCanMove(c, s, t);
    } else {
      if s.ready == [] { QuietMeansDone(c, s, stalled, b); }
      SubsetSize(s.busy, stalled);
      assert s.ready[0] in s.ready && Unstarted(s, s.ready[0]);
      act := Pop;
    }
  }

  /** No deadlock: short of a complete run some step is always possible. */
  lemma NeverStuck(c: Config, s: State) returns (act: Action)
    requires Consistent(c, s) && !Complete(c, s)
    ensures CanDo(c, s, act)
  {
    var b: TxnId :| b < |c.txns| && b !in s.returned;
    act := SomeoneCanMove(c, s, {}, b);
  }

  lemma {:induction false} RunToEnd(c: Config, s: State) returns (acts: seq<Action>, s': State)
    requires Consistent(c, s)
    ensures Leads(c, s, acts, s') && Complete(c, s')
    decreases |c.txns| - s.next, s.linker.Resting?, TodoSize(s.linker), StageRank(s.linker), TotalRank(c, s)
  {
    if Complete(c, s) {
      acts, s' := [], s;
    } else {
      var act := NeverStuck(c, s);
      ConsistentKept(c, s, act);
      EveryStepShrinks(c, s, act);
      var rest;
      rest, s' := RunToEnd(c, Next(c, s, act));
      acts := [act] + rest;
    }
  }

  /** A state in which no thread can move has handed back every transaction; such a state can always be reached. */
  lemma StoppedMeansComplete(c: Config, s: State)
    requires ValidConfig(c) && Reachable(c, s)
    ensures (forall act :: !CanDo(c, s, act)) ==> Complete(c, s)
    ensures exists acts, s' :: Leads(c, s, acts, s') && Complete(c, s')
  {
    ReachableConsistent(c, s);
    if !Complete(c, s) {
      var act := NeverStuck(c, s);
    }
    var acts, s' := RunToEnd(c, s);
  }
}
