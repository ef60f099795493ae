/**
 Epoch execution is serial when the graph covers the conflicts, and comes to
 its end when no transaction waits for itself.
 */
module DagCorrectness {
  import opened Transactions
  import opened Execution
  import opened Dependencies
  import opened Iteration
  import opened DagExecution
  import opened Measures

  // ---------- safety ----------

  /** Everything a queued or started transaction depends on inside the epoch is final. */
  lemma {:induction false} AncestorsFinal(c: Config, s: State, j: TxnId, b: TxnId)
    requires Consistent(c, s)
    requires Reaches(c.g, j, b) && s.lo <= j < b < s.hi
    requires InQueue(s, b) || !Unstarted(s, b)
    ensures Final(s, j)
    decreases b
  {
    var a: TxnId :| a in c.g[b] && a < b && Reaches(c.g, j, a);
    ReachesForward(c.g, j, a);
    assert b in s.dag.indegree && Waiting(c, s, b) == {};
    assert a !in Waiting(c, s, b);
    assert Final(s, a);
    if j < a { AncestorsFinal(c, s, j, a); }
  }

  lemma ReadyMayBegin(c: Config, s: State)
    requires Consistent(c, s) && Covers(c.txns, c.g)
    requires CanDo(c, s, Pop)
    ensures MayBegin(c.txns, s.exec, s.ready[0])
  {
    var t := s.ready[0];
    assert InQueue(s, t);
    forall j: TxnId | j < t && Conflict(c.txns, j, t) ensures s.exec.phase[j].Finished? {
      if s.lo <= j {
        AncestorsFinal(c, s, j, t);
      }
      assert Final(s, j);
    }
  }

  lemma SerialKept(c: Config, s: State, act: Action)
    requires Consistent(c, s) && CanDo(c, s, act) && Covers(c.txns, c.g)
    requires Serial(c.init, c.txns, s.exec)
    ensures Serial(c.init, c.txns, Next(c, s, act).exec)
  {
    match act
    case Pop =>
      ReadyMayBegin(c, s);
      StepKeepsSerial(c.init, c.txns, s.exec, Begin(s.ready[0]));
    case Step(w) => StepKeepsSerial(c.init, c.txns, s.exec, w);
    case Finish(t) => StepKeepsSerial(c.init, c.txns, s.exec, SetStatus(t));
    case _ =>
  }

  lemma {:induction false} RunConsistent(c: Config, s: State, acts: seq<Action>, s': State)
    requires Consistent(c, s) && Leads(c, s, acts, s')
    ensures Consistent(c, s')
    decreases |acts|
  {
    if acts != [] {
      ConsistentKept(c, s, acts[0]);
      RunConsistent(c, Next(c, s, acts[0]), acts[1..], s');
    }
  }

  lemma {:induction false} RunSerialKept(c: Config, s: State, acts: seq<Action>, s': State)
    requires Consistent(c, s) && Covers(c.txns, c.g) && Serial(c.init, c.txns, s.exec)
    requires Leads(c, s, acts, s')
    ensures Serial(c.init, c.txns, s'.exec)
    decreases |acts|
  {
    if acts != [] {
      ConsistentKept(c, s, acts[0]);
      SerialKept(c, s, acts[0]);
      RunSerialKept(c, Next(c, s, acts[0]), acts[1..], s');
    }
  }

  /** All transactions were handed back to the client. */
  ghost predicate Complete(c: Config, s: State) {
    forall t: TxnId | t < |c.txns| :: t in s.returned
  }

  ghost predicate SerialSoFar(c: Config, s: State) {
    ServedSerially(c.init, c.txns, s.exec, s.returned)
  }

  /** For every cut into epochs and every interleaving, over a graph that covers the conflicts. */
  lemma CoveredRunIsSerial(c: Config, acts: seq<Action>, s: State)
    requires ValidConfig(c) && Covers(c.txns, c.g)
    requires Leads(c, Start(c), acts, s)
    ensures SerialSoFar(c, s)
  {
    StartConsistent(c);
    InitiallySerial(c.init, c.txns);
    RunConsistent(c, Start(c), acts, s);
    RunSerialKept(c, Start(c), acts, s);
    SerialIsObservable(c.init, c.txns, s.exec);
    ObservableIsServed(c.init, c.txns, s.exec, s.returned);
  }

  // ---------- the ready queue ----------

  /** What a step appends to the ready queue. */
  ghost function Pushed(c: Config, s: State, act: Action): seq<TxnId>
    requires CanDo(c, s, act)
  {
    if act.Pop? then [] else Next(c, s, act).ready[|s.ready|..]
  }

  /** All pushes of a run, in order. */
  ghost function Pushes(c: Config, s: State, acts: seq<Action>): seq<TxnId>
    decreases |acts|
  {
    if acts == [] || !CanDo(c, s, acts[0]) then []
    else Pushed(c, s, acts[0]) + Pushes(c, Next(c, s, acts[0]), acts[1..])
  }

  /** The transactions that a run starts, in order. */
  ghost function Starts(c: Config, s: State, acts: seq<Action>): seq<TxnId>
    decreases |acts|
  {
    if acts == [] || !CanDo(c, s, acts[0]) then []
    else Started(s, acts[0]) + Starts(c, Next(c, s, acts[0]), acts[1..])
  }

  ghost predicate StartsNow(s: State, s': State, t: TxnId) {
    && t < |s.exec.phase| && t < |s'.exec.phase|
    && s.exec.phase[t].Idle? && !s'.exec.phase[t].Idle?
  }

  /** The front of the queue is what starts; all other steps start nobody and only append; results are only appended. */
  lemma QueueStep(c: Config, s: State, act: Action)
    requires CanDo(c, s, act)
    ensures var s' := Next(c, s, act);
            && s.returned <= s'.returned
            && (act.Pop? ==> s.ready == [s.ready[0]] + s'.ready && forall t :: StartsNow(s, s', t) <==> t == s.ready[0])
            && (!act.Pop? ==> s'.ready == s.ready + Pushed(c, s, act) && forall t :: !StartsNow(s, s', t))
  {
  }

  ghost function Started(s: State, act: Action): seq<TxnId> {
    if act.Pop? && s.ready != [] then [s.ready[0]] else []
  }

  lemma QueueShifts(c: Config, s: State, act: Action)
    requires CanDo(c, s, act)
    ensures s.ready + Pushed(c, s, act) == Started(s, act) + Next(c, s, act).ready
    ensures s.returned <= Next(c, s, act).returned
  {
    QueueStep(c, s, act);
  }

  /** First in, first out: what a run starts is what was queued and pushed, in that order, up to what is still queued. */
  lemma {:induction false} QueueIsFifo(c: Config, s: State, acts: seq<Action>, s': State)
    requires Leads(c, s, acts, s')
    ensures s.ready + Pushes(c, s, acts) == Starts(c, s, acts) + s'.ready
    ensures s.returned <= s'.returned
    decreases |acts|
  {
    if acts == [] {
      assert s.ready + [] == [] + s'.ready;
    } else {
      var next := Next(c, s, acts[0]);
      var started := Started(s, acts[0]);
      QueueShifts(c, s, acts[0]);
      QueueIsFifo(c, next, acts[1..], s');
      QueueStretches(s.ready, Pushed(c, s, acts[0]), Pushes(c, next, acts[1..]), started, Starts(c, next, acts[1..]),
                     next.ready, s'.ready);
    }
  }

  // ---------- termination ----------

  /** The work still ahead of transaction `t`. */
  ghost function Rank(c: Config, s: State, t: TxnId): nat
    requires t < |c.txns| == |s.exec.phase|
  {
    var n := |c.txns|;
    match s.exec.phase[t]
    case Idle => |c.txns[t].Footprint()| + |c.txns[t].writeset| + n + 5
    case Reading(_, left) => |left| + |c.txns[t].writeset| + n + 4
    case Writing(_, buffer) => |buffer| + n + 3
    case Finished(_) => if t in s.todo then |s.todo[t]| + 2 else if t in s.busy then 1 else 0
  }

  ghost function TotalRank(c: Config, s: State): nat
    requires |c.txns| == |s.exec.phase|
  {
    Sum(seq(|c.txns|, t requires 0 <= t < |c.txns| => Rank(c, s, t)))
  }

  lemma SuccessorsBounded(c: Config, s: State, t: TxnId)
    requires Consistent(c, s) && t in s.dag.adj
    ensures |s.dag.adj[t]| <= |c.txns|
  {
    BoundedSize(s.dag.adj[t], |c.txns|);
  }

  lemma WorkRankDrops(c: Config, s: State, w: Work)
    requires Consistent(c, s) && CanDo(c, s, Step(w))
    ensures Rank(c, Next(c, s, Step(w)), w.t) < Rank(c, s, w.t)
  {
    if w.RunLogic? {
      assert c.txns[w.t].WritesDeclared();
      KeysWithin(c.txns[w.t].Effects(s.exec.phase[w.t].seen), c.txns[w.t].writeset);
    }
    if w.WriteKey? {
      RemovalShrinks(s.exec.phase[w.t].buffer, w.k);
    }
  }

  /** The transaction an action works for. */
  ghost function Actor(s: State, act: Action): TxnId
    requires act.Pop? ==> s.ready != []
    requires !act.OpenEpoch? && !act.PushRoot? && !act.CloseEpoch?
  {
    match act
    case Pop => s.ready[0]
    case Step(w) => w.t
    case Finish(t) => t
    case Release(t, _) => t
    case CountDown(t) => t
    case Return(t) => t
  }

  ghost predicate ByWorker(act: Action) {
    !act.OpenEpoch? && !act.PushRoot? && !act.CloseEpoch?
  }

  lemma ActorRankDrops(c: Config, s: State, act: Action)
    requires Consistent(c, s) && CanDo(c, s, act) && ByWorker(act)
    ensures var x := Actor(s, act);
            x < |c.txns| && Rank(c, Next(c, s, act), x) < Rank(c, s, x)
  {
    match act
    case Step(w) => WorkRankDrops(c, s, w);
    case Finish(t) => FinishRankDrops(c, s, t);
    case Release(t, b) => ReleaseRankDrops(c, s, t, b);
    case _ =>
  }

  lemma FinishRankDrops(c: Config, s: State, t: TxnId)
    requires Consistent(c, s) && CanDo(c, s, Finish(t))
    ensures t < |c.txns| && Rank(c, Next(c, s, Finish(t)), t) < Rank(c, s, t)
  {
    SuccessorsBounded(c, s, t);
  }

  lemma ReleaseRankDrops(c: Config, s: State, t: TxnId, b: TxnId)
    requires Consistent(c, s) && CanDo(c, s, Release(t, b))
    ensures t < |c.txns| && Rank(c, Next(c, s, Release(t, b)), t) < Rank(c, s, t)
  {
    assert t in s.todo && Final(s, t);
  }

  /** Only the actor's own phase, release list and worker change. */
  lemma OthersUntouched(c: Config, s: State, act: Action, t: TxnId)
    requires Consistent(c, s) && CanDo(c, s, act) && ByWorker(act)
    requires t < |c.txns| && t != Actor(s, act)
    ensures var s' := Next(c, s, act);
            && s'.exec.phase[t] == s.exec.phase[t]
            && (t in s'.busy <==> t in s.busy)
            && (t in s'.todo <==> t in s.todo)
            && (t in s.todo ==> s'.todo[t] == s.todo[t])
  {
  }

  lemma OtherRanksStay(c: Config, s: State, act: Action, t: TxnId)
    requires Consistent(c, s) && CanDo(c, s, act) && ByWorker(act)
    requires t < |c.txns| && t != Actor(s, act)
    ensures |Next(c, s, act).exec.phase| == |c.txns|
    ensures Rank(c, Next(c, s, act), t) == Rank(c, s, t)
  {
    OthersUntouched(c, s, act, t);
  }

  /** Lexicographic: epochs to come, epoch open, roots to push, work ahead. */
  ghost predicate Smaller(c: Config, s': State, s: State)
    requires |c.txns| == |s.exec.phase| == |s'.exec.phase|
  {
    || s.hi < s'.hi <= |c.txns|
    || (s'.hi == s.hi && Open(s) && !Open(s'))
    || (s'.hi == s.hi && Open(s') == Open(s) && |s'.dag.roots| < |s.dag.roots|)
    || (s'.hi == s.hi && Open(s') == Open(s) && |s'.dag.roots| == |s.dag.roots|
        && TotalRank(c, s') < TotalRank(c, s))
  }

  /** Every step makes a well-founded measure smaller, so no run goes on for ever. */
  lemma EveryStepShrinks(c: Config, s: State, act: Action)
    requires Consistent(c, s) && CanDo(c, s, act)
    ensures Smaller(c, Next(c, s, act), s)
  {
    if ByWorker(act) {
      ActorRankDrops(c, s, act);
      forall t: TxnId | t < |c.txns| && t != Actor(s, act)
        ensures Rank(c, Next(c, s, act), t) == Rank(c, s, t)
      {
        OtherRanksStay(c, s, act, t);
      }
      SumDrops(seq(|c.txns|, t requires 0 <= t < |c.txns| => Rank(c, s, t)),
               seq(|c.txns|, t requires 0 <= t < |c.txns| => Rank(c, Next(c, s, act), t)), Actor(s, act));
    }
  }

  // ---------- progress ----------

  ghost predicate NoSelfEdge(c: Config) {
    forall b: TxnId | b < |c.g| :: b !in c.g[b]
  }

  lemma WorkerCanMove(c: Config, s: State, t: TxnId) returns (act: Action)
    requires Consistent(c, s) && t in s.busy
    ensures ByWorker(act) && CanDo(c, s, act) && !act.Pop? && Actor(s, act) == t
  {
    var phase := s.exec.phase[t];
    assert !Unstarted(s, t);
    if phase.Reading? {
      if phase.left == {} {
        act := Step(RunLogic(t));
      } else {
        var k :| k in phase.left;
        act := Step(ReadKey(t, k));
      }
    } else if phase.Writing? {
      if phase.buffer == map[] {
        assert !Final(s, t);
        act := Finish(t);
      } else {
        var k :| k in phase.buffer;
        act := Step(WriteKey(t, k));
      }
    } else if t !in s.todo {
      act := Return(t);
    } else if s.todo[t] == {} {
      act := CountDown(t);
    } else {
      var b :| b in s.todo[t];
      assert b in Successors(c.g, t, s.hi);
      act := Release(t, b);
    }
  }

  /** With the queues empty and only `stalled` held by workers, all that is not behind them is done. */
  lemma {:induction false} QuietMeansDone(c: Config, s: State, stalled: set<TxnId>, b: TxnId)
    requires Consistent(c, s) && NoSelfEdge(c)
    requires s.dag.roots == [] && s.ready == [] && s.busy <= stalled
    requires s.lo <= b < s.hi && NotBehind(c.g, stalled, b)
    ensures Final(s, b) && b !in s.busy
    decreases b
  {
    forall a | a in c.g[b] && s.lo <= a ensures Released(s, a, b) {
      forall x | x in stalled ensures !Reaches(c.g, x, a) {
        if Reaches(c.g, x, a) {
          EdgeReaches(c.g, a, b);
          ReachesTransitive(c.g, x, a, b);
        }
      }
      QuietMeansDone(c, s, stalled, a);
    }
    assert Waiting(c, s, b) == {};
    assert b in s.dag.indegree && !InQueue(s, b);
    assert Reaches(c.g, b, b);
  }

  /** As long as something not behind a stalled worker is unfinished, some other thread can move. */
  lemma SomeoneCanMove(c: Config, s: State, stalled: set<TxnId>, b: TxnId) returns (act: Action)
    requires Consistent(c, s) && NoSelfEdge(c) && |stalled| < THREAD_COUNT
    requires s.lo <= b < s.hi && NotBehind(c.g, stalled, b)
    requires !Final(s, b) || b in s.busy
    ensures CanDo(c, s, act) && !act.OpenEpoch? && !act.CloseEpoch?
    ensures ByWorker(act) && !act.Pop? ==> Actor(s, act) !in stalled
  {
    if s.dag.roots != [] {
      act := PushRoot;
    } else if t :| t in s.busy && t !in stalled {
      act := WorkerCanMove(c, s, t);
    } else {
      if s.ready == [] { QuietMeansDone(c, s, stalled, b); }
      SubsetSize(s.busy, stalled);
      assert InQueue(s, s.ready[0]);
      act := Pop;
    }
  }

  /** No deadlock: short of a complete run some step is always possible. */
  lemma NeverStuck(c: Config, s: State) returns (act: Action)
    requires Consistent(c, s) && NoSelfEdge(c) && !Complete(c, s)
    ensures CanDo(c, s, act)
  {
    if t :| t in s.busy {
      act := WorkerCanMove(c, s, t);
    } else if b: TxnId :| s.lo <= b < s.hi && !Final(s, b) {
      act := SomeoneCanMove(c, s, {}, b);
    } else if Open(s) {
      if s.dag.roots != [] {
        act := PushRoot;
      } else {
        CounterIsBarrier(c, s);
        act := CloseEpoch;
      }
    } else {
      assert s.hi < |c.txns| by {
        var t: TxnId :| t < |c.txns| && t !in s.returned;
        assert !Final(s, t);
      }
      act := OpenEpoch(|c.txns|);
    }
  }

  lemma SelfEdgeNotReady(c: Config, s: State, b: TxnId)
    requires Consistent(c, s) && b < |c.g| && b in c.g[b] && Unstarted(s, b)
    ensures !InQueue(s, b)
  {
    if b in s.dag.indegree {
      assert b in Waiting(c, s, b);
    }
  }

  /** A transaction with an edge to itself never starts, so its epoch never closes. */
  lemma {:induction false} SelfEdgeNeverStarts(c: Config, s: State, acts: seq<Action>, s': State, b: TxnId)
    requires Consistent(c, s) && Leads(c, s, acts, s')
    requires b < |c.g| && b in c.g[b] && Unstarted(s, b)
    ensures Unstarted(s', b)
    decreases |acts|
  {
    if acts != [] {
      var act := acts[0];
      SelfEdgeNotReady(c, s, b);
      ConsistentKept(c, s, act);
      SelfEdgeNeverStarts(c, Next(c, s, act), acts[1..], s', b);
    }
  }

  lemma {:induction false} RunToEnd(c: Config, s: State) returns (acts: seq<Action>, s': State)
    requires Consistent(c, s) && NoSelfEdge(c)
    ensures Leads(c, s, acts, s') && Complete(c, s')
    decreases |c.txns| - s.hi, Open(s), |s.dag.roots|, TotalRank(c, s)
  {
    if Complete(c, s) {
      acts, s' := [], s;
    } else {
      var act := NeverStuck(c, s);
      ConsistentKept(c, s, act);
      EveryStepShrinks(c, s, act);
      var rest;
      rest, s' := RunToEnd(c, Next(c, s, act));
      acts := [act] + rest;
    }
  }

  ghost predicate Reachable(c: Config, s: State) {
    exists acts :: Leads(c, Start(c), acts, s)
  }

  /** A run that returns everything exists exactly when no transaction waits for itself. */
  lemma CompletesIff(c: Config)
    requires ValidConfig(c)
    ensures NoSelfEdge(c) <==> exists s :: Reachable(c, s) && Complete(c, s)
  {
    StartConsistent(c);
    if NoSelfEdge(c) {
      var acts, s := RunToEnd(c, Start(c));
      assert Reachable(c, s);
    } else {
      var b: TxnId :| b < |c.g| && b in c.g[b];
      forall s | Reachable(c, s) ensures !Complete(c, s) {
        var acts :| Leads(c, Start(c), acts, s);
        SelfEdgeNeverStarts(c, Start(c), acts, s, b);
        RunConsistent(c, Start(c), acts, s);
        assert b !in s.returned;
      }
    }
  }
}
