/**
 What the locking scheduler guarantees: serial results, mutual exclusion, no
 deadlock and an end to every run.
 */
module LockingCorrectness {
  import opened Transactions
  import opened Execution
  import opened Iteration
  import opened LockTables
  import opened LockBatches
  import opened Measures
  import opened LockingScheduler

  // ---------- safety ----------

  /** A transaction without blockers has every earlier conflicting transaction behind it. */
  lemma UnblockedMayBegin(c: Config, s: State, t: TxnId)
    requires Consistent(c, s) && Active(s, t) && TotalBlockers(s.locks, t) == 0
    ensures MayBegin(c.txns, s.exec, t)
  {
    forall j: TxnId | j < t && Conflict(c.txns, j, t) ensures s.exec.phase[j].Finished? {
      var k :| ConflictOn(c.txns, j, t, k);
      ZeroTotal(s.locks, t);
      assert Blockers(QueueAt(s.locks.table, k), t) == 0;
      if Active(s, j) {
        EarlierBlocks(c, s, k, j, t, |c.txns|);
      }
    }
  }

  lemma SerialKept(c: Config, s: State, act: Action)
    requires Consistent(c, s) && CanDo(c, s, act) && Serial(c.init, c.txns, s.exec)
    ensures Serial(c.init, c.txns, Next(c, s, act).exec)
  {
    match act
    case Launch =>
      UnblockedMayBegin(c, s, s.locks.ready[0]);
      StepKeepsSerial(c.init, c.txns, s.exec, Begin(s.locks.ready[0]));
    case Read(t, k) => StepKeepsSerial(c.init, c.txns, s.exec, ReadKey(t, k));
    case Run(t) => StepKeepsSerial(c.init, c.txns, s.exec, RunLogic(t));
    case Apply(k) => StepKeepsSerial(c.init, c.txns, s.exec, WriteKey(s.applying.t, k));
    case Finish(_, _) => StepKeepsSerial(c.init, c.txns, s.exec, SetStatus(s.applying.t));
    case _ =>
  }

  lemma {:induction false} RunKeeps(c: Config, s: State, acts: seq<Action>, s': State)
    requires Consistent(c, s) && Serial(c.init, c.txns, s.exec) && Leads(c, s, acts, s')
    ensures Consistent(c, s') && Serial(c.init, c.txns, s'.exec)
    decreases |acts|
  {
    if acts != [] {
      ConsistentKept(c, s, acts[0]);
      SerialKept(c, s, acts[0]);
      RunKeeps(c, Next(c, s, acts[0]), acts[1..], s');
    }
  }

  ghost predicate Complete(c: Config, s: State) {
    forall t: TxnId | t < |c.txns| :: t in s.returned
  }

  /** In every run: exact counts, serial reads and votes, results handed back once, and in the end the serial store. */
  lemma LockingIsSerial(c: Config, s: State)
    requires ValidConfig(c) && Reachable(c, s)
    ensures CountsExact(s.locks, {})
    ensures ServedSerially(c.init, c.txns, s.exec, s.returned)
    ensures forall t: TxnId :: t in s.returned <==> t < |c.txns| && s.exec.phase[t].Finished?
  {
    var acts :| Leads(c, Start(c), acts, s);
    StartConsistent(c);
    InitiallySerial(c.init, c.txns);
    RunKeeps(c, Start(c), acts, s);
    SerialIsObservable(c.init, c.txns, s.exec);
    ObservableIsServed(c.init, c.txns, s.exec, s.returned);
  }

  /** Two transactions that are executing at the same time never conflict. */
  lemma MutualExclusion(c: Config, s: State, a: TxnId, b: TxnId)
    requires ValidConfig(c) && Reachable(c, s) && a != b
    requires a < |c.txns| && b < |c.txns| && |s.exec.phase| == |c.txns|
    requires !s.exec.phase[a].Idle? && !s.exec.phase[a].Finished?
    requires !s.exec.phase[b].Idle? && !s.exec.phase[b].Finished?
    ensures !Conflict(c.txns, a, b)
  {
    var acts :| Leads(c, Start(c), acts, s);
    StartConsistent(c);
    InitiallySerial(c.init, c.txns);
    RunKeeps(c, Start(c), acts, s);
    if Conflict(c.txns, a, b) {
      var k :| ConflictOn(c.txns, a, b, k);
      assert ConflictOn(c.txns, b, a, k);
      assert Conflict(c.txns, b, a);
    }
  }

  // ---------- the ready list ----------

  lemma {:induction false} ReleaseAllAppends(l: Locks, t: TxnId, order: seq<Key>)
    ensures l.ready <= ReleaseAll(l, t, order).ready
    decreases |order|
  {
    if order != [] {
      var front, k := order[..|order| - 1], order[|order| - 1];
      ReleaseAllAppends(l, t, front);
      ReleaseAppends(ReleaseAll(l, t, front), t, k);
    }
  }

  lemma ReleaseAppends(l: Locks, t: TxnId, k: Key)
    ensures l.ready <= Released(l, t, k).ready
  {
    var q := QueueAt(l.table, k);
    if k in l.table && Position(q, t) < |q| {
      AdvanceAllGrows(q[Position(q, t)].mode, q[Position(q, t) + 1..], Counters(l.waits, l.ready));
    }
  }

  lemma FinishAppends(s: State, act: Action)
    requires act.Finish? && s.applying.Held?
    ensures s.locks.ready <= FinishLocks(s, act).ready
  {
    ReleaseAllAppends(s.locks, s.applying.t, act.readOrder);
    ReleaseAllAppends(ReleaseAll(s.locks, s.applying.t, act.readOrder), s.applying.t, act.writeOrder);
  }

  lemma {:induction false} RequestAllReady(b: Batch, t: TxnId, order: seq<Key>, mode: LockMode)
    ensures RequestAll(b, t, order, mode).locks.ready == b.locks.ready
    decreases |order|
  {
    if order != [] { RequestAllReady(b, t, order[..|order| - 1], mode); }
  }

  lemma AdmitAppends(c: Config, s: State, act: Action)
    requires CanDo(c, s, act) && act.Admit?
    ensures s.locks.ready <= AdmitLocks(c, s, act).ready
  {
    var b := Batch(s.locks, false);
    RequestAllReady(b, s.admitted, act.readOrder, c.readMode);
    RequestAllReady(RequestAll(b, s.admitted, act.readOrder, c.readMode), s.admitted, act.writeOrder, EXCLUSIVE);
  }

  /** What a step appends to the ready queue. */
  ghost function Pushed(c: Config, s: State, act: Action): seq<TxnId>
    requires CanDo(c, s, act)
  {
    if act.Launch? || |Next(c, s, act).locks.ready| < |s.locks.ready| then [] else Next(c, s, act).locks.ready[|s.locks.ready|..]
  }

  /** All pushes of a run, in order. */
  ghost function Pushes(c: Config, s: State, acts: seq<Action>): seq<TxnId>
    decreases |acts|
  {
    if acts == [] || !CanDo(c, s, acts[0]) then []
    else Pushed(c, s, acts[0]) + Pushes(c, Next(c, s, acts[0]), acts[1..])
  }

  /** The transactions that a run starts, in order. */
  ghost function Starts(c: Config, s: State, acts: seq<Action>): seq<TxnId>
    decreases |acts|
  {
    if acts == [] || !CanDo(c, s, acts[0]) then []
    else (if acts[0].Launch? then [s.locks.ready[0]] else []) + Starts(c, Next(c, s, acts[0]), acts[1..])
  }

  ghost predicate StartsNow(s: State, s': State, t: TxnId) {
    && t < |s.exec.phase| && t < |s'.exec.phase|
    && s.exec.phase[t].Idle? && !s'.exec.phase[t].Idle?
  }

  /** The front of the queue is what starts; all other steps start nobody and only append; results are only appended. */
  lemma QueueStep(c: Config, s: State, act: Action)
    requires CanDo(c, s, act)
    ensures var s' := Next(c, s, act);
            && s.returned <= s'.returned
            && (act.Launch? ==> s.locks.ready == [s.locks.ready[0]] + s'.locks.ready && forall t :: StartsNow(s, s', t) <==> t == s.locks.ready[0])
            && (!act.Launch? ==> s'.locks.ready == s.locks.ready + Pushed(c, s, act) && forall t :: !StartsNow(s, s', t))
  {
    if act.Admit? { AdmitAppends(c, s, act); }
    if act.Finish? { FinishAppends(s, act); }
  }

  /** First in, first out: what a run starts is what was queued and pushed, in that order, up to what is still queued. */
  lemma {:induction false} QueueIsFifo(c: Config, s: State, acts: seq<Action>, s': State)
    requires Leads(c, s, acts, s')
    ensures s.locks.ready + Pushes(c, s, acts) == Starts(c, s, acts) + s'.locks.ready
    ensures s.returned <= s'.returned
    decreases |acts|
  {
    if acts == [] {
      assert s.locks.ready + [] == [] + s'.locks.ready;
    } else {
      var next := Next(c, s, acts[0]);
      var started := if acts[0].Launch? then [s.locks.ready[0]] else [];
      QueueStep(c, s, acts[0]);
      QueueIsFifo(c, next, acts[1..], s');
      assert s.locks.ready + Pushed(c, s, acts[0]) == started + next.locks.ready;
      QueueStretches(s.locks.ready, Pushed(c, s, acts[0]), Pushes(c, next, acts[1..]), started, Starts(c, next, acts[1..]),
                     next.locks.ready, s'.locks.ready);
    }
  }

  // ---------- progress and termination ----------

  ghost function Rank(c: Config, s: State, t: TxnId): nat
    requires t < |c.txns| == |s.exec.phase|
  {
    match s.exec.phase[t]
    case Idle => |c.txns[t].Footprint()| + |c.txns[t].writeset| + 4
    case Reading(_, left) => |left| + |c.txns[t].writeset| + 3
    case Writing(_, buffer) => |buffer| + if t in s.completed then 2 else 1
    case Finished(_) => 0
  }

  ghost function TotalRank(c: Config, s: State): nat
    requires |c.txns| == |s.exec.phase|
  {
    Sum(seq(|c.txns|, t requires 0 <= t < |c.txns| => Rank(c, s, t)))
  }

  /** The transaction a step other than admission works for. */
  ghost function Actor(s: State, act: Action): TxnId
    requires !act.Admit?
    requires act.Launch? ==> s.locks.ready != []
    requires act.Take? ==> s.completed != []
    requires act.Apply? || act.Finish? ==> s.applying.Held?
  {
    match act
    case Launch => s.locks.ready[0]
    case Read(t, _) => t
    case Run(t) => t
    case Take => s.completed[0]
    case Apply(_) => s.applying.t
    case Finish(_, _) => s.applying.t
  }

  lemma WorkerRankDrops(c: Config, s: State, act: Action)
    requires Consistent(c, s) && CanDo(c, s, act) && (act.Launch? || act.Read? || act.Run?)
    ensures var x := Actor(s, act); x < |c.txns| && Rank(c, Next(c, s, act), x) < Rank(c, s, x)
  {
    var x := Actor(s, act);
    if act.Launch? {
      assert Active(s, x);
    } else if act.Run? {
      assert c.txns[x].WritesDeclared();
      KeysWithin(c.txns[x].Effects(s.exec.phase[x].seen), c.txns[x].writeset);
    }
  }

  lemma SchedulerRankDrops(c: Config, s: State, act: Action)
    requires Consistent(c, s) && CanDo(c, s, act) && (act.Take? || act.Apply? || act.Finish?)
    ensures var x := Actor(s, act); x < |c.txns| && Rank(c, Next(c, s, act), x) < Rank(c, s, x)
  {
    var x := Actor(s, act);
    if act.Take? {
      TakenOnce(c, s);
    } else if act.Apply? {
      RemovalShrinks(s.exec.phase[x].buffer, act.k);
    }
  }

  lemma TakenOnce(c: Config, s: State)
    requires Consistent(c, s) && s.completed != []
    ensures var x := s.completed[0]; x < |c.txns| && s.exec.phase[x].Writing? && x !in s.completed[1..]
  {
    assert Completing(s, s.completed[0]);
    TailDistinct(s.completed);
  }

  lemma OtherRanksStay(c: Config, s: State, act: Action, t: TxnId)
    requires Consistent(c, s) && CanDo(c, s, act) && !act.Admit? && t < |c.txns| && t != Actor(s, act)
    ensures Rank(c, Next(c, s, act), t) == Rank(c, s, t)
  {
    if act.Take? { TailDistinct(s.completed); }
  }

  /** No run goes on for ever: each step admits a transaction or brings one nearer its end. */
  lemma EveryStepShrinks(c: Config, s: State, act: Action)
    requires Consistent(c, s) && CanDo(c, s, act)
    ensures var s' := Next(c, s, act);
            || s.admitted < s'.admitted <= |c.txns|
            || (s'.admitted == s.admitted && TotalRank(c, s') < TotalRank(c, s))
  {
    if !act.Admit? {
      if act.Launch? || act.Read? || act.Run? {
        WorkerRankDrops(c, s, act);
      } else {
        SchedulerRankDrops(c, s, act);
      }
      forall t: TxnId | t < |c.txns| && t != Actor(s, act)
        ensures Rank(c, Next(c, s, act), t) == Rank(c, s, t)
      {
        OtherRanksStay(c, s, act, t);
      }
      SumDrops(seq(|c.txns|, t requires 0 <= t < |c.txns| => Rank(c, s, t)),
               seq(|c.txns|, t requires 0 <= t < |c.txns| => Rank(c, Next(c, s, act), t)), Actor(s, act));
    }
  }

  /** The oldest unfinished admitted transaction waits for nobody, unless it waits for itself. */
  lemma OldestNotWaiting(c: Config, s: State, t: TxnId)
    requires Consistent(c, s) && Active(s, t) && forall j: TxnId | j < t :: !Active(s, j)
    ensures t !in s.locks.waits <==> c.txns[t].Disjoint()
    ensures TotalBlockers(s.locks, t) == 0 <==> c.txns[t].Disjoint()
  {
    assert Exact(s.locks, t);
    if c.txns[t].Disjoint() {
      forall k: Key ensures Blockers(QueueAt(s.locks.table, k), t) == 0 {
        OldestUnblocked(c, s, k, t, |c.txns|);
      }
      ZeroTotal(s.locks, t);
    }
    if TotalBlockers(s.locks, t) == 0 { ReadyIsDisjoint(c, s, t); }
  }

  lemma {:induction false} OldestExists(c: Config, s: State, t: TxnId) returns (oldest: TxnId)
    requires Active(s, t)
    ensures oldest <= t && Active(s, oldest) && forall j: TxnId | j < oldest :: !Active(s, j)
  {
    if j: TxnId :| j < t && Active(s, j) {
      oldest := OldestExists(c, s, j);
    } else {
      oldest := t;
    }
  }

  lemma SchedulerCanFinish(c: Config, s: State) returns (act: Action)
    requires Consistent(c, s) && s.applying.Held?
    ensures CanDo(c, s, act)
  {
    var t := s.applying.t;
    assert Completing(s, t);
    var buffer := s.exec.phase[t].buffer;
    if buffer == map[] {
      var readOrder := OrderExists(c.txns[t].readset);
      var writeOrder := OrderExists(c.txns[t].writeset);
      act := Finish(readOrder, writeOrder);
    } else {
      var k :| k in buffer;
      act := Apply(k);
    }
  }

  lemma ReaderCanMove(c: Config, s: State, t: TxnId) returns (act: Action)
    requires Consistent(c, s) && t < |c.txns| && s.exec.phase[t].Reading?
    ensures CanDo(c, s, act)
  {
    var left := s.exec.phase[t].left;
    if left == {} {
      act := Run(t);
    } else {
      var k :| k in left;
      act := Read(t, k);
    }
  }

  /** No deadlock: until everything is returned, some step is possible. */
  lemma NeverStuck(c: Config, s: State) returns (act: Action)
    requires Consistent(c, s) && AllDisjoint(c.txns) && !Complete(c, s)
    ensures CanDo(c, s, act)
  {
    if s.applying.Held? {
      act := SchedulerCanFinish(c, s);
    } else if s.completed != [] {
      act := Take;
    } else if s.locks.ready != [] {
      assert Active(s, s.locks.ready[0]);
      act := Launch;
    } else if t: TxnId :| t < |c.txns| && s.exec.phase[t].Reading? {
      act := ReaderCanMove(c, s, t);
    } else {
      var t: TxnId :| t < |c.txns| && t !in s.returned;
      NothingActive(c, s);
      assert !Active(s, t);
      var readOrder := OrderExists(c.txns[s.admitted].readset);
      var writeOrder := OrderExists(c.txns[s.admitted].writeset);
      act := Admit(readOrder, writeOrder);
    }
  }

  lemma NothingActive(c: Config, s: State)
    requires Consistent(c, s) && AllDisjoint(c.txns)
    requires s.applying.Free? && s.completed == [] && s.locks.ready == []
    requires forall t: TxnId | t < |c.txns| :: !s.exec.phase[t].Reading?
    ensures forall t: TxnId :: !Active(s, t)
  {
    assert forall t: TxnId :: !Completing(s, t);
    if t: TxnId :| Active(s, t) {
      var oldest := OldestExists(c, s, t);
      OldestNotWaiting(c, s, oldest);
    }
  }

  lemma {:induction false} RunToEnd(c: Config, s: State) returns (acts: seq<Action>, s': State)
    requires Consistent(c, s) && AllDisjoint(c.txns)
    ensures Leads(c, s, acts, s') && Complete(c, s')
    decreases |c.txns| - s.admitted, TotalRank(c, s)
  {
    if Complete(c, s) {
      acts, s' := [], s;
    } else {
      var act := NeverStuck(c, s);
      ConsistentKept(c, s, act);
      EveryStepShrinks(c, s, act);
      var rest;
      rest, s' := RunToEnd(c, Next(c, s, act));
      acts := [act] + rest;
    }
  }

  lemma ReachableConsistent(c: Config, s: State)
    requires ValidConfig(c) && Reachable(c, s)
    ensures Consistent(c, s)
  {
    var acts :| Leads(c, Start(c), acts, s);
    StartConsistent(c);
    InitiallySerial(c.init, c.txns);
    RunKeeps(c, Start(c), acts, s);
  }

  /** With disjoint sets, a state in which nobody can move has returned everything; such a state can always be reached. */
  lemma StoppedMeansComplete(c: Config, s: State)
    requires ValidConfig(c) && AllDisjoint(c.txns) && Reachable(c, s)
    ensures (forall act :: !CanDo(c, s, act)) ==> Complete(c, s)
    ensures exists acts, s' :: Leads(c, s, acts, s') && Complete(c, s')
  {
    ReachableConsistent(c, s);
    if !Complete(c, s) {
      var act := NeverStuck(c, s);
    }
    var rest, s' := RunToEnd(c, s);
  }

  /** A transaction that declares a key in both sets waits for itself: it never starts. */
  lemma OverlapNeverStarts(c: Config, s: State, t: TxnId)
    requires ValidConfig(c) && Reachable(c, s) && t < |c.txns| && !c.txns[t].Disjoint()
    ensures t < |s.exec.phase| && s.exec.phase[t].Idle? && t !in s.returned
    ensures t < s.admitted ==> t in s.locks.waits
  {
    ReachableConsistent(c, s);
    assert Exact(s.locks, t);
    if t < s.admitted && TotalBlockers(s.locks, t) == 0 { ReadyIsDisjoint(c, s, t); }
  }

  /** A run that hands back everything exists exactly when no transaction declares a key in both sets. */
  lemma CompletesIff(c: Config)
    requires ValidConfig(c)
    ensures AllDisjoint(c.txns) <==> exists s :: Reachable(c, s) && Complete(c, s)
  {
    StartConsistent(c);
    if AllDisjoint(c.txns) {
      var acts, s := RunToEnd(c, Start(c));
      assert Reachable(c, s);
    }
    if s :| Reachable(c, s) && Complete(c, s) {
      forall t | 0 <= t < |c.txns| ensures c.txns[t].Disjoint() {
        assert t in s.returned;
        if !c.txns[t].Disjoint() { OverlapNeverStarts(c, s, t); }
      }
    }
  }
}
