/**
 Every step of the individual-lock protocol keeps its invariant.

 The invariant has one part per concern: what the scheduler is linking, what
 the workers hold, what has been returned, who owns which mutex, which edges
 exist, what the indegrees count, and what is queued.  Scheduler steps leave
 workers alone and worker steps leave the linker alone, which settles most
 cases; the rest are the few steps that touch both sides.  Adding an edge is
 safe because the scheduler holds the `neighbors_mutex` of its source, so the
 source has not copied its neighbours yet.  A decrement is safe because the
 worker holds the `indegree_mutex` of the neighbour, so the scheduler is not
 linking it and nobody else is counting it down.
 */
module IndividualLocksInvariant {
  import opened Transactions
  import opened Execution
  import opened Dependencies
  import opened Iteration
  import opened IndividualLocks

  lemma StartConsistent(c: Config)
    requires ValidConfig(c)
    ensures Consistent(c, Start(c))
  {
  }

  // ---------- who does what ----------

  ghost predicate ByScheduler(act: Action) {
    act.Receive? || act.TryLock? || act.CheckStatus? || act.Link? || act.Publish?
  }

  /** Scheduler steps leave workers and their transactions alone. */
  lemma SchedulerLeavesWorkers(c: Config, s: State, act: Action)
    requires CanDo(c, s, act) && ByScheduler(act)
    ensures var s' := Next(c, s, act);
            && s'.exec == s.exec && s'.busy == s.busy && s'.exits == s.exits && s'.returned == s.returned
  {
  }

  /** Worker steps leave the linker and the neighbour sets alone. */
  lemma WorkersLeaveLinker(c: Config, s: State, act: Action)
    requires CanDo(c, s, act) && !ByScheduler(act)
    ensures var s' := Next(c, s, act);
            && s'.next == s.next && s'.linker == s.linker && s'.neighbors == s.neighbors
  {
  }

  lemma ShapeKept(c: Config, s: State, act: Action)
    requires Consistent(c, s) && CanDo(c, s, act)
    ensures Shaped(c, Next(c, s, act))
  {
  }

  lemma ArrivalsKept(c: Config, s: State, act: Action)
    requires Consistent(c, s) && CanDo(c, s, act)
    requires Shaped(c, Next(c, s, act))
    ensures Arrivals(c, Next(c, s, act))
  {
    var s' := Next(c, s, act);
    forall t: TxnId | s'.next <= t < |c.txns| ensures Unstarted(s', t) {
      assert Unstarted(s, t);
    }
  }

  lemma PopKeepsWorkers(c: Config, s: State)
    requires Shaped(c, s) && WorkersConsistent(c, s) && CanDo(c, s, Pop)
    ensures WorkersConsistent(c, Next(c, s, Pop))
  {
    var s' := Next(c, s, Pop);
    assert |s'.busy| <= |s.busy| + 1;
    assert forall t: TxnId :: t != s.ready[0] ==> Unstarted(s', t) == Unstarted(s, t) && Final(s', t) == Final(s, t);
  }

  lemma WorkKeepsWorkers(c: Config, s: State, act: Action)
    requires Shaped(c, s) && WorkersConsistent(c, s) && CanDo(c, s, act)
    requires act.Step? || act.Finish?
    ensures WorkersConsistent(c, Next(c, s, act))
  {
    var s' := Next(c, s, act);
    var t0 := if act.Step? then act.w.t else act.t;
    assert !Unstarted(s, t0) && !Final(s, t0) && !Unstarted(s', t0);
    assert forall t: TxnId :: t != t0 ==> Unstarted(s', t) == Unstarted(s, t) && Final(s', t) == Final(s, t);
  }

  ghost predicate OnTheWayOut(act: Action) {
    act.LockOwn? || act.GripNext? || act.Decrement? || act.Return?
  }

  lemma ExitKeepsWorkers(c: Config, s: State, act: Action)
    requires Shaped(c, s) && WorkersConsistent(c, s) && CanDo(c, s, act) && OnTheWayOut(act)
    ensures WorkersConsistent(c, Next(c, s, act))
  {
    var s' := Next(c, s, act);
    assert s'.exec == s.exec;
    assert forall t: TxnId :: Unstarted(s', t) == Unstarted(s, t) && Final(s', t) == Final(s, t);
    assert act.t in s.exits && act.t in s.busy;
  }

  lemma WorkersKept(c: Config, s: State, act: Action)
    requires Consistent(c, s) && CanDo(c, s, act) && !ByScheduler(act)
    ensures WorkersConsistent(c, Next(c, s, act))
  {
    if act.Pop? {
      PopKeepsWorkers(c, s);
    } else if act.Step? || act.Finish? {
      WorkKeepsWorkers(c, s, act);
    } else {
      ExitKeepsWorkers(c, s, act);
    }
  }

  lemma ReturnableKept(c: Config, s: State, act: Action, t: TxnId)
    requires Shaped(c, s) && WorkersConsistent(c, s) && CanDo(c, s, act) && !act.Return?
    ensures var s' := Next(c, s, act);
            s'.returned == s.returned && ((Final(s', t) && t !in s'.busy) <==> (Final(s, t) && t !in s.busy))
  {
  }

  lemma ReturnsKept(c: Config, s: State, act: Action)
    requires Consistent(c, s) && CanDo(c, s, act) && !ByScheduler(act)
    ensures ReturnsConsistent(c, Next(c, s, act))
  {
    var s' := Next(c, s, act);
    if act.Return? {
      AppendDistinct(s.returned, act.t);
      assert forall t: TxnId :: Final(s', t) <==> Final(s, t);
    } else {
      assert s'.returned == s.returned;
      forall t: TxnId ensures (Final(s', t) && t !in s'.busy) <==> (Final(s, t) && t !in s.busy) {
        ReturnableKept(c, s, act, t);
      }
    }
  }

  // ---------- mutexes ----------

  lemma SchedulerKeepsLocks(c: Config, s: State, act: Action)
    requires Consistent(c, s) && CanDo(c, s, act) && ByScheduler(act)
    ensures LocksConsistent(c, Next(c, s, act))
  {
    var s' := Next(c, s, act);
    SchedulerLeavesWorkers(c, s, act);
    assert forall t, b :: Grips(s', t, b) <==> Grips(s, t, b);
    assert forall t :: WorkerHoldsNeighbors(s', t) <==> WorkerHoldsNeighbors(s, t);
    forall t, b | WorkerHoldsNeighbors(s', t) && b in s'.exits[t].left ensures EdgeTo(s', t, b) {
      assert EdgeTo(s, t, b);
    }
    forall t, b | Grips(s', t, b) ensures !(s'.linker.Busy? && b == s'.next) {
      assert b in s.exits[t].left && EdgeTo(s, t, b);
    }
  }

  /** What a worker's step does to the mutexes seen by others. */
  lemma WorkerLocks(c: Config, s: State, act: Action, t: TxnId)
    requires Consistent(c, s) && CanDo(c, s, act) && !ByScheduler(act)
    ensures var s' := Next(c, s, act);
            && (WorkerHoldsNeighbors(s', t) ==> WorkerHoldsNeighbors(s, t) || act == LockOwn(t))
            && (forall b | Grips(s', t, b) :: Grips(s, t, b) || act == GripNext(t, b))
            && (Final(s, t) ==> Final(s', t))
            && (t in s.exits && !act.Return? ==> t in s'.exits)
  {
  }

  lemma CopiesKept(c: Config, s: State, act: Action, t: TxnId)
    requires Consistent(c, s) && CanDo(c, s, act) && !ByScheduler(act)
    requires WorkerHoldsNeighbors(Next(c, s, act), t)
    ensures var s' := Next(c, s, act);
            && (forall b | b in s'.exits[t].left :: EdgeTo(s', t, b))
            && (forall b | Grips(s', t, b) :: b in s'.exits[t].left)
  {
    var s' := Next(c, s, act);
    WorkersLeaveLinker(c, s, act);
    if act != LockOwn(t) {
      WorkerLocks(c, s, act, t);
      forall b | b in s'.exits[t].left ensures EdgeTo(s', t, b) {
        assert b in s.exits[t].left;
      }
      forall b | Grips(s', t, b) ensures b in s'.exits[t].left {
        assert act != GripNext(t, b) ==> Grips(s, t, b);
      }
    }
  }

  lemma GripsKept(c: Config, s: State, act: Action, t: TxnId, u: TxnId, b: TxnId)
    requires Consistent(c, s) && CanDo(c, s, act) && !ByScheduler(act)
    requires Grips(Next(c, s, act), t, b) && Grips(Next(c, s, act), u, b)
    ensures t == u && !(s.linker.Busy? && b == s.next)
  {
    WorkerLocks(c, s, act, t);
    WorkerLocks(c, s, act, u);
  }

  /** While an edge is being added its source cannot finish its release. */
  lemma LinkedSourceStays(c: Config, s: State, act: Action)
    requires Consistent(c, s) && CanDo(c, s, act) && !ByScheduler(act)
    requires s.linker.Busy? && s.linker.probe.Linking?
    ensures var s', a := Next(c, s, act), s.linker.probe.a; Final(s', a) ==> a in s'.exits
  {
    var a := s.linker.probe.a;
    assert SchedulerHoldsNeighbors(s, a);
    if act.Return? {
      assert WorkerHoldsNeighbors(s, act.t);
    }
  }

  lemma WorkersKeepLocks(c: Config, s: State, act: Action)
    requires Consistent(c, s) && CanDo(c, s, act) && !ByScheduler(act)
    ensures LocksConsistent(c, Next(c, s, act))
  {
    var s' := Next(c, s, act);
    WorkersLeaveLinker(c, s, act);
    forall a | SchedulerHoldsNeighbors(s', a) ensures !WorkerHoldsNeighbors(s', a) {
      assert SchedulerHoldsNeighbors(s, a);
      WorkerLocks(c, s, act, a);
    }
    if s.linker.Busy? && s.linker.probe.Linking? {
      LinkedSourceStays(c, s, act);
      assert !EdgeTo(s, s.linker.probe.a, s.next);
    }
    forall t, u, b | Grips(s', t, b) && Grips(s', u, b) ensures t == u {
      GripsKept(c, s, act, t, u, b);
    }
    forall t, b | Grips(s', t, b) ensures !(s'.linker.Busy? && b == s'.next) {
      GripsKept(c, s, act, t, t, b);
    }
    forall t | WorkerHoldsNeighbors(s', t)
      ensures (forall b | b in s'.exits[t].left :: EdgeTo(s', t, b)) && (forall b | Grips(s', t, b) :: b in s'.exits[t].left)
    {
      CopiesKept(c, s, act, t);
    }
  }

  // ---------- edges ----------

  lemma CheckIsEdge(c: Config, t: TxnId, k: Key, a: TxnId)
    requires t < |c.txns| && (k, a) in Checks(c.txns, t)
    ensures a < t && a in GraphOf(c)[t]
  {
    assert IndivEdge(c.txns, a, t);
  }

  lemma SchedulerKeepsEdges(c: Config, s: State, act: Action)
    requires Consistent(c, s) && CanDo(c, s, act) && ByScheduler(act)
    requires Shaped(c, Next(c, s, act))
    ensures EdgesConsistent(c, Next(c, s, act))
  {
    var s' := Next(c, s, act);
    forall a: TxnId, b: TxnId | EdgeTo(s', a, b) ensures Known(s', b) && b < |c.txns| && a in GraphOf(c)[b] {
      if EdgeTo(s, a, b) {
      } else {
        CheckIsEdge(c, s.next, s.linker.probe.k, s.linker.probe.a);
      }
    }
    forall b: TxnId, k: Key, a: TxnId | Known(s', b) && b < |c.txns| && (k, a) in Checks(c.txns, b) - Todo(s', b)
      ensures Final(s', a) || EdgeTo(s', a, b)
    {
      CheckIsEdge(c, b, k, a);
      if (k, a) in Checks(c.txns, b) - Todo(s, b) && Known(s, b) {
        assert Final(s, a) || EdgeTo(s, a, b);
        assert EdgeTo(s, a, b) && act.Receive? ==> Known(s, b) && a != s.next;
      }
    }
  }

  lemma WorkersKeepEdges(c: Config, s: State, act: Action)
    requires ValidConfig(c) && Shaped(c, s) && EdgesConsistent(c, s) && CanDo(c, s, act) && !ByScheduler(act)
    requires Shaped(c, Next(c, s, act))
    ensures EdgesConsistent(c, Next(c, s, act))
  {
    var s' := Next(c, s, act);
    WorkersLeaveLinker(c, s, act);
    assert forall a: TxnId, b: TxnId :: EdgeTo(s', a, b) <==> EdgeTo(s, a, b);
    assert forall b: TxnId :: (Known(s', b) <==> Known(s, b)) && Todo(s', b) == Todo(s, b);
    forall b: TxnId, k: Key, a: TxnId | Known(s', b) && b < |c.txns| && (k, a) in Checks(c.txns, b) - Todo(s', b)
      ensures Final(s', a) || EdgeTo(s', a, b)
    {
      assert Final(s, a) || EdgeTo(s, a, b);
    }
  }

  // ---------- indegrees ----------

  lemma ReceiveKeepsDegrees(c: Config, s: State)
    requires Consistent(c, s) && CanDo(c, s, Receive)
    requires Shaped(c, Next(c, s, Receive))
    ensures DegreesConsistent(c, Next(c, s, Receive))
  {
    var s' := Next(c, s, Receive);
    forall a: TxnId, b: TxnId ensures EdgeTo(s', a, b) <==> EdgeTo(s, a, b) {
      if EdgeTo(s, a, b) { assert Known(s, b) && a in GraphOf(c)[b]; }
    }
    assert Pending(s', s.next) == {};
    forall b: TxnId | b < s.next ensures s'.indegree[b] == |Pending(s', b)| {
      assert Known(s, b);
      assert Pending(s', b) == Pending(s, b);
    }
  }

  lemma LinkKeepsDegrees(c: Config, s: State)
    requires Consistent(c, s) && CanDo(c, s, Link)
    requires Shaped(c, Next(c, s, Link))
    ensures DegreesConsistent(c, Next(c, s, Link))
  {
    var s', p := Next(c, s, Link), s.linker.probe;
    assert SchedulerHoldsNeighbors(s, p.a) && !Dropped(s, p.a, s.next);
    forall a: TxnId, b: TxnId
      ensures EdgeTo(s', a, b) <==> EdgeTo(s, a, b) || (a == p.a && b == s.next)
      ensures Dropped(s', a, b) <==> Dropped(s, a, b)
    {
    }
    assert Pending(s', s.next) == Pending(s, s.next) + {p.a};
    forall b: TxnId | b < s.next ensures s'.indegree[b] == |Pending(s', b)| {
      assert Known(s, b);
      assert Pending(s', b) == Pending(s, b);
    }
  }

  lemma DecrementKeepsDegrees(c: Config, s: State, t: TxnId)
    requires Consistent(c, s) && CanDo(c, s, Decrement(t))
    requires Shaped(c, Next(c, s, Decrement(t)))
    ensures DegreesConsistent(c, Next(c, s, Decrement(t)))
  {
    var s', b0 := Next(c, s, Decrement(t)), s.exits[t].grip.b;
    assert Grips(s, t, b0);
    assert b0 in s.exits[t].left && EdgeTo(s, t, b0);
    forall a: TxnId, b: TxnId
      ensures EdgeTo(s', a, b) <==> EdgeTo(s, a, b)
      ensures Dropped(s', a, b) <==> Dropped(s, a, b) || (a == t && b == b0)
    {
    }
    assert Pending(s', b0) == Pending(s, b0) - {t};
    forall b: TxnId | Known(s', b) ensures s'.indegree[b] == |Pending(s', b)| {
      if b != b0 { assert Pending(s', b) == Pending(s, b); }
    }
  }

  /** Beginning, working and finishing do not drop an edge. */
  lemma WorkDropsNothing(c: Config, s: State, act: Action, a: TxnId, b: TxnId)
    requires Shaped(c, s) && WorkersConsistent(c, s) && CanDo(c, s, act)
    requires act.Pop? || act.Step? || act.Finish?
    ensures Dropped(Next(c, s, act), a, b) <==> Dropped(s, a, b)
  {
  }

  lemma ExitDropsNothing(c: Config, s: State, act: Action, a: TxnId, b: TxnId)
    requires Shaped(c, s) && WorkersConsistent(c, s) && CanDo(c, s, act)
    requires act.LockOwn? || act.GripNext? || act.Return?
    requires EdgeTo(s, a, b)
    ensures Dropped(Next(c, s, act), a, b) <==> Dropped(s, a, b)
  {
  }

  /** The remaining steps neither add nor drop an edge. */
  lemma PendingUnchanged(c: Config, s: State, act: Action, a: TxnId, b: TxnId)
    requires Consistent(c, s) && CanDo(c, s, act)
    requires !act.Receive? && !act.Link? && !act.Decrement?
    ensures var s' := Next(c, s, act);
            EdgeTo(s', a, b) && !Dropped(s', a, b) <==> EdgeTo(s, a, b) && !Dropped(s, a, b)
  {
    var s' := Next(c, s, act);
    assert s'.neighbors == s.neighbors;
    if EdgeTo(s, a, b) {
      if ByScheduler(act) {
        SchedulerLeavesWorkers(c, s, act);
      } else if OnTheWayOut(act) {
        ExitDropsNothing(c, s, act, a, b);
      } else {
        WorkDropsNothing(c, s, act, a, b);
      }
    }
  }

  lemma OthersKeepDegrees(c: Config, s: State, act: Action)
    requires Consistent(c, s) && CanDo(c, s, act)
    requires !act.Receive? && !act.Link? && !act.Decrement?
    requires Shaped(c, Next(c, s, act))
    ensures DegreesConsistent(c, Next(c, s, act))
  {
    var s' := Next(c, s, act);
    assert forall b: TxnId :: Known(s', b) ==> Known(s, b);
    forall b: TxnId | Known(s', b) ensures s'.indegree[b] == |Pending(s', b)| {
      forall a: TxnId
        ensures EdgeTo(s', a, b) && !Dropped(s', a, b) <==> EdgeTo(s, a, b) && !Dropped(s, a, b)
      {
        PendingUnchanged(c, s, act, a, b);
      }
      assert Pending(s', b) == Pending(s, b);
    }
  }

  // ---------- the ready queue ----------

  lemma PublishKeepsReady(c: Config, s: State)
    requires Consistent(c, s) && CanDo(c, s, Publish)
    requires Shaped(c, Next(c, s, Publish))
    ensures ReadyConsistent(c, Next(c, s, Publish))
  {
    assert s.next !in s.ready && Unstarted(s, s.next);
    AppendDistinct(s.ready, s.next);
  }

  lemma PopKeepsReady(c: Config, s: State)
    requires Consistent(c, s) && CanDo(c, s, Pop)
    requires Shaped(c, Next(c, s, Pop))
    ensures ReadyConsistent(c, Next(c, s, Pop))
  {
    TailDistinct(s.ready);
  }

  lemma DecrementKeepsReady(c: Config, s: State, t: TxnId)
    requires Consistent(c, s) && CanDo(c, s, Decrement(t))
    requires Shaped(c, Next(c, s, Decrement(t)))
    ensures ReadyConsistent(c, Next(c, s, Decrement(t)))
  {
    var b := s.exits[t].grip.b;
    assert Grips(s, t, b);
    assert EdgeTo(s, t, b) && Known(s, b) && b < s.next;
    assert t in Pending(s, b);
    assert s.indegree[b] > 0 && b !in s.ready;
    AppendDistinct(s.ready, b);
  }

  lemma OthersKeepReady(c: Config, s: State, act: Action)
    requires Consistent(c, s) && CanDo(c, s, act)
    requires !act.Publish? && !act.Pop? && !act.Decrement?
    requires Shaped(c, Next(c, s, act))
    ensures ReadyConsistent(c, Next(c, s, act))
  {
    var s' := Next(c, s, act);
    assert s'.ready == s.ready && s'.next == s.next;
    forall b: TxnId ensures Unstarted(s', b) <==> Unstarted(s, b) {}
    assert forall b: TxnId | b < s.next :: s'.indegree[b] == s.indegree[b];
  }

  lemma DegreesKept(c: Config, s: State, act: Action)
    requires Consistent(c, s) && CanDo(c, s, act)
    requires Shaped(c, Next(c, s, act))
    ensures DegreesConsistent(c, Next(c, s, act))
  {
    match act
    case Receive => ReceiveKeepsDegrees(c, s);
    case Link => LinkKeepsDegrees(c, s);
    case Decrement(t) => DecrementKeepsDegrees(c, s, t);
    case _ => OthersKeepDegrees(c, s, act);
  }

  lemma ReadyKept(c: Config, s: State, act: Action)
    requires Consistent(c, s) && CanDo(c, s, act)
    requires Shaped(c, Next(c, s, act))
    ensures ReadyConsistent(c, Next(c, s, act))
  {
    match act
    case Publish => PublishKeepsReady(c, s);
    case Pop => PopKeepsReady(c, s);
    case Decrement(t) => DecrementKeepsReady(c, s, t);
    case _ => OthersKeepReady(c, s, act);
  }

  lemma SchedulerKeepsConsistent(c: Config, s: State, act: Action)
    requires Consistent(c, s) && CanDo(c, s, act) && ByScheduler(act)
    ensures Consistent(c, Next(c, s, act))
  {
    var s' := Next(c, s, act);
    ShapeKept(c, s, act);
    ArrivalsKept(c, s, act);
    SchedulerLeavesWorkers(c, s, act);
    SchedulerKeepsLocks(c, s, act);
    SchedulerKeepsEdges(c, s, act);
    DegreesKept(c, s, act);
    ReadyKept(c, s, act);
    assert forall t: TxnId :: Unstarted(s', t) == Unstarted(s, t) && Final(s', t) == Final(s, t);
    assert WorkersConsistent(c, s') && ReturnsConsistent(c, s');
  }

  lemma WorkersKeepConsistent(c: Config, s: State, act: Action)
    requires Consistent(c, s) && CanDo(c, s, act) && !ByScheduler(act)
    ensures Consistent(c, Next(c, s, act))
  {
    ShapeKept(c, s, act);
    ArrivalsKept(c, s, act);
    WorkersKept(c, s, act);
    ReturnsKept(c, s, act);
    WorkersKeepLocks(c, s, act);
    WorkersKeepEdges(c, s, act);
    DegreesKept(c, s, act);
    ReadyKept(c, s, act);
  }

  lemma ConsistentKept(c: Config, s: State, act: Action)
    requires Consistent(c, s) && CanDo(c, s, act)
    ensures Consistent(c, Next(c, s, act))
  {
    if ByScheduler(act) {
      SchedulerKeepsConsistent(c, s, act);
    } else {
      WorkersKeepConsistent(c, s, act);
    }
  }
}
