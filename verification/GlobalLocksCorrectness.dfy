/**
 What continuous scheduling with two global locks guarantees about wake-ups,
 progress and termination.
 */
module GlobalLocksCorrectness {
  import opened Transactions
  import opened Execution
  import opened Dependencies
  import opened Iteration
  import opened Measures
  import opened GlobalLocks

  lemma {:induction false} RunConsistent(c: Config, s: State, acts: seq<Action>, s': State)
    requires Consistent(c, s) && Leads(c, s, acts, s')
    ensures Consistent(c, s')
    decreases |acts|
  {
    if acts != [] {
      ConsistentKept(c, s, acts[0]);
      RunConsistent(c, Next(c, s, acts[0]), acts[1..], s');
    }
  }

  lemma ReachableConsistent(c: Config, s: State)
    requires Reachable(c, s)
    ensures Consistent(c, s)
  {
    var acts :| Leads(c, Start(c), acts, s);
    StartConsistent(c);
    RunConsistent(c, Start(c), acts, s);
  }

  // ---------- wake-ups ----------

  /** Stored indegrees are the unreleased in-edges; a linked transaction without any is queued once, or started. */
  lemma NoWakeUpLost(c: Config, s: State, b: TxnId)
    requires Reachable(c, s) && b < s.next
    ensures (if b in s.indegree then s.indegree[b] else 0) == |Pending(s, b)|
    ensures Pending(s, b) == {} <==> b in s.ready || Started(s, b)
    ensures Distinct(s.ready) && !(b in s.ready && Started(s, b))
  {
    ReachableConsistent(c, s);
    assert ReadyExact(s, b);
  }

  /** Once a worker has copied a neighbour set, nothing is added to it. */
  lemma EdgesBeforeSnapshot(c: Config, s: State, act: Action, a: TxnId)
    requires Reachable(c, s) && CanDo(c, s, act)
    requires IsReleasing(s, a) || Done(s, a)
    ensures a in s.adj && a in Next(c, s, act).adj && Next(c, s, act).adj[a] == s.adj[a]
    ensures forall b | b in s.adj[a] :: Known(s, b)
  {
    ReachableConsistent(c, s);
    assert Started(s, a) && Known(s, a);
    forall b | b in s.adj[a] ensures Known(s, b) { assert EdgeTo(s, a, b); }
  }

  ghost predicate QueuedOrStarted(s: State, t: TxnId) {
    t in s.ready || Started(s, t)
  }

  /** What a step appends to the ready queue. */
  ghost function Pushed(c: Config, s: State, act: Action): seq<TxnId>
    requires CanDo(c, s, act)
  {
    if act.Pop? then [] else Next(c, s, act).ready[|s.ready|..]
  }

  /** All pushes of a run, in order. */
  ghost function Pushes(c: Config, s: State, acts: seq<Action>): seq<TxnId>
    decreases |acts|
  {
    if acts == [] || !CanDo(c, s, acts[0]) then []
    else Pushed(c, s, acts[0]) + Pushes(c, Next(c, s, acts[0]), acts[1..])
  }

  /** The transactions that a run starts, in order. */
  ghost function Starts(c: Config, s: State, acts: seq<Action>): seq<TxnId>
    decreases |acts|
  {
    if acts == [] || !CanDo(c, s, acts[0]) then []
    else (if acts[0].Pop? then [s.ready[0]] else []) + Starts(c, Next(c, s, acts[0]), acts[1..])
  }

  ghost predicate StartsNow(s: State, s': State, t: TxnId) {
    && t < |s.exec.phase| && t < |s'.exec.phase|
    && s.exec.phase[t].Idle? && !s'.exec.phase[t].Idle?
  }

  /** The front of the queue is what starts; all other steps start nobody and only append; results are only appended. */
  lemma QueueStep(c: Config, s: State, act: Action)
    requires CanDo(c, s, act)
    ensures var s' := Next(c, s, act);
            && s.returned <= s'.returned
            && (act.Pop? ==> s.ready == [s.ready[0]] + s'.ready && forall t :: StartsNow(s, s', t) <==> t == s.ready[0])
            && (!act.Pop? ==> s'.ready == s.ready + Pushed(c, s, act) && forall t :: !StartsNow(s, s', t))
  {
  }

  /** First in, first out: what a run starts is what was queued and pushed, in that order, up to what is still queued. */
  lemma {:induction false} QueueIsFifo(c: Config, s: State, acts: seq<Action>, s': State)
    requires Leads(c, s, acts, s')
    ensures s.ready + Pushes(c, s, acts) == Starts(c, s, acts) + s'.ready
    ensures s.returned <= s'.returned
    decreases |acts|
  {
    if acts == [] {
      assert s.ready + [] == [] + s'.ready;
    } else {
      var next := Next(c, s, acts[0]);
      var started := if acts[0].Pop? then [s.ready[0]] else [];
      QueueStep(c, s, acts[0]);
      QueueIsFifo(c, next, acts[1..], s');
      assert s.ready + Pushed(c, s, acts[0]) == started + next.ready;
      QueueStretches(s.ready, Pushed(c, s, acts[0]), Pushes(c, next, acts[1..]), started, Starts(c, next, acts[1..]),
                     next.ready, s'.ready);
    }
  }

  /** The pushes of a step are the change in who is queued or started. */
  ghost predicate PushesExplain(c: Config, s: State, act: Action, t: TxnId)
    requires CanDo(c, s, act)
  {
    Occurrences(Pushed(c, s, act), t) + (if QueuedOrStarted(s, t) then 1 else 0)
      == if QueuedOrStarted(Next(c, s, act), t) then 1 else 0
  }

  lemma PublishPushes(c: Config, s: State, t: TxnId)
    requires Consistent(c, s) && CanDo(c, s, Publish)
    ensures PushesExplain(c, s, Publish, t)
  {
    AppendedOnce(s.ready, Next(c, s, Publish).ready, s.next, t);
    StartedAfter(c, s, Publish, t);
    assert s.next !in s.ready && !Started(s, s.next);
  }

  lemma DecrementPushes(c: Config, s: State, u: TxnId, b: TxnId, t: TxnId)
    requires Consistent(c, s) && CanDo(c, s, Decrement(u, b))
    ensures PushesExplain(c, s, Decrement(u, b), t)
  {
    AppendedOnce(s.ready, Next(c, s, Decrement(u, b)).ready, b, t);
    StartedAfter(c, s, Decrement(u, b), t);
    DecrementedWasPending(c, s, u, b);
    assert ReadyExact(s, b);
  }

  lemma PopPushes(c: Config, s: State, t: TxnId)
    requires Consistent(c, s) && CanDo(c, s, Pop)
    ensures PushesExplain(c, s, Pop, t)
  {
    TailDistinct(s.ready);
    StartedAfter(c, s, Pop, t);
    assert s.ready[0] in s.ready;
  }

  lemma PushedByStep(c: Config, s: State, act: Action, t: TxnId)
    requires Consistent(c, s) && CanDo(c, s, act)
    ensures PushesExplain(c, s, act, t)
  {
    match act
    case Publish => PublishPushes(c, s, t);
    case Decrement(u, b) => DecrementPushes(c, s, u, b, t);
    case Pop => PopPushes(c, s, t);
    case _ =>
      StartedAfter(c, s, act, t);
      assert Next(c, s, act).ready == s.ready;
  }

  lemma {:induction false} PushesOfRun(c: Config, s: State, acts: seq<Action>, s': State, t: TxnId)
    requires Consistent(c, s) && Leads(c, s, acts, s')
    ensures Occurrences(Pushes(c, s, acts), t) + (if QueuedOrStarted(s, t) then 1 else 0)
         == if QueuedOrStarted(s', t) then 1 else 0
    decreases |acts|
  {
    if acts != [] {
      ConsistentKept(c, s, acts[0]);
      PushedByStep(c, s, acts[0], t);
      PushesOfRun(c, Next(c, s, acts[0]), acts[1..], s', t);
      OccurrencesAdd(Pushed(c, s, acts[0]), Pushes(c, Next(c, s, acts[0]), acts[1..]), t);
    }
  }

  /** Over a whole run every transaction is pushed at most once, by whichever thread; exactly once if it has come back. */
  lemma PushedOnce(c: Config, acts: seq<Action>, s: State, t: TxnId)
    requires Leads(c, Start(c), acts, s)
    ensures Occurrences(Pushes(c, Start(c), acts), t) <= 1
    ensures t < s.next ==> (Occurrences(Pushes(c, Start(c), acts), t) == 1 <==> Pending(s, t) == {})
    ensures t in s.returned ==> Occurrences(Pushes(c, Start(c), acts), t) == 1
  {
    StartConsistent(c);
    RunConsistent(c, Start(c), acts, s);
    PushesOfRun(c, Start(c), acts, s, t);
    assert !QueuedOrStarted(Start(c), t);
    if t < s.next { assert ReadyExact(s, t); }
  }

  // ---------- order ----------

  /** What a started transaction was checked against has run its logic, hence done its reads. */
  lemma SourcesHaveRun(c: Config, s: State, a: TxnId, b: TxnId)
    requires Consistent(c, s) && a in Sources(c.txns, b) && (b in s.ready || Started(s, b))
    ensures !Incomplete(s, a)
  {
    assert b < s.next && Known(s, b) && ReadyExact(s, b);
    if EdgeTo(s, a, b) {
      assert a !in Pending(s, b);
      assert Known(s, a);
    }
  }

  /** No writer of a key starts before the readers since the previous writer have done their reads. */
  lemma ReadersBeforeWriter(c: Config, s: State, a: TxnId, b: TxnId, k: Key)
    requires Consistent(c, s) && (b in s.ready || Started(s, b))
    requires a < b && Reads(c.txns, a, k) && Writes(c.txns, b, k) && NoWriterIn(c.txns, k, a + 1, b)
    ensures !Incomplete(s, a)
  {
    assert LookedAtOn(c.txns, a, b, k);
    assert LookedAt(c.txns, a, b);
    SourcesHaveRun(c, s, a, b);
  }

  // ---------- termination ----------

  ghost function Rank(c: Config, s: State, t: TxnId): nat
    requires t < |c.txns| == |s.exec.phase|
  {
    var n := |c.txns|;
    match s.exec.phase[t]
    case Idle => |c.txns[t].Footprint()| + |c.txns[t].writeset| + n + 6
    case Reading(_, left) => |left| + |c.txns[t].writeset| + n + 5
    case Writing(_, buffer) => |buffer| + n + 4
    case Finished(_) => if t in s.exits then ExitRank(n, s.exits[t]) else 0
  }

  ghost function ExitRank(n: nat, x: Exit): nat {
    match x
    case WantsLocks => n + 3
    case Releasing(left) => |left| + 1
  }

  ghost function TotalRank(c: Config, s: State): nat
    requires |c.txns| == |s.exec.phase|
  {
    Sum(seq(|c.txns|, t requires 0 <= t < |c.txns| => Rank(c, s, t)))
  }

  ghost function TodoSize(l: Linker): nat {
    if l.Busy? then |l.todo| else 0
  }

  /** Lexicographic: requests to come, request being linked, transactions to look at, work of the workers. */
  ghost predicate Smaller(c: Config, s': State, s: State)
    requires |c.txns| == |s.exec.phase| == |s'.exec.phase|
  {
    || s.next < s'.next <= |c.txns|
    || (s'.next == s.next && s.linker.Resting? && s'.linker.Busy?)
    || (s'.next == s.next && s'.linker.Resting? == s.linker.Resting? && TodoSize(s'.linker) < TodoSize(s.linker))
    || (s'.next == s.next && s'.linker == s.linker && TotalRank(c, s') < TotalRank(c, s))
  }

  ghost predicate ByScheduler(act: Action) {
    act.Receive? || act.Look? || act.Publish?
  }

  /** The transaction a worker's action works for. */
  ghost function Actor(s: State, act: Action): TxnId
    requires !ByScheduler(act) && (act.Pop? ==> s.ready != [])
  {
    match act
    case Pop => s.ready[0]
    case Step(w) => w.t
    case Finish(t) => t
    case LockBoth(t) => t
    case Decrement(t, _) => t
    case Return(t) => t
  }

  lemma WorkRankDrops(c: Config, s: State, w: Work)
    requires WellFormed(c.txns) && Shaped(c, s) && CanDo(c, s, Step(w))
    ensures Rank(c, Next(c, s, Step(w)), w.t) < Rank(c, s, w.t)
  {
    if w.RunLogic? {
      assert c.txns[w.t].WritesDeclared();
      KeysWithin(c.txns[w.t].Effects(s.exec.phase[w.t].seen), c.txns[w.t].writeset);
    }
    if w.WriteKey? {
      RemovalShrinks(s.exec.phase[w.t].buffer, w.k);
    }
  }

  lemma ExitRankDrops(c: Config, s: State, act: Action)
    requires Consistent(c, s) && CanDo(c, s, act) && (act.LockBoth? || act.Decrement? || act.Return?)
    ensures act.t < |c.txns| && Rank(c, Next(c, s, act), act.t) < Rank(c, s, act.t)
  {
    assert act.t in s.exits && Final(s, act.t);
    if act.LockBoth? {
      forall b | b in s.adj[act.t] ensures b < |c.txns| { assert EdgeTo(s, act.t, b); }
      BoundedSize(s.adj[act.t], |c.txns|);
    }
  }

  lemma ActorRankDrops(c: Config, s: State, act: Action)
    requires WellFormed(c.txns) && Consistent(c, s) && CanDo(c, s, act) && !ByScheduler(act)
    ensures var x := Actor(s, act);
            x < |c.txns| && Rank(c, Next(c, s, act), x) < Rank(c, s, x)
  {
    if act.Step? {
      WorkRankDrops(c, s, act.w);
    } else if act.LockBoth? || act.Decrement? || act.Return? {
      ExitRankDrops(c, s, act);
    }
  }

  lemma OtherRanksStay(c: Config, s: State, act: Action, t: TxnId)
    requires Shaped(c, s) && CanDo(c, s, act) && !ByScheduler(act)
    requires t < |c.txns| && t != Actor(s, act)
    ensures |Next(c, s, act).exec.phase| == |c.txns|
    ensures Rank(c, Next(c, s, act), t) == Rank(c, s, t)
  {
  }

  lemma WorkersShrink(c: Config, s: State, act: Action)
    requires WellFormed(c.txns) && Consistent(c, s) && CanDo(c, s, act) && !ByScheduler(act)
    ensures |Next(c, s, act).exec.phase| == |c.txns|
    ensures TotalRank(c, Next(c, s, act)) < TotalRank(c, s)
  {
    ActorRankDrops(c, s, act);
    forall t: TxnId | t < |c.txns| && t != Actor(s, act)
      ensures Rank(c, Next(c, s, act), t) == Rank(c, s, t)
    {
      OtherRanksStay(c, s, act, t);
    }
    SumDrops(seq(|c.txns|, t requires 0 <= t < |c.txns| => Rank(c, s, t)),
             seq(|c.txns|, t requires 0 <= t < |c.txns| => Rank(c, Next(c, s, act), t)), Actor(s, act));
  }

  /** Every step makes a well-founded measure smaller, so no run goes on for ever. */
  lemma EveryStepShrinks(c: Config, s: State, act: Action)
    requires WellFormed(c.txns) && Consistent(c, s) && CanDo(c, s, act)
    ensures Smaller(c, Next(c, s, act), s)
  {
    if !ByScheduler(act) { WorkersShrink(c, s, act); }
  }

  // ---------- progress ----------

  /** Whoever is in the critical section gets out of it. */
  lemma LockOwnerCanMove(c: Config, s: State) returns (act: Action)
    requires Consistent(c, s) && !LocksFree(s)
    ensures CanDo(c, s, act) && !act.Receive? && !act.Pop?
    ensures !ByScheduler(act) ==> Final(s, Actor(s, act))
  {
    if s.linker.Busy? {
      if s.linker.todo == {} {
        act := Publish;
      } else {
        var a :| a in s.linker.todo;
        assert a in Sources(c.txns, s.next) && Known(s, a);
        act := Look(a);
      }
    } else {
      var t: TxnId :| IsReleasing(s, t);
      if s.exits[t].left == {} {
        act := Return(t);
      } else {
        var b :| b in s.exits[t].left;
        assert EdgeTo(s, t, b) && t in Pending(s, b);
        assert Known(s, b);
        act := Decrement(t, b);
      }
    }
  }

  lemma WorkerCanMove(c: Config, s: State, t: TxnId) returns (act: Action)
    requires Consistent(c, s) && LocksFree(s) && t in Workers(s)
    ensures CanDo(c, s, act) && !ByScheduler(act) && !act.Pop? && Actor(s, act) == t
  {
    var phase := s.exec.phase[t];
    if phase.Reading? {
      if phase.left == {} {
        act := Step(RunLogic(t));
      } else {
        var k :| k in phase.left;
        act := Step(ReadKey(t, k));
      }
    } else if phase.Writing? {
      if phase.buffer == map[] {
        act := Finish(t);
      } else {
        var k :| k in phase.buffer;
        act := Step(WriteKey(t, k));
      }
    } else {
      assert !IsReleasing(s, t) && Known(s, t);
      act := LockBoth(t);
    }
  }

  /** The held transactions are executing, and nobody waits for them. */
  ghost predicate OutOfTheWay(s: State, held: set<TxnId>) {
    forall x | x in held :: !Final(s, x) && forall b: TxnId :: !EdgeTo(s, x, b)
  }

  /** Below `limit` all is linked, and nothing is being linked at or above it. */
  ghost predicate Within(s: State, limit: nat) {
    s.next <= limit && (s.linker.Busy? ==> s.next < limit)
  }

  lemma {:induction false} QuietMeansDone(c: Config, s: State, limit: nat, held: set<TxnId>, b: TxnId)
    requires Consistent(c, s) && LocksFree(s) && s.next == limit <= |c.txns| && s.ready == []
    requires Workers(s) <= held && OutOfTheWay(s, held)
    requires b < limit && b !in held
    ensures Done(s, b)
    decreases b
  {
    forall a: TxnId | EdgeTo(s, a, b) ensures Dropped(s, a, b) {
      QuietMeansDone(c, s, limit, held, a);
    }
    assert Pending(s, b) == {} && ReadyExact(s, b);
    assert b !in Workers(s);
  }

  /** As long as one of the transactions below `limit` that are not held is unfinished, some thread can move. */
  lemma SomeoneCanMove(c: Config, s: State, limit: nat, held: set<TxnId>, b: TxnId) returns (act: Action)
    requires Consistent(c, s) && Within(s, limit) && limit <= |c.txns|
    requires |held| < THREAD_COUNT && OutOfTheWay(s, held)
    requires b < limit && b !in held && !Done(s, b)
    ensures CanDo(c, s, act)
    ensures !ByScheduler(act) && !act.Pop? ==> Actor(s, act) !in held
    ensures Within(Next(c, s, act), limit)
  {
    if !LocksFree(s) {
      act := LockOwnerCanMove(c, s);
    } else if s.next < limit {
      act := Receive;
    } else if t :| t in Workers(s) && t !in held {
      act := WorkerCanMove(c, s, t);
    } else {
      if s.ready == [] { QuietMeansDone(c, s, limit, held, b); }
      SubsetSize(Workers(s), held);
      assert s.ready[0] in s.ready;
      act := Pop;
    }
  }

  ghost predicate Complete(c: Config, s: State) {
    forall t: TxnId | t < |c.txns| :: t in s.returned
  }

  lemma NeverStuck(c: Config, s: State) returns (act: Action)
    requires Consistent(c, s) && !Complete(c, s)
    ensures CanDo(c, s, act)
  {
    var b: TxnId :| b < |c.txns| && b !in s.returned;
    act := SomeoneCanMove(c, s, |c.txns|, {}, b);
  }

  lemma {:induction false} RunToEnd(c: Config, s: State) returns (acts: seq<Action>, s': State)
    requires WellFormed(c.txns) && Consistent(c, s)
    ensures Leads(c, s, acts, s') && Complete(c, s')
    decreases |c.txns| - s.next, s.linker.Resting?, TodoSize(s.linker), TotalRank(c, s)
  {
    if Complete(c, s) {
      acts, s' := [], s;
    } else {
      var act := NeverStuck(c, s);
      ConsistentKept(c, s, act);
      EveryStepShrinks(c, s, act);
      var rest;
      rest, s' := RunToEnd(c, Next(c, s, act));
      acts := [act] + rest;
    }
  }

  /** A state in which no thread can move has returned every transaction once, and it can always be reached. */
  lemma StoppedMeansComplete(c: Config, s: State)
    requires WellFormed(c.txns) && Reachable(c, s)
    ensures Distinct(s.returned)
    ensures (forall act :: !CanDo(c, s, act)) ==> Complete(c, s)
    ensures exists acts, s' :: Leads(c, s, acts, s') && Complete(c, s')
  {
    ReachableConsistent(c, s);
    if !Complete(c, s) {
      var act := NeverStuck(c, s);
    }
    var acts, s' := RunToEnd(c, s);
  }
}
