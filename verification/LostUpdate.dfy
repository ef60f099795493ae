/**
 A run of the epoch scheduler that loses an update.

 Two transactions increment one key, which both declare to write only; the key
 is read all the same, because a worker reads both declared sets.  No reader
 stands between the two writers, so the graph has no edge, both transactions
 are roots, and two workers take them at once.  Both read zero, both write
 one, both commit.  In the serial run the key ends at two.

 The run is built from explicit states, one lemma for each stretch of it, so
 that every step can be checked against the machine: the epoch is opened, both
 roots are pushed and popped, both transactions read, run their logic, write,
 set their status, pass the epoch counter and return.
 */
module LostUpdate {
  import opened Transactions
  import opened Execution
  import opened Dependencies
  import opened DagExecution
  import opened DagCorrectness
  import opened EpochScheduler

  /** The increment of every key of the writeset, as the read-modify-write transaction does it. */
  ghost function Increment(seen: Store): Outcome {
    Outcome(true, map[0 := (if 0 in seen then seen[0] else 0) + 1])
  }

  ghost function IncrementTxn(): Txn {
    Txn({}, {0}, Increment)
  }

  ghost function TwoIncrements(): Config {
    var txns := [IncrementTxn(), IncrementTxn()];
    Config(map[0 := 0], txns, EpochGraph(txns))
  }

  lemma BothAreRoots()
    ensures var c := TwoIncrements();
            && c.g == [{}, {}] && ValidConfig(c) && AllDisjoint(c.txns)
            && BlindPair(c.txns, 0, 1) && !Reaches(c.g, 0, 1)
            && Roots(c.g, 0, 2) == [0, 1]
  {
    var c := TwoIncrements();
    forall a: TxnId, b: TxnId ensures !EpochEdge(c.txns, a, b) {
      forall k ensures !EpochEdgeOn(c.txns, a, b, k) {
        assert !Reads(c.txns, a, k) && !Reads(c.txns, b, k);
      }
    }
    assert c.g[0] == {} && c.g[1] == {};
    assert BlindPairOn(c.txns, 0, 1, 0);
    assert Roots(c.g, 0, 0) == [] && Roots(c.g, 0, 1) == [0];
  }

  lemma {:induction false} LeadsFurther(c: Config, s0: State, acts: seq<Action>, s: State, act: Action)
    requires Leads(c, s0, acts, s) && CanDo(c, s, act)
    ensures Leads(c, s0, acts + [act], Next(c, s, act))
    decreases |acts|
  {
    if acts == [] {
      assert acts + [act] == [act];
      assert Leads(c, Next(c, s, act), [], Next(c, s, act));
    } else {
      LeadsFurther(c, Next(c, s0, acts[0]), acts[1..], s, act);
      assert (acts + [act])[1..] == acts[1..] + [act];
    }
  }

  lemma ReachNext(c: Config, s: State, act: Action)
    requires Reachable(c, s) && CanDo(c, s, act)
    ensures Reachable(c, Next(c, s, act))
  {
    var acts :| Leads(c, Start(c), acts, s);
    LeadsFurther(c, Start(c), acts, s, act);
  }

  /** Two transactions in the given phases; `queue` is ready and `busy` held by workers. */
  ghost function Midway(value: Value, p: Phase, q: Phase, roots: seq<TxnId>, queue: seq<TxnId>, busy: set<TxnId>): State {
    State(Exec(map[0 := value], [p, q]), 0, 2, EpochDag(map[0 := {}, 1 := {}], map[0 := 0, 1 := 0], roots),
          2, queue, busy, map[], [])
  }

  ghost function Running(value: Value, p: Phase, q: Phase): State {
    Midway(value, p, q, [], [], {0, 1})
  }

  /** The phases an increment passes through. */
  const STARTED := Reading(map[], {0})
  const HAS_READ := Reading(map[0 := 0], {})
  const HAS_RUN := Writing(map[0 := 0], map[0 := 1])
  const HAS_WRITTEN := Writing(map[0 := 0], map[])
  const DONE := Finished(map[0 := 0])

  lemma DagOfTwo()
    ensures DagOf(TwoIncrements().g, 0, 2) == EpochDag(map[0 := {}, 1 := {}], map[0 := 0, 1 := 0], [0, 1])
  {
    BothAreRoots();
    var g := TwoIncrements().g;
    var dag := DagOf(g, 0, 2);
    assert Successors(g, 0, 2) == {} && Successors(g, 1, 2) == {};
    assert PredsFrom(g, 0, 0) == {} && PredsFrom(g, 0, 1) == {};
    assert dag.adj == map[0 := {}, 1 := {}];
    assert dag.indegree == map[0 := 0, 1 := 0];
  }

  lemma OpenStep() returns (s: State)
    ensures s == Midway(0, Idle, Idle, [0, 1], [], {}) && Reachable(TwoIncrements(), s)
  {
    var c := TwoIncrements();
    var s0 := Start(c);
    assert Leads(c, s0, [], s0);
    assert |c.g| == 2;
    DagOfTwo();
    ReachNext(c, s0, OpenEpoch(2));
    s := Next(c, s0, OpenEpoch(2));
    assert s0.exec.phase == [Idle, Idle];
  }

  lemma PushStep(s: State, roots: seq<TxnId>, queue: seq<TxnId>) returns (s': State)
    requires roots != [] && s == Midway(0, Idle, Idle, roots, queue, {}) && Reachable(TwoIncrements(), s)
    ensures s' == Midway(0, Idle, Idle, roots[1..], queue + [roots[0]], {}) && Reachable(TwoIncrements(), s')
  {
    ReachNext(TwoIncrements(), s, PushRoot);
    s' := Next(TwoIncrements(), s, PushRoot);
  }

  lemma BothPushed() returns (s: State)
    ensures s == Midway(0, Idle, Idle, [], [0, 1], {}) && Reachable(TwoIncrements(), s)
  {
    s := OpenStep();
    s := PushStep(s, [0, 1], []);
    assert [0, 1][1..] == [1] && [] + [0] == [0];
    s := PushStep(s, [1], [0]);
    assert [1][1..] == [] && [0] + [1] == [0, 1];
  }

  lemma Starting(e: Exec, t: TxnId)
    requires |e.phase| == 2 && t < 2 && e.phase[t] == Idle
    ensures Do(TwoIncrements().txns, e, Begin(t)) == Exec(e.store, e.phase[t := STARTED])
  {
    assert IncrementTxn().Footprint() == {0};
  }

  lemma FirstPop(s: State) returns (s': State)
    requires s == Midway(0, Idle, Idle, [], [0, 1], {}) && Reachable(TwoIncrements(), s)
    ensures s' == Midway(0, STARTED, Idle, [], [1], {0}) && Reachable(TwoIncrements(), s')
  {
    Starting(s.exec, 0);
    ReachNext(TwoIncrements(), s, Pop);
    s' := Next(TwoIncrements(), s, Pop);
    assert [0, 1][1..] == [1] && [Idle, Idle][0 := STARTED] == [STARTED, Idle];
  }

  lemma SecondPop(s: State) returns (s': State)
    requires s == Midway(0, STARTED, Idle, [], [1], {0}) && Reachable(TwoIncrements(), s)
    ensures s' == Running(0, STARTED, STARTED) && Reachable(TwoIncrements(), s')
  {
    Starting(s.exec, 1);
    ReachNext(TwoIncrements(), s, Pop);
    s' := Next(TwoIncrements(), s, Pop);
    assert [1][1..] == [] && [STARTED, Idle][1 := STARTED] == [STARTED, STARTED];
    assert {0} + {1} == {0, 1};
  }

  /** What a step of transaction `t` makes of its phase and of the key. */
  lemma WorkStep(s: State, value: Value, p: Phase, q: Phase, w: Work, value': Value, r: Phase) returns (s': State)
    requires s == Running(value, p, q) && Reachable(TwoIncrements(), s)
    requires w.t < 2 && !w.Begin? && !w.SetStatus? && Enabled(TwoIncrements().txns, s.exec, w)
    requires NextPhase(TwoIncrements().txns, s.exec, w) == r
    requires NextStore(TwoIncrements().txns, s.exec, w) == map[0 := value']
    ensures s' == Running(value', if w.t == 0 then r else p, if w.t == 0 then q else r)
    ensures Reachable(TwoIncrements(), s')
  {
    ReachNext(TwoIncrements(), s, Step(w));
    s' := Next(TwoIncrements(), s, Step(w));
    assert [p, q][w.t := r] == if w.t == 0 then [r, q] else [p, r];
  }

  lemma BothRead(s: State) returns (s': State)
    requires s == Running(0, STARTED, STARTED) && Reachable(TwoIncrements(), s)
    ensures s' == Running(0, HAS_READ, HAS_READ) && Reachable(TwoIncrements(), s')
  {
    assert {0} - {0} == {};
    s' := WorkStep(s, 0, STARTED, STARTED, ReadKey(0, 0), 0, HAS_READ);
    s' := WorkStep(s', 0, HAS_READ, STARTED, ReadKey(1, 0), 0, HAS_READ);
  }

  lemma IncrementEffects(v: Value)
    ensures IncrementTxn().Effects(map[0 := v]) == map[0 := v + 1]
  {
  }

  lemma RunPhase(e: Exec, t: TxnId)
    requires |e.phase| == 2 && t < 2 && e.phase[t] == HAS_READ && e.store == map[0 := 0]
    ensures Enabled(TwoIncrements().txns, e, RunLogic(t))
    ensures NextPhase(TwoIncrements().txns, e, RunLogic(t)) == HAS_RUN
    ensures NextStore(TwoIncrements().txns, e, RunLogic(t)) == map[0 := 0]
  {
    assert TwoIncrements().txns[t] == IncrementTxn();
    IncrementEffects(0);
  }

  lemma FirstRun(s: State) returns (s': State)
    requires s == Running(0, HAS_READ, HAS_READ) && Reachable(TwoIncrements(), s)
    ensures s' == Running(0, HAS_RUN, HAS_READ) && Reachable(TwoIncrements(), s')
  {
    RunPhase(s.exec, 0);
    s' := WorkStep(s, 0, HAS_READ, HAS_READ, RunLogic(0), 0, HAS_RUN);
  }

  lemma SecondRun(s: State) returns (s': State)
    requires s == Running(0, HAS_RUN, HAS_READ) && Reachable(TwoIncrements(), s)
    ensures s' == Running(0, HAS_RUN, HAS_RUN) && Reachable(TwoIncrements(), s')
  {
    RunPhase(s.exec, 1);
    s' := WorkStep(s, 0, HAS_RUN, HAS_READ, RunLogic(1), 0, HAS_RUN);
  }

  lemma BothWrite(s: State) returns (s': State)
    requires s == Running(0, HAS_RUN, HAS_RUN) && Reachable(TwoIncrements(), s)
    ensures s' == Running(1, HAS_WRITTEN, HAS_WRITTEN) && Reachable(TwoIncrements(), s')
  {
    assert map[0 := 1] - {0} == map[];
    s' := WorkStep(s, 0, HAS_RUN, HAS_RUN, WriteKey(0, 0), 1, HAS_WRITTEN);
    s' := WorkStep(s', 1, HAS_WRITTEN, HAS_RUN, WriteKey(1, 0), 1, HAS_WRITTEN);
  }

  /** Finish, count down and return transaction `t`. */
  lemma ReturnStep(s: State, t: TxnId) returns (s': State)
    requires Reachable(TwoIncrements(), s) && t < 2 && t in s.busy && s.todo == map[]
    requires |s.exec.phase| == 2 && s.exec.phase[t] == HAS_WRITTEN && t in s.dag.adj && s.dag.adj[t] == {}
    ensures s' == s.(exec := Exec(s.exec.store, s.exec.phase[t := DONE]), left := s.left - 1,
                     busy := s.busy - {t}, returned := s.returned + [t])
    ensures Reachable(TwoIncrements(), s')
  {
    var c := TwoIncrements();
    ReachNext(c, s, Finish(t));
    var s1 := Next(c, s, Finish(t));
    ReachNext(c, s1, CountDown(t));
    var s2 := Next(c, s1, CountDown(t));
    assert s2.todo == map[];
    ReachNext(c, s2, Return(t));
    s' := Next(c, s2, Return(t));
  }

  lemma SerialResultIsTwo()
    ensures SerialStore(map[0 := 0], TwoIncrements().txns, 2) == map[0 := 2]
  {
    var txns := TwoIncrements().txns;
    assert IncrementTxn().Footprint() == {0};
    assert Snapshot(map[0 := 0], {0}) == map[0 := 0] && Snapshot(map[0 := 1], {0}) == map[0 := 1];
    IncrementEffects(0);
    IncrementEffects(1);
    assert SerialStore(map[0 := 0], txns, 1) == map[0 := 1];
  }

  lemma BothWritten() returns (s: State)
    ensures s == Running(1, HAS_WRITTEN, HAS_WRITTEN) && Reachable(TwoIncrements(), s)
  {
    s := BothPushed();
    s := FirstPop(s);
    s := SecondPop(s);
    s := BothRead(s);
    s := FirstRun(s);
    s := SecondRun(s);
    s := BothWrite(s);
  }

  lemma BothReturn(s: State) returns (s': State)
    requires s == Running(1, HAS_WRITTEN, HAS_WRITTEN) && Reachable(TwoIncrements(), s)
    ensures Reachable(TwoIncrements(), s') && s'.returned == [0, 1] && s'.exec.store == map[0 := 1]
  {
    s' := ReturnStep(s, 0);
    s' := ReturnStep(s', 1);
    assert [] + [0] + [1] == [0, 1];
  }

  /** Both increments commit, the serial result is 2, and the run leaves 1. */
  lemma OneIncrementIsLost() returns (s: State)
    ensures Reachable(TwoIncrements(), s) && Complete(TwoIncrements(), s)
    ensures s.exec.store == map[0 := 1]
    ensures SerialStore(map[0 := 0], TwoIncrements().txns, 2) == map[0 := 2]
  {
    var mid := BothWritten();
    s := BothReturn(mid);
    assert Complete(TwoIncrements(), s);
    SerialResultIsTwo();
  }
}
