/**
 A graph that leaves a conflict with a writer uncovered admits a wrong run: the
 writer is held right after it was popped, and the reader goes on.
 */
module DagNecessity {
  import opened Transactions
  import opened Execution
  import opened Dependencies
  import opened DagExecution
  import opened DagCorrectness
  import opened Stamps

  lemma HeldKept(c: Config, txns: seq<Txn>, s: State, act: Action, a: TxnId)
    requires c.txns == Stamped(txns) && Consistent(c, s) && CanDo(c, s, act) && Held(s.exec, a)
    requires ByWorker(act) && !act.Pop? ==> Actor(s, act) != a
    ensures Held(Next(c, s, act).exec, a)
  {
    match act
    case Pop => WorkKeepsHeld(txns, s.exec, Begin(s.ready[0]), a);
    case Step(w) => WorkKeepsHeld(txns, s.exec, w, a);
    case Finish(t) => WorkKeepsHeld(txns, s.exec, SetStatus(t), a);
    case _ =>
  }

  /** Let everybody but the holder of `a` go on until `b` is final. */
  lemma {:induction false} RunAround(c: Config, txns: seq<Txn>, s: State, a: TxnId, b: TxnId)
    returns (acts: seq<Action>, s': State)
    requires c.txns == Stamped(txns) && Consistent(c, s) && NoSelfEdge(c) && Held(s.exec, a)
    requires s.lo <= a < s.hi && s.lo <= b < s.hi && !Reaches(c.g, a, b)
    ensures Leads(c, s, acts, s') && Consistent(c, s') && Held(s'.exec, a) && Final(s', b)
    decreases |c.txns| - s.hi, Open(s), |s.dag.roots|, TotalRank(c, s)
  {
    if Final(s, b) {
      acts, s' := [], s;
    } else {
      var act := SomeoneCanMove(c, s, {a}, b);
      ConsistentKept(c, s, act);
      EveryStepShrinks(c, s, act);
      HeldKept(c, txns, s, act, a);
      var rest;
      rest, s' := RunAround(c, txns, Next(c, s, act), a, b);
      acts := [act] + rest;
    }
  }

  lemma FirstAndRest(c: Config, s: State, first: Action, acts: seq<Action>, s': State)
    requires CanDo(c, s, first) && Leads(c, Next(c, s, first), acts, s')
    ensures Leads(c, s, [first] + acts, s')
  {
    assert ([first] + acts)[1..] == acts;
  }

  /** One epoch with all transactions, `a` held while `b` finishes. */
  lemma OneEpochAround(txns: seq<Txn>, c: Config, a: TxnId, b: TxnId) returns (s: State)
    requires c == Config(map[], Stamped(txns), c.g) && ValidConfig(c) && NoSelfEdge(c)
    requires a < |txns| && b < |txns| && !Reaches(c.g, a, b)
    ensures Reachable(c, s) && Held(s.exec, a) && Final(s, b) && |s.exec.phase| == |txns|
  {
    var s0, first := Start(c), OpenEpoch(|txns|);
    StartConsistent(c);
    NothingStamped(c.init, txns, a);
    ConsistentKept(c, s0, first);
    var acts;
    acts, s := RunAround(c, txns, Next(c, s0, first), a, b);
    FirstAndRest(c, s0, first, acts, s);
  }

  /**
   If `b` touches `k` after its last writer `a` and no path leads from `a` to
   `b`, some transactions with these sets have a run in which `b` is final
   with reads the serial run does not have.
   */
  lemma UncoveredConflictGoesWrong(txns: seq<Txn>, g: Graph, a: TxnId, b: TxnId, k: Key)
    returns (c: Config, s: State)
    requires ValidConfig(Config(map[], Stamped(txns), g)) && NoSelfEdge(Config(map[], Stamped(txns), g))
    requires a < b < |txns| && Writes(txns, a, k) && Touches(txns, b, k) && NoWriterIn(txns, k, a + 1, b)
    requires !Reaches(g, a, b)
    ensures SameSets(txns, c.txns) && ValidConfig(c) && c.g == g
    ensures Reachable(c, s) && |s.exec.phase| == |c.txns| && Final(s, b)
    ensures ResultOf(c.txns, s.exec, b) != SerialResult(c.init, c.txns, b)
  {
    c := Config(map[], Stamped(txns), g);
    s := OneEpochAround(txns, c, a, b);
    StampedWellFormed(txns);
    HeldReadsDiffer(txns, s.exec, c.init, a, b, k);
  }
}
