/** The global-lock scheduler as a whole: for which declared sets its runs are serial. */
module GlobalScheduler {
  import opened Transactions
  import opened Execution
  import opened Dependencies
  import opened Iteration
  import opened Stamps
  import opened LateWrites
  import opened GlobalLocks
  import opened GlobalLocksCorrectness

  // As soon as a transaction has run its logic, the scheduler adds no more edges from it,
  // although its writes are still to come.  So any later transaction can overtake its
  // writes, and nobody may touch what it declares to write.

  // ---------- safety ----------

  lemma ReadyMayFollow(c: Config, s: State)
    requires Consistent(c, s) && WritesComeLast(c.txns) && CanDo(c, s, Pop)
    ensures MayFollow(c.txns, s.exec, s.ready[0])
  {
    var t := s.ready[0];
    forall a: TxnId, k: Key | a < t && a < |c.txns| && Reads(c.txns, a, k) && Writes(c.txns, t, k)
      ensures HasRead(s.exec, a)
    {
      assert forall w: TxnId | a + 1 <= w < t :: !Writes(c.txns, w, k) by {
        forall w: TxnId | a + 1 <= w < t ensures !Writes(c.txns, w, k) {
          assert Touches(c.txns, t, k);
        }
      }
      ReadersBeforeWriter(c, s, a, t, k);
    }
  }

  lemma LateKept(c: Config, s: State, act: Action)
    requires Consistent(c, s) && CanDo(c, s, act) && LateSerial(c.init, c.txns, s.exec)
    ensures LateSerial(c.init, c.txns, Next(c, s, act).exec)
  {
    match act
    case Pop =>
      ReadyMayFollow(c, s);
      StepKeepsLate(c.init, c.txns, s.exec, Begin(s.ready[0]));
    case Step(w) => StepKeepsLate(c.init, c.txns, s.exec, w);
    case Finish(t) => StepKeepsLate(c.init, c.txns, s.exec, SetStatus(t));
    case _ =>
  }

  lemma {:induction false} RunLate(c: Config, s: State, acts: seq<Action>, s': State)
    requires Consistent(c, s) && LateSerial(c.init, c.txns, s.exec) && Leads(c, s, acts, s')
    ensures Consistent(c, s') && LateSerial(c.init, c.txns, s'.exec)
    decreases |acts|
  {
    if acts != [] {
      ConsistentKept(c, s, acts[0]);
      LateKept(c, s, acts[0]);
      RunLate(c, Next(c, s, acts[0]), acts[1..], s');
    }
  }

  ghost predicate SerialSoFar(c: Config, s: State) {
    ServedSerially(c.init, c.txns, s.exec, s.returned)
  }

  ghost predicate RunsAreSerial(c: Config) {
    forall s | Reachable(c, s) :: SerialSoFar(c, s)
  }

  lemma LateRunsAreSerial(c: Config)
    requires WellFormed(c.txns) && WritesComeLast(c.txns)
    ensures RunsAreSerial(c)
  {
    forall s | Reachable(c, s) ensures SerialSoFar(c, s) {
      var acts :| Leads(c, Start(c), acts, s);
      StartConsistent(c);
      InitiallyLate(c.init, c.txns);
      RunLate(c, Start(c), acts, s);
      LateIsObservable(c.init, c.txns, s.exec);
      ObservableIsServed(c.init, c.txns, s.exec, s.returned);
    }
  }

  // ---------- a run around the writes of one transaction ----------

  /** Neither the writes nor the end of `a`. */
  ghost predicate ActSpares(act: Action, a: TxnId) {
    (act.Step? ==> Spares(act.w, a)) && act != Finish(a)
  }

  ghost predicate RunSpares(acts: seq<Action>, a: TxnId) {
    forall i | 0 <= i < |acts| :: ActSpares(acts[i], a)
  }

  lemma StepUpTo(c: Config, s: State, a: TxnId) returns (act: Action)
    requires Consistent(c, s) && a < |c.txns| && Within(s, a + 1) && Incomplete(s, a)
    ensures CanDo(c, s, act) && ActSpares(act, a) && Within(Next(c, s, act), a + 1)
    ensures Incomplete(Next(c, s, act), a) || Next(c, s, act).exec.phase[a].Writing?
  {
    act := SomeoneCanMove(c, s, a + 1, {}, a);
    NotWritingYet(c, s, act, a);
  }

  /** As long as the logic of `a` has not run, no step writes for `a` or ends it. */
  lemma NotWritingYet(c: Config, s: State, act: Action, a: TxnId)
    requires CanDo(c, s, act) && Incomplete(s, a)
    ensures ActSpares(act, a)
    ensures Incomplete(Next(c, s, act), a) || Next(c, s, act).exec.phase[a].Writing?
  {
  }

  /** Run until the logic of `a` has run, receiving nothing after `a`. */
  lemma {:induction false} RunUpTo(c: Config, s: State, a: TxnId) returns (acts: seq<Action>, s': State)
    requires WellFormed(c.txns) && Consistent(c, s) && a < |c.txns| && Within(s, a + 1) && Incomplete(s, a)
    ensures Leads(c, s, acts, s') && Consistent(c, s') && RunSpares(acts, a)
    ensures Within(s', a + 1) && s'.exec.phase[a].Writing?
    decreases |c.txns| - s.next, s.linker.Resting?, TodoSize(s.linker), TotalRank(c, s)
  {
    var act := StepUpTo(c, s, a);
    ConsistentKept(c, s, act);
    EveryStepShrinks(c, s, act);
    var rest;
    if Incomplete(Next(c, s, act), a) {
      rest, s' := RunUpTo(c, Next(c, s, act), a);
    } else {
      rest, s' := [], Next(c, s, act);
    }
    acts := [act] + rest;
  }

  /** `a` has run, and nobody waits for it. */
  ghost predicate Passed(s: State, a: TxnId) {
    a < |s.exec.phase| && s.exec.phase[a].Writing? && OutOfTheWay(s, {a})
  }

  lemma PassedKept(c: Config, s: State, act: Action, a: TxnId)
    requires Consistent(c, s) && CanDo(c, s, act) && Passed(s, a) && ActSpares(act, a)
    ensures Passed(Next(c, s, act), a)
  {
    var s' := Next(c, s, act);
    assert a in {a};
    forall b: TxnId ensures !EdgeTo(s', a, b) { EdgesAfter(c, s, act, a, b); }
  }

  lemma NobodyLinkedYet(c: Config, s: State, a: TxnId)
    requires Consistent(c, s) && Within(s, a + 1) && a < |s.exec.phase| && s.exec.phase[a].Writing?
    ensures Passed(s, a)
  {
    assert Started(s, a) && a < s.next;
    forall b: TxnId ensures !EdgeTo(s, a, b) {
      assert EdgeTo(s, a, b) ==> a < b && Known(s, b);
    }
  }

  /** From there on everybody else can finish, with the writes of `a` still to come. */
  lemma {:induction false} RunPast(c: Config, s: State, a: TxnId, b: TxnId) returns (acts: seq<Action>, s': State)
    requires WellFormed(c.txns) && Consistent(c, s) && Passed(s, a) && a != b && b < |c.txns|
    ensures Leads(c, s, acts, s') && Consistent(c, s') && RunSpares(acts, a)
    ensures s'.exec.phase[a].Writing? && Done(s', b)
    decreases |c.txns| - s.next, s.linker.Resting?, TodoSize(s.linker), TotalRank(c, s)
  {
    if Done(s, b) {
      acts, s' := [], s;
    } else {
      var act := SomeoneCanMove(c, s, |c.txns|, {a}, b);
      ConsistentKept(c, s, act);
      EveryStepShrinks(c, s, act);
      PassedKept(c, s, act, a);
      var rest;
      rest, s' := RunPast(c, Next(c, s, act), a, b);
      acts := [act] + rest;
    }
  }

  lemma {:induction false} RunsJoin(c: Config, s: State, acts: seq<Action>, mid: State, more: seq<Action>, s': State)
    requires Leads(c, s, acts, mid) && Leads(c, mid, more, s')
    ensures Leads(c, s, acts + more, s')
    decreases |acts|
  {
    if acts == [] {
      assert acts + more == more;
    } else {
      RunsJoin(c, Next(c, s, acts[0]), acts[1..], mid, more, s');
      assert (acts + more)[1..] == acts[1..] + more;
    }
  }

  lemma RunAround(c: Config, a: TxnId, b: TxnId) returns (acts: seq<Action>, s: State)
    requires WellFormed(c.txns) && a < b < |c.txns|
    ensures Leads(c, Start(c), acts, s) && RunSpares(acts, a)
    ensures Consistent(c, s) && s.exec.phase[a].Writing? && Done(s, b)
  {
    StartConsistent(c);
    var first, mid := RunUpTo(c, Start(c), a);
    NobodyLinkedYet(c, mid, a);
    var more;
    more, s := RunPast(c, mid, a, b);
    RunsJoin(c, Start(c), first, mid, more, s);
    acts := first + more;
  }

  /**
   In every list, any later transaction may be handed back while an earlier one
   still has its writes to apply, whatever the two declare.
   */
  lemma LaterMayOvertake(c: Config, a: TxnId, b: TxnId) returns (s: State)
    requires WellFormed(c.txns) && a < b < |c.txns|
    ensures Reachable(c, s) && |s.exec.phase| == |c.txns|
    ensures s.exec.phase[a].Writing? && b in s.returned
  {
    var acts;
    acts, s := RunAround(c, a, b);
  }

  // ---------- the exact condition ----------

  lemma {:induction false} StampFreeRun(c: Config, txns: seq<Txn>, s: State, acts: seq<Action>, s': State, a: TxnId)
    requires c.txns == Stamped(txns) && StampFree(s.exec, a) && Leads(c, s, acts, s') && RunSpares(acts, a)
    ensures StampFree(s'.exec, a)
    decreases |acts|
  {
    if acts != [] {
      assert ActSpares(acts[0], a);
      match acts[0] {
        case Pop => WorkKeepsStampFree(txns, s.exec, Begin(s.ready[0]), a);
        case Step(w) => WorkKeepsStampFree(txns, s.exec, w, a);
        case Finish(t) => WorkKeepsStampFree(txns, s.exec, SetStatus(t), a);
        case _ =>
      }
      assert forall i | 0 <= i < |acts[1..]| :: acts[1..][i] == acts[i + 1];
      StampFreeRun(c, txns, Next(c, s, acts[0]), acts[1..], s', a);
    }
  }

  lemma {:induction false} LastWriterBefore(txns: seq<Txn>, k: Key, a: TxnId, b: TxnId) returns (w: TxnId)
    requires a < b && Writes(txns, a, k)
    ensures a <= w < b && Writes(txns, w, k) && NoWriterIn(txns, k, w + 1, b)
    decreases b
  {
    if Writes(txns, b - 1, k) {
      w := b - 1;
    } else {
      w := LastWriterBefore(txns, k, a, b - 1);
    }
  }

  /** All transactions with these sets run serially under this scheduler, from any store. */
  ghost predicate SerialForAllLogic(declared: seq<Txn>) {
    forall init: Store, txns: seq<Txn> | SameSets(declared, txns) && WellFormed(txns) ::
      RunsAreSerial(Config(init, txns))
  }

  lemma EarlierWriterGoesWrong(txns: seq<Txn>, first: TxnId, b: TxnId, k: Key)
    requires first < b < |txns| && Writes(txns, first, k) && Touches(txns, b, k)
    ensures !SerialForAllLogic(txns)
  {
    var a := LastWriterBefore(txns, k, first, b);
    var c := Config(map[], Stamped(txns));
    StampedWellFormed(txns);
    var acts, s := RunAround(c, a, b);
    assert Reachable(c, s);
    StampFreeRun(c, txns, Start(c), acts, s, a);
    StampFreeReadsDiffer(txns, s.exec, c.init, a, b, k);
    assert !SerialSoFar(c, s);
    assert !RunsAreSerial(c);
  }

  lemma SameSetsSameOrder(txns: seq<Txn>, txns': seq<Txn>)
    requires SameSets(txns, txns') && WritesComeLast(txns)
    ensures WritesComeLast(txns')
  {
    forall a: TxnId, b: TxnId, k: Key | a < b && Writes(txns', a, k) ensures !Touches(txns', b, k) {
      assert Writes(txns, a, k) && !Touches(txns, b, k);
    }
  }

  /** The exact condition: nobody touches a key that an earlier transaction declares to write. */
  lemma GlobalSerialIff(txns: seq<Txn>)
    ensures SerialForAllLogic(txns) <==> WritesComeLast(txns)
  {
    if WritesComeLast(txns) {
      forall init: Store, other: seq<Txn> | SameSets(txns, other) && WellFormed(other)
        ensures RunsAreSerial(Config(init, other))
      {
        SameSetsSameOrder(txns, other);
        LateRunsAreSerial(Config(init, other));
      }
    } else {
      var a: TxnId, b: TxnId, k: Key :| a < b && Writes(txns, a, k) && Touches(txns, b, k);
      EarlierWriterGoesWrong(txns, a, b, k);
    }
  }
}
