/** The individual-lock scheduler as a whole: for which declared sets its runs are serial. */
module IndividualScheduler {
  import opened Transactions
  import opened Execution
  import opened Dependencies
  import opened Stamps
  import opened IndividualLocks
  import opened IndividualLocksInvariant
  import opened IndividualLocksCorrectness

  // If two consecutive writers of a key are not linked, the first can be held in its worker
  // right after it was popped while everything not behind it goes on; the second then reads
  // the key without the first one's write.

  ghost predicate RunsAreSerial(c: Config) {
    forall s | Reachable(c, s) :: SerialSoFar(c, s)
  }

  lemma CoveredRunsAreSerial(c: Config)
    requires ValidConfig(c) && Covers(c.txns, GraphOf(c))
    ensures RunsAreSerial(c)
  {
    forall s | Reachable(c, s) ensures SerialSoFar(c, s) {
      CoveredRunIsSerial(c, s);
    }
  }

  /** Whatever is executing has every earlier conflicting transaction final, with its writes applied. */
  lemma ConflictsAreBehind(c: Config, s: State, a: TxnId, b: TxnId)
    requires ValidConfig(c) && Reachable(c, s)
    requires forall x: TxnId, y: TxnId :: !StalePair(c.txns, x, y)
    requires a < b < |c.txns| && Conflict(c.txns, a, b) && !Unstarted(s, b)
    ensures |s.exec.phase| == |c.txns| && Final(s, a)
    ensures ResultOf(c.txns, s.exec, a) == SerialResult(c.init, c.txns, a)
  {
    IndivCoversIff(c.txns);
    CoveredRunIsSerial(c, s);
    assert s.exec.phase[a].Finished?;
  }

  /** A reader between, or no reader ever before, each two consecutive writers of a key is enough. */
  lemma NoStalePairSuffices(c: Config)
    requires ValidConfig(c) && forall x: TxnId, y: TxnId :: !StalePair(c.txns, x, y)
    ensures RunsAreSerial(c)
  {
    IndivCoversIff(c.txns);
    CoveredRunsAreSerial(c);
  }

  // ---------- the run around a held transaction ----------

  lemma HeldKept(c: Config, txns: seq<Txn>, s: State, act: Action, a: TxnId)
    requires c.txns == Stamped(txns) && Consistent(c, s) && CanDo(c, s, act) && Held(s.exec, a)
    requires !ByScheduler(act) && !act.Pop? ==> Actor(s, act) != a
    ensures Held(Next(c, s, act).exec, a)
  {
    match act
    case Pop => WorkKeepsHeld(txns, s.exec, Begin(s.ready[0]), a);
    case Step(w) => WorkKeepsHeld(txns, s.exec, w, a);
    case Finish(t) => WorkKeepsHeld(txns, s.exec, SetStatus(t), a);
    case _ =>
  }

  lemma {:induction false} RunAround(c: Config, txns: seq<Txn>, s: State, a: TxnId, b: TxnId)
    returns (acts: seq<Action>, s': State)
    requires c.txns == Stamped(txns) && Consistent(c, s) && Held(s.exec, a)
    requires b < |txns| && !Reaches(GraphOf(c), a, b)
    ensures Leads(c, s, acts, s') && Consistent(c, s') && Held(s'.exec, a) && Final(s', b)
    decreases |c.txns| - s.next, s.linker.Resting?, TodoSize(s.linker), StageRank(s.linker), TotalRank(c, s)
  {
    if Final(s, b) {
      acts, s' := [], s;
    } else {
      var act := SomeoneCanMove(c, s, {a}, b);
      ConsistentKept(c, s, act);
      EveryStepShrinks(c, s, act);
      HeldKept(c, txns, s, act, a);
      var rest;
      rest, s' := RunAround(c, txns, Next(c, s, act), a, b);
      acts := [act] + rest;
    }
  }

  // ---------- the exact condition ----------

  lemma SameSetsSameEdges(txns: seq<Txn>, txns': seq<Txn>, a: TxnId, b: TxnId)
    requires SameSets(txns, txns')
    ensures IndivEdge(txns, a, b) <==> IndivEdge(txns', a, b)
  {
    assert forall t: TxnId, k: Key :: Writes(txns, t, k) <==> Writes(txns', t, k);
    assert forall t: TxnId, k: Key :: Reads(txns, t, k) <==> Reads(txns', t, k);
    forall k: Key ensures IndivEdgeOn(txns, a, b, k) <==> IndivEdgeOn(txns', a, b, k) {
      assert forall lo: nat, hi: nat :: NoWriterIn(txns, k, lo, hi) <==> NoWriterIn(txns', k, lo, hi);
      assert forall lo: nat, hi: nat :: NoReaderIn(txns, k, lo, hi) <==> NoReaderIn(txns', k, lo, hi);
    }
  }

  lemma SameSetsSameGraph(txns: seq<Txn>, txns': seq<Txn>)
    requires SameSets(txns, txns')
    ensures IndivGraph(txns) == IndivGraph(txns')
  {
    forall b: TxnId | b < |txns| ensures IndivGraph(txns)[b] == IndivGraph(txns')[b] {
      forall a: TxnId ensures a in IndivGraph(txns)[b] <==> a in IndivGraph(txns')[b] {
        SameSetsSameEdges(txns, txns', a, b);
      }
    }
  }

  /** All transactions with these sets run serially under this scheduler, from any store. */
  ghost predicate SerialForAllLogic(declared: seq<Txn>) {
    forall init: Store, txns: seq<Txn> | SameSets(declared, txns) && WellFormed(txns) ::
      RunsAreSerial(Config(init, txns))
  }

  /** Consecutive writers of a key, the first of them after its last reader, are linked through other keys. */
  ghost predicate StalePairsLinked(txns: seq<Txn>) {
    forall a: TxnId, b: TxnId | StalePair(txns, a, b) :: Reaches(IndivGraph(txns), a, b)
  }

  lemma UnlinkedPairGoesWrong(txns: seq<Txn>, a: TxnId, b: TxnId)
    requires StalePair(txns, a, b) && !Reaches(IndivGraph(txns), a, b)
    ensures !SerialForAllLogic(txns)
  {
    var k: Key :| StalePairOn(txns, a, b, k);
    var c := Config(map[], Stamped(txns));
    StampedWellFormed(txns);
    SameSetsSameGraph(txns, c.txns);
    StartConsistent(c);
    NothingStamped(c.init, txns, a);
    var acts, s := RunAround(c, txns, Start(c), a, b);
    assert Reachable(c, s);
    HeldReadsDiffer(txns, s.exec, c.init, a, b, k);
    assert !SerialSoFar(c, s);
    assert !RunsAreSerial(c);
  }

  /** The exact condition; it depends on the declared sets only. */
  lemma IndividualSerialIff(txns: seq<Txn>)
    ensures SerialForAllLogic(txns) <==> StalePairsLinked(txns)
  {
    if StalePairsLinked(txns) {
      IndivCoversIff(txns);
      forall init: Store, other: seq<Txn> | SameSets(txns, other) && WellFormed(other)
        ensures RunsAreSerial(Config(init, other))
      {
        SameSetsSameGraph(txns, other);
        SameConflicts(txns, other);
        CoveredRunsAreSerial(Config(init, other));
      }
    } else {
      var a: TxnId, b: TxnId :| StalePair(txns, a, b) && !Reaches(IndivGraph(txns), a, b);
      UnlinkedPairGoesWrong(txns, a, b);
    }
  }

  // ---------- a list the scheduler gets wrong ----------

  ghost function Constant(o: Outcome): Store -> Outcome {
    _ => o
  }

  /** One transaction reads a key, then two transactions write it. */
  ghost function ReadThenTwoWrites(k: Key): seq<Txn> {
    [Txn({k}, {}, Constant(Outcome(true, map[]))),
     Txn({}, {k}, Constant(Outcome(true, map[k := 1]))),
     Txn({}, {k}, Constant(Outcome(true, map[k := 2])))]
  }

  /** The second writer finds an empty set of readers and does not look at the first. */
  lemma SecondWriterIsUnordered(k: Key)
    ensures WellFormed(ReadThenTwoWrites(k)) && AllDisjoint(ReadThenTwoWrites(k))
    ensures !SerialForAllLogic(ReadThenTwoWrites(k))
    ensures SerialForAllLogic(ReadThenTwoWrites(k)[1..])
  {
    var txns := ReadThenTwoWrites(k);
    assert txns[0].WritesDeclared() && txns[1].WritesDeclared() && txns[2].WritesDeclared();
    assert Reads(txns, 0, k);
    assert StalePairOn(txns, 1, 2, k);
    NoEdgeBetweenWriters(k);
    UnlinkedPairGoesWrong(txns, 1, 2);
    TwoWritesAlone(k);
    IndividualSerialIff(txns[1..]);
  }

  lemma NoEdgeBetweenWriters(k: Key)
    ensures StalePair(ReadThenTwoWrites(k), 1, 2) && !Reaches(IndivGraph(ReadThenTwoWrites(k)), 1, 2)
  {
    var txns := ReadThenTwoWrites(k);
    assert Reads(txns, 0, k);
    assert StalePairOn(txns, 1, 2, k);
    forall key: Key ensures !IndivEdgeOn(txns, 1, 2, key) {}
    assert 1 !in IndivGraph(txns)[2];
    if Reaches(IndivGraph(txns), 1, 2) {
      var x: TxnId :| x in IndivGraph(txns)[2] && x < 2 && Reaches(IndivGraph(txns), 1, x);
      ReachesForward(IndivGraph(txns), 1, x);
      assert false;
    }
  }

  /** Without the reader in front, the second writer looks at the first one. */
  lemma TwoWritesAlone(k: Key)
    ensures StalePairsLinked(ReadThenTwoWrites(k)[1..])
  {
    var txns := ReadThenTwoWrites(k)[1..];
    forall a: TxnId, b: TxnId ensures !StalePair(txns, a, b) {
      forall key: Key ensures !StalePairOn(txns, a, b, key) {
        assert forall r: TxnId :: !Reads(txns, r, key);
      }
    }
  }
}
