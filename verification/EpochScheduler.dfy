/**
 The epoch scheduler as a whole: when its runs are serial, when its epochs end,
 and what the one kind of edge it leaves out is worth.
 */
module EpochScheduler {
  import opened Transactions
  import opened Execution
  import opened Dependencies
  import opened DagExecution
  import opened DagCorrectness
  import opened DagNecessity
  import opened Stamps

  ghost predicate RunsAreSerial(c: Config) {
    forall s | Reachable(c, s) :: SerialSoFar(c, s)
  }

  lemma CoveredRunsAreSerial(c: Config)
    requires ValidConfig(c) && Covers(c.txns, c.g)
    ensures RunsAreSerial(c)
  {
    forall s | Reachable(c, s) ensures SerialSoFar(c, s) {
      var acts :| Leads(c, Start(c), acts, s);
      CoveredRunIsSerial(c, acts, s);
    }
  }

  /** The notebook graph makes every run serial, for all transactions. */
  lemma NotebookRunsAreSerial(init: Store, txns: seq<Txn>)
    requires WellFormed(txns)
    ensures RunsAreSerial(Config(init, txns, NotebookGraph(txns)))
  {
    NotebookCovers(txns);
    CoveredRunsAreSerial(Config(init, txns, NotebookGraph(txns)));
  }

  /** The epoch graph makes every run serial if each two consecutive writers of a key have a reader between them. */
  lemma ReadersBetweenSuffice(init: Store, txns: seq<Txn>)
    requires WellFormed(txns)
    requires forall a: TxnId, b: TxnId :: !BlindPair(txns, a, b)
    ensures RunsAreSerial(Config(init, txns, EpochGraph(txns)))
  {
    EpochCoversIff(txns);
    CoveredRunsAreSerial(Config(init, txns, EpochGraph(txns)));
  }

  // ---------- the exact condition ----------

  lemma SameSetsSameEdges(txns: seq<Txn>, txns': seq<Txn>, a: TxnId, b: TxnId)
    requires SameSets(txns, txns')
    ensures EpochEdge(txns, a, b) <==> EpochEdge(txns', a, b)
    ensures BlindPair(txns, a, b) <==> BlindPair(txns', a, b)
  {
    assert forall t: TxnId, k: Key :: Writes(txns, t, k) <==> Writes(txns', t, k);
    assert forall t: TxnId, k: Key :: Reads(txns, t, k) <==> Reads(txns', t, k);
    forall k ensures EpochEdgeOn(txns, a, b, k) <==> EpochEdgeOn(txns', a, b, k)
             ensures BlindPairOn(txns, a, b, k) <==> BlindPairOn(txns', a, b, k) {
      assert forall lo: nat, hi: nat :: NoWriterIn(txns, k, lo, hi) <==> NoWriterIn(txns', k, lo, hi);
      assert forall lo: nat, hi: nat :: NoReaderIn(txns, k, lo, hi) <==> NoReaderIn(txns', k, lo, hi);
    }
  }

  lemma SameSetsSameGraph(txns: seq<Txn>, txns': seq<Txn>)
    requires SameSets(txns, txns')
    ensures EpochGraph(txns) == EpochGraph(txns')
  {
    forall b: TxnId | b < |txns| ensures EpochGraph(txns)[b] == EpochGraph(txns')[b] {
      forall a: TxnId ensures a in EpochGraph(txns)[b] <==> a in EpochGraph(txns')[b] {
        SameSetsSameEdges(txns, txns', a, b);
      }
    }
  }

  /** A transaction waits for itself exactly when it declares a key in both sets. */
  lemma SelfEdgeIffOverlap(txns: seq<Txn>, b: TxnId)
    requires b < |txns|
    ensures b in EpochGraph(txns)[b] <==> !txns[b].Disjoint()
  {
    if b in EpochGraph(txns)[b] {
      var k :| EpochEdgeOn(txns, b, b, k);
      assert k in txns[b].readset && k in txns[b].writeset;
    }
    if !txns[b].Disjoint() {
      var k :| k in txns[b].readset && k in txns[b].writeset;
      assert EpochEdgeOn(txns, b, b, k);
      assert EpochEdge(txns, b, b);
    }
  }

  lemma DisjointMeansNoSelfEdge(init: Store, txns: seq<Txn>)
    ensures NoSelfEdge(Config(init, txns, EpochGraph(txns))) <==> AllDisjoint(txns)
  {
    var c := Config(init, txns, EpochGraph(txns));
    forall b: TxnId | b < |txns| ensures b in c.g[b] <==> !txns[b].Disjoint() {
      SelfEdgeIffOverlap(txns, b);
    }
    if NoSelfEdge(c) {
      forall t | 0 <= t < |txns| ensures txns[t].Disjoint() { assert t !in c.g[t]; }
    }
  }

  /** All transactions with these sets run serially under the epoch scheduler, from any store. */
  ghost predicate SerialForAllLogic(declared: seq<Txn>) {
    forall init: Store, txns: seq<Txn> | SameSets(declared, txns) && WellFormed(txns) ::
      RunsAreSerial(Config(init, txns, EpochGraph(txns)))
  }

  /** Every two consecutive writers of a key with no reader between them are linked through other keys. */
  ghost predicate BlindPairsLinked(txns: seq<Txn>) {
    forall a: TxnId, b: TxnId | BlindPair(txns, a, b) :: Reaches(EpochGraph(txns), a, b)
  }

  lemma UnlinkedPairGoesWrong(txns: seq<Txn>, a: TxnId, b: TxnId)
    requires AllDisjoint(txns) && BlindPair(txns, a, b) && !Reaches(EpochGraph(txns), a, b)
    ensures !SerialForAllLogic(txns)
  {
    var g := EpochGraph(txns);
    StampedWellFormed(txns);
    DisjointMeansNoSelfEdge(map[], txns);
    assert NoSelfEdge(Config(map[], txns, g));
    var k :| BlindPairOn(txns, a, b, k);
    var c, s := UncoveredConflictGoesWrong(txns, g, a, b, k);
    SameSetsSameGraph(txns, c.txns);
    assert c == Config(c.init, c.txns, EpochGraph(c.txns));
    assert !SerialSoFar(c, s);
    assert !RunsAreSerial(c);
  }

  /** The exact condition: it depends on the declared sets only, so a client can check it before submitting. */
  lemma EpochSerialIff(txns: seq<Txn>)
    requires AllDisjoint(txns)
    ensures SerialForAllLogic(txns) <==> BlindPairsLinked(txns)
  {
    if BlindPairsLinked(txns) {
      EpochCoversIff(txns);
      forall init: Store, other: seq<Txn> | SameSets(txns, other) && WellFormed(other)
        ensures RunsAreSerial(Config(init, other, EpochGraph(other)))
      {
        SameSetsSameGraph(txns, other);
        SameConflicts(txns, other);
        CoveredRunsAreSerial(Config(init, other, EpochGraph(other)));
      }
    } else {
      var a: TxnId, b: TxnId :| BlindPair(txns, a, b) && !Reaches(EpochGraph(txns), a, b);
      UnlinkedPairGoesWrong(txns, a, b);
    }
  }

  /** Every epoch can be brought to its end exactly when no transaction declares a key in both sets. */
  lemma EpochsEndIff(init: Store, txns: seq<Txn>)
    requires WellFormed(txns)
    ensures AllDisjoint(txns)
       <==> exists s :: Reachable(Config(init, txns, EpochGraph(txns)), s) && Complete(Config(init, txns, EpochGraph(txns)), s)
  {
    DisjointMeansNoSelfEdge(init, txns);
    CompletesIff(Config(init, txns, EpochGraph(txns)));
  }
}
