/**
 Transactions running side by side against one store: what all schedulers have
 in common.
 */
module Execution {
  import opened Transactions
  import opened Iteration

  // Workers read the footprint key by key, run the logic on what they saw, write the
  // buffer back key by key, and set the final status; the steps of different
  // transactions interleave freely.  As long as nothing starts before the earlier
  // transactions it conflicts with are final, every interleaving reads and leaves
  // exactly what serial execution in arrival order would.

  datatype Phase =
    | Idle                                   // not yet started
    | Reading(seen: Store, left: set<Key>)   // keys still to be read
    | Writing(seen: Store, buffer: Store)    // logic has run; writes still to be applied
    | Finished(seen: Store)                  // status is COMMITTED or ABORTED

  datatype Exec = Exec(store: Store, phase: seq<Phase>)

  datatype Work =
    | Begin(t: TxnId)
    | ReadKey(t: TxnId, k: Key)
    | RunLogic(t: TxnId)
    | WriteKey(t: TxnId, k: Key)
    | SetStatus(t: TxnId)

  ghost predicate Enabled(txns: seq<Txn>, e: Exec, w: Work) {
    && |e.phase| == |txns|
    && w.t < |txns|
    && match w {
         case Begin(t) => e.phase[t].Idle?
         case ReadKey(t, k) => e.phase[t].Reading? && k in e.phase[t].left
         case RunLogic(t) => e.phase[t].Reading? && e.phase[t].left == {}
         case WriteKey(t, k) => e.phase[t].Writing? && k in e.phase[t].buffer
         case SetStatus(t) => e.phase[t].Writing? && e.phase[t].buffer == map[]
       }
  }

  /** The new phase of the transaction that does the work. */
  ghost function NextPhase(txns: seq<Txn>, e: Exec, w: Work): Phase
    requires Enabled(txns, e, w)
  {
    var phase := e.phase[w.t];
    match w
    case Begin(t) => Reading(map[], txns[t].Footprint())
    case ReadKey(_, k) =>
      Reading(if k in e.store then phase.seen[k := e.store[k]] else phase.seen, phase.left - {k})
    case RunLogic(t) => Writing(phase.seen, txns[t].Effects(phase.seen))
    case WriteKey(_, k) => Writing(phase.seen, phase.buffer - {k})
    case SetStatus(_) => Finished(phase.seen)
  }

  ghost function NextStore(txns: seq<Txn>, e: Exec, w: Work): Store
    requires Enabled(txns, e, w)
  {
    match w
    case WriteKey(t, k) => e.store[k := e.phase[t].buffer[k]]
    case _ => e.store
  }

  ghost function Do(txns: seq<Txn>, e: Exec, w: Work): (e': Exec)
    requires Enabled(txns, e, w)
    ensures |e'.phase| == |e.phase|
  {
    Exec(NextStore(txns, e, w), e.phase[w.t := NextPhase(txns, e, w)])
  }

  ghost function Initial(init: Store, txns: seq<Txn>): Exec {
    Exec(init, seq(|txns|, _ => Idle))
  }

  /** The condition a scheduler has to keep: a started transaction has its earlier conflicts behind it. */
  ghost predicate Gated(txns: seq<Txn>, e: Exec)
    requires |e.phase| == |txns|
  {
    forall j: TxnId, t: TxnId | j < t < |txns| && Conflict(txns, j, t) ::
      !e.phase[t].Idle? ==> e.phase[j].Finished?
  }

  /** The conflict condition at the moment `t` starts. */
  ghost predicate MayBegin(txns: seq<Txn>, e: Exec, t: TxnId)
    requires |e.phase| == |txns|
  {
    t < |txns| && forall j: TxnId | j < t && Conflict(txns, j, t) :: e.phase[j].Finished?
  }

  /** Transaction `t` will not touch key `k` of the store any more, having passed its write of `k`. */
  ghost predicate Applied(e: Exec, t: TxnId, k: Key)
    requires t < |e.phase|
  {
    e.phase[t].Finished? || (e.phase[t].Writing? && k !in e.phase[t].buffer)
  }

  /** For key `k`, exactly the writers among the first `p` transactions are through. */
  ghost predicate Boundary(txns: seq<Txn>, e: Exec, k: Key, p: nat)
    requires |e.phase| == |txns|
  {
    && p <= |txns|
    && forall w: TxnId | w < |txns| && Writes(txns, w, k) :: Applied(e, w, k) <==> w < p
  }

  ghost predicate StoreIsSerial(init: Store, txns: seq<Txn>, e: Exec)
    requires |e.phase| == |txns|
  {
    forall k: Key, p: nat | Boundary(txns, e, k, p) :: SameAt(e.store, SerialStore(init, txns, p), k)
  }

  /** What `t` has read so far is what it reads in the serial run, and its buffer follows from it. */
  ghost predicate ReadsAreSerial(init: Store, txns: seq<Txn>, e: Exec, t: TxnId)
    requires |e.phase| == |txns| && t < |txns|
  {
    match e.phase[t]
    case Idle => true
    case Reading(seen, left) =>
      && left <= txns[t].Footprint()
      && seen == Snapshot(SerialStore(init, txns, t), txns[t].Footprint() - left)
    case Writing(seen, buffer) =>
      && seen == SerialReads(init, txns, t)
      && buffer.Keys <= txns[t].Effects(seen).Keys
      && forall k | k in buffer :: buffer[k] == txns[t].Effects(seen)[k]
    case Finished(seen) => seen == SerialReads(init, txns, t)
  }

  ghost predicate Serial(init: Store, txns: seq<Txn>, e: Exec) {
    && |e.phase| == |txns|
    && WellFormed(txns)
    && Gated(txns, e)
    && StoreIsSerial(init, txns, e)
    && forall t | 0 <= t < |txns| :: ReadsAreSerial(init, txns, e, t)
  }

  lemma InitiallySerial(init: Store, txns: seq<Txn>)
    requires WellFormed(txns)
    ensures Serial(init, txns, Initial(init, txns))
  {
    var e := Initial(init, txns);
    forall k: Key, p: nat | Boundary(txns, e, k, p) ensures SameAt(e.store, SerialStore(init, txns, p), k) {
      UnwrittenKeyUnchanged(init, txns, k, 0, p);
    }
  }

  /** While `t` runs, earlier writers of a key it touches are final and later ones have not started. */
  lemma RunningIsAlone(txns: seq<Txn>, e: Exec, t: TxnId, k: Key, w: TxnId)
    requires |e.phase| == |txns| && Gated(txns, e)
    requires Touches(txns, t, k) && Writes(txns, w, k) && w != t
    requires !e.phase[t].Idle? && !e.phase[t].Finished?
    ensures w < t ==> e.phase[w].Finished?
    ensures t < w ==> e.phase[w].Idle?
  {
    assert ConflictOn(txns, w, t, k) && ConflictOn(txns, t, w, k);
    assert Conflict(txns, w, t) && Conflict(txns, t, w);
  }

  lemma BeforeOwnWrite(init: Store, txns: seq<Txn>, e: Exec, t: TxnId, k: Key)
    requires Serial(init, txns, e)
    requires Touches(txns, t, k)
    requires !e.phase[t].Idle? && !e.phase[t].Finished? && !Applied(e, t, k)
    ensures SameAt(e.store, SerialStore(init, txns, t), k)
  {
    forall w: TxnId | w < |txns| && Writes(txns, w, k) ensures Applied(e, w, k) <==> w < t {
      if w != t { RunningIsAlone(txns, e, t, k, w); }
    }
    assert Boundary(txns, e, k, t);
  }

  /** Once a running `t` has passed its write of `k`, the next serial store already tells the value of `k`. */
  lemma AfterOwnWrite(init: Store, txns: seq<Txn>, e: Exec, t: TxnId, k: Key, p: nat)
    requires |e.phase| == |txns| && WellFormed(txns) && Gated(txns, e)
    requires Writes(txns, t, k) && e.phase[t].Writing? && Applied(e, t, k)
    requires Boundary(txns, e, k, p)
    ensures t < p
    ensures SameAt(SerialStore(init, txns, t + 1), SerialStore(init, txns, p), k)
  {
    forall w: TxnId | t + 1 <= w < p ensures !Writes(txns, w, k) {
      if Writes(txns, w, k) { RunningIsAlone(txns, e, t, k, w); }
    }
    UnwrittenKeyUnchanged(init, txns, k, t + 1, p);
  }

  lemma GateStep(txns: seq<Txn>, e: Exec, w: Work)
    requires |e.phase| == |txns| && Gated(txns, e) && Enabled(txns, e, w)
    requires w.Begin? ==> MayBegin(txns, e, w.t)
    ensures Gated(txns, Do(txns, e, w))
  {
  }

  lemma ReadsStep(init: Store, txns: seq<Txn>, e: Exec, w: Work, t: TxnId)
    requires Serial(init, txns, e) && Enabled(txns, e, w) && t < |txns|
    ensures ReadsAreSerial(init, txns, Do(txns, e, w), t)
  {
    assert ReadsAreSerial(init, txns, e, t);
    if t == w.t {
      match w
      case Begin(_) =>
        assert txns[t].Footprint() - txns[t].Footprint() == {};
      case ReadKey(_, k) =>
        BeforeOwnWrite(init, txns, e, t, k);
      case RunLogic(_) =>
        assert txns[t].Footprint() - {} == txns[t].Footprint();
      case WriteKey(_, k) =>
      case SetStatus(_) =>
    }
  }

  lemma StoreStep(init: Store, txns: seq<Txn>, e: Exec, w: Work, k: Key, p: nat)
    requires Serial(init, txns, e) && Enabled(txns, e, w)
    requires Gated(txns, Do(txns, e, w))
    requires Boundary(txns, Do(txns, e, w), k, p)
    ensures SameAt(Do(txns, e, w).store, SerialStore(init, txns, p), k)
  {
    var e', t := Do(txns, e, w), w.t;
    assert ReadsAreSerial(init, txns, e, t);
    if Writes(txns, t, k) && Applied(e', t, k) && !Applied(e, t, k) {
      BeforeOwnWrite(init, txns, e, t, k);
      AfterOwnWrite(init, txns, e', t, k, p);
      assert txns[t].Footprint() - {} == txns[t].Footprint();
    } else {
      UnmovedBoundary(init, txns, e, w, k, p);
    }
  }

  lemma UnmovedBoundary(init: Store, txns: seq<Txn>, e: Exec, w: Work, k: Key, p: nat)
    requires Serial(init, txns, e) && Enabled(txns, e, w)
    requires Boundary(txns, Do(txns, e, w), k, p)
    requires Writes(txns, w.t, k) && Applied(Do(txns, e, w), w.t, k) ==> Applied(e, w.t, k)
    ensures SameAt(Do(txns, e, w).store, SerialStore(init, txns, p), k)
  {
    var e' := Do(txns, e, w);
    assert ReadsAreSerial(init, txns, e, w.t) && txns[w.t].WritesDeclared();
    forall u: TxnId | u < |txns| && Writes(txns, u, k) ensures Applied(e, u, k) <==> u < p {
      assert Applied(e', u, k) <==> u < p;
    }
    assert Boundary(txns, e, k, p);
  }

  /** One step of any worker keeps everything serial, provided the scheduler kept the gate. */
  lemma StepKeepsSerial(init: Store, txns: seq<Txn>, e: Exec, w: Work)
    requires Serial(init, txns, e) && Enabled(txns, e, w)
    requires w.Begin? ==> MayBegin(txns, e, w.t)
    ensures Serial(init, txns, Do(txns, e, w))
  {
    var e' := Do(txns, e, w);
    GateStep(txns, e, w);
    forall k: Key, p: nat | Boundary(txns, e', k, p) ensures SameAt(e'.store, SerialStore(init, txns, p), k) {
      StoreStep(init, txns, e, w, k, p);
    }
    forall t | 0 <= t < |txns| ensures ReadsAreSerial(init, txns, e', t) {
      ReadsStep(init, txns, e, w, t);
    }
  }

  /** The result a finished transaction hands to the client. */
  ghost function ResultOf(txns: seq<Txn>, e: Exec, t: TxnId): Result
    requires |e.phase| == |txns| && t < |txns| && e.phase[t].Finished?
  {
    Result(t, txns[t].logic(e.phase[t].seen).commit, e.phase[t].seen)
  }

  /** What the client can observe is what serial execution shows. */
  ghost predicate Observably(init: Store, txns: seq<Txn>, e: Exec) {
    && |e.phase| == |txns|
    && (forall t | 0 <= t < |txns| && e.phase[t].Finished? :: ResultOf(txns, e, t) == SerialResult(init, txns, t))
    && ((forall t | 0 <= t < |txns| :: e.phase[t].Finished?) ==> e.store == SerialStore(init, txns, |txns|))
  }

  lemma SerialIsObservable(init: Store, txns: seq<Txn>, e: Exec)
    requires Serial(init, txns, e)
    ensures Observably(init, txns, e)
  {
    forall t | 0 <= t < |txns| && e.phase[t].Finished?
      ensures ResultOf(txns, e, t) == SerialResult(init, txns, t)
    {
      assert ReadsAreSerial(init, txns, e, t);
    }
    if forall t | 0 <= t < |txns| :: e.phase[t].Finished? {
      forall k: Key ensures SameAt(e.store, SerialStore(init, txns, |txns|), k) {
        assert Boundary(txns, e, k, |txns|);
      }
      SameEverywhere(e.store, SerialStore(init, txns, |txns|));
    }
  }

  /** The results of a complete run, in arrival order. */
  ghost function ResultsOf(txns: seq<Txn>, e: Exec): seq<Result>
    requires |e.phase| == |txns| && forall t | 0 <= t < |txns| :: e.phase[t].Finished?
  {
    seq(|txns|, t requires 0 <= t < |txns| => ResultOf(txns, e, t))
  }

  /**
   A complete serial state in its results' own terms: votes and reads are
   explained by arrival order, and the store is the initial one overridden by
   the buffers of exactly those reported as committed.
   */
  ghost predicate CompleteAndExplained(init: Store, txns: seq<Txn>, e: Exec) {
    && |e.phase| == |txns|
    && (forall t | 0 <= t < |txns| :: e.phase[t].Finished?)
    && Explained(init, txns, ResultsOf(txns, e))
    && e.store == Overridden(init, txns, ResultsOf(txns, e), |txns|)
  }

  lemma CompleteIsExplained(init: Store, txns: seq<Txn>, e: Exec)
    requires Observably(init, txns, e) && forall t | 0 <= t < |txns| :: e.phase[t].Finished?
    ensures CompleteAndExplained(init, txns, e)
  {
    ResultsExplained(init, txns, ResultsOf(txns, e));
  }

  /**
   What clients may rely on: a final transaction has the reads and vote of the
   serial run, nothing is handed back twice or early, and when everything is
   handed back the store is the serial one and follows from the results.
   */
  ghost predicate ServedSerially(init: Store, txns: seq<Txn>, e: Exec, returned: seq<TxnId>) {
    && Observably(init, txns, e)
    && Distinct(returned)
    && (forall t | t in returned :: t < |txns| && e.phase[t].Finished?)
    && ((forall t: TxnId | t < |txns| :: t in returned) ==>
          e.store == SerialStore(init, txns, |txns|) && CompleteAndExplained(init, txns, e))
  }

  lemma ObservableIsServed(init: Store, txns: seq<Txn>, e: Exec, returned: seq<TxnId>)
    requires Observably(init, txns, e) && Distinct(returned)
    requires forall t | t in returned :: t < |txns| && e.phase[t].Finished?
    ensures ServedSerially(init, txns, e, returned)
  {
    if forall t: TxnId | t < |txns| :: t in returned {
      forall t | 0 <= t < |txns| ensures e.phase[t].Finished? { assert t in returned; }
      CompleteIsExplained(init, txns, e);
    }
  }
}
