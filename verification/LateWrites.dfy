/**
 Lists in which nobody touches a key that an earlier transaction declares to write.

 For these a scheduler needs to keep one kind of conflict only, a reader before
 the writer of the key, and needs no more than that the reader has read.
 */
module LateWrites {
  import opened Transactions
  import opened Execution

  ghost predicate WritesComeLast(txns: seq<Txn>) {
    forall a: TxnId, b: TxnId, k: Key | a < b && Writes(txns, a, k) :: !Touches(txns, b, k)
  }

  /** Has read all it will read. */
  ghost predicate HasRead(e: Exec, t: TxnId)
    requires t < |e.phase|
  {
    e.phase[t].Writing? || e.phase[t].Finished?
  }

  /** The readers of a key have read before its writer starts. */
  ghost predicate ReadersFirst(txns: seq<Txn>, e: Exec)
    requires |e.phase| == |txns|
  {
    forall a: TxnId, b: TxnId, k: Key | a < b < |txns| && Reads(txns, a, k) && Writes(txns, b, k) ::
      !e.phase[b].Idle? ==> HasRead(e, a)
  }

  ghost predicate MayFollow(txns: seq<Txn>, e: Exec, t: TxnId)
    requires |e.phase| == |txns|
  {
    forall a: TxnId, k: Key | a < t && a < |txns| && Reads(txns, a, k) && Writes(txns, t, k) :: HasRead(e, a)
  }

  /** What everybody reads: no earlier transaction writes there. */
  ghost function InitialReads(init: Store, txns: seq<Txn>, t: TxnId): Store
    requires t < |txns|
  {
    Snapshot(init, txns[t].Footprint())
  }

  ghost predicate ReadsAreInitial(init: Store, txns: seq<Txn>, e: Exec, t: TxnId)
    requires |e.phase| == |txns| && t < |txns|
  {
    match e.phase[t]
    case Idle => true
    case Reading(seen, left) =>
      && left <= txns[t].Footprint()
      && seen == Snapshot(init, txns[t].Footprint() - left)
    case Writing(seen, buffer) =>
      && seen == InitialReads(init, txns, t)
      && buffer.Keys <= txns[t].Effects(seen).Keys
      && forall k | k in buffer :: buffer[k] == txns[t].Effects(seen)[k]
    case Finished(seen) => seen == InitialReads(init, txns, t)
  }

  /** The initial store with the effects of one transaction. */
  ghost function With(init: Store, txns: seq<Txn>, w: TxnId): Store
    requires w < |txns|
  {
    init + txns[w].Effects(InitialReads(init, txns, w))
  }

  ghost predicate NotWrittenYet(txns: seq<Txn>, e: Exec, k: Key)
    requires |e.phase| == |txns|
  {
    forall w: TxnId | w < |txns| && Writes(txns, w, k) :: !Applied(e, w, k)
  }

  ghost predicate StoreIsLate(init: Store, txns: seq<Txn>, e: Exec, k: Key)
    requires |e.phase| == |txns|
  {
    && (NotWrittenYet(txns, e, k) ==> SameAt(e.store, init, k))
    && forall w: TxnId | w < |txns| && Writes(txns, w, k) && Applied(e, w, k) :: SameAt(e.store, With(init, txns, w), k)
  }

  ghost predicate LateSerial(init: Store, txns: seq<Txn>, e: Exec) {
    && |e.phase| == |txns|
    && WellFormed(txns) && WritesComeLast(txns)
    && ReadersFirst(txns, e)
    && (forall t: TxnId | t < |txns| :: ReadsAreInitial(init, txns, e, t))
    && (forall k: Key :: StoreIsLate(init, txns, e, k))
  }

  lemma InitiallyLate(init: Store, txns: seq<Txn>)
    requires WellFormed(txns) && WritesComeLast(txns)
    ensures LateSerial(init, txns, Initial(init, txns))
  {
  }

  lemma OneWriter(txns: seq<Txn>, v: TxnId, w: TxnId, k: Key)
    requires WritesComeLast(txns) && Writes(txns, v, k) && Writes(txns, w, k)
    ensures v == w
  {
    if v < w { assert Touches(txns, w, k); }
    if w < v { assert Touches(txns, v, k); }
  }

  /** While `t` reads, nobody has written a key it touches. */
  lemma ReadingFindsInitial(init: Store, txns: seq<Txn>, e: Exec, t: TxnId, k: Key)
    requires LateSerial(init, txns, e) && Touches(txns, t, k) && !HasRead(e, t)
    ensures NotWrittenYet(txns, e, k) && SameAt(e.store, init, k)
  {
    forall w: TxnId | w < |txns| && Writes(txns, w, k) ensures !Applied(e, w, k) {
      if t < w {
        assert Touches(txns, w, k);
        assert !Writes(txns, t, k) && Reads(txns, t, k);
      }
    }
    assert StoreIsLate(init, txns, e, k);
  }

  lemma LateReadsStep(init: Store, txns: seq<Txn>, e: Exec, w: Work, t: TxnId)
    requires LateSerial(init, txns, e) && Enabled(txns, e, w) && t < |txns|
    ensures ReadsAreInitial(init, txns, Do(txns, e, w), t)
  {
    assert ReadsAreInitial(init, txns, e, t);
    if t == w.t {
      match w
      case Begin(_) => assert txns[t].Footprint() - txns[t].Footprint() == {};
      case ReadKey(_, k) => ReadingFindsInitial(init, txns, e, t, k);
      case RunLogic(_) => assert txns[t].Footprint() - {} == txns[t].Footprint();
      case WriteKey(_, k) =>
      case SetStatus(_) =>
    }
  }

  lemma LateGateStep(txns: seq<Txn>, e: Exec, w: Work)
    requires |e.phase| == |txns| && ReadersFirst(txns, e) && Enabled(txns, e, w)
    requires w.Begin? ==> MayFollow(txns, e, w.t)
    ensures ReadersFirst(txns, Do(txns, e, w))
  {
  }

  lemma AppliedStep(txns: seq<Txn>, e: Exec, w: Work, u: TxnId, k: Key)
    requires Enabled(txns, e, w) && u < |txns|
    ensures Applied(e, u, k) ==> Applied(Do(txns, e, w), u, k)
    ensures Applied(Do(txns, e, w), u, k) ==> Applied(e, u, k) || (w.t == u && (w.RunLogic? || w == WriteKey(u, k)))
  {
  }

  /** The one writer of `k` has just passed its write of it. */
  lemma LatePassed(init: Store, txns: seq<Txn>, e: Exec, w: Work, k: Key)
    requires LateSerial(init, txns, e) && Enabled(txns, e, w)
    requires Writes(txns, w.t, k) && !Applied(e, w.t, k) && Applied(Do(txns, e, w), w.t, k)
    ensures SameAt(Do(txns, e, w).store, With(init, txns, w.t), k)
  {
    assert ReadsAreInitial(init, txns, e, w.t) && StoreIsLate(init, txns, e, k);
    forall u: TxnId | u < |txns| && Writes(txns, u, k) ensures !Applied(e, u, k) { OneWriter(txns, u, w.t, k); }
    assert NotWrittenYet(txns, e, k);
    if w.RunLogic? {
      assert txns[w.t].Footprint() - {} == txns[w.t].Footprint();
    }
  }

  /** A write goes to a declared key of its transaction. */
  lemma WritesOwnKey(init: Store, txns: seq<Txn>, e: Exec, w: Work)
    requires LateSerial(init, txns, e) && Enabled(txns, e, w) && w.WriteKey?
    ensures Writes(txns, w.t, w.k) && !Applied(e, w.t, w.k)
  {
    assert ReadsAreInitial(init, txns, e, w.t) && txns[w.t].WritesDeclared();
  }

  lemma LateStoreStep(init: Store, txns: seq<Txn>, e: Exec, w: Work, k: Key)
    requires LateSerial(init, txns, e) && Enabled(txns, e, w)
    ensures StoreIsLate(init, txns, Do(txns, e, w), k)
  {
    var e' := Do(txns, e, w);
    assert StoreIsLate(init, txns, e, k);
    if w.WriteKey? { WritesOwnKey(init, txns, e, w); }
    if Writes(txns, w.t, k) && !Applied(e, w.t, k) && Applied(e', w.t, k) {
      LatePassed(init, txns, e, w, k);
      forall u: TxnId | u < |txns| && Writes(txns, u, k) ensures u == w.t { OneWriter(txns, u, w.t, k); }
    } else {
      forall u: TxnId | u < |txns| && Writes(txns, u, k) ensures Applied(e', u, k) <==> Applied(e, u, k) {
        AppliedStep(txns, e, w, u, k);
      }
      assert NotWrittenYet(txns, e', k) <==> NotWrittenYet(txns, e, k);
    }
  }

  lemma StepKeepsLate(init: Store, txns: seq<Txn>, e: Exec, w: Work)
    requires LateSerial(init, txns, e) && Enabled(txns, e, w)
    requires w.Begin? ==> MayFollow(txns, e, w.t)
    ensures LateSerial(init, txns, Do(txns, e, w))
  {
    var e' := Do(txns, e, w);
    LateGateStep(txns, e, w);
    forall t: TxnId | t < |txns| ensures ReadsAreInitial(init, txns, e', t) { LateReadsStep(init, txns, e, w, t); }
    forall k: Key ensures StoreIsLate(init, txns, e', k) { LateStoreStep(init, txns, e, w, k); }
  }

  // ---------- the serial run of such a list ----------

  lemma SerialReadsAreInitial(init: Store, txns: seq<Txn>, t: TxnId)
    requires WellFormed(txns) && WritesComeLast(txns) && t < |txns|
    ensures SerialReads(init, txns, t) == InitialReads(init, txns, t)
  {
    forall k: Key | k in txns[t].Footprint() ensures SameAt(SerialStore(init, txns, t), init, k) {
      assert Touches(txns, t, k);
      UnwrittenKeyUnchanged(init, txns, k, 0, t);
    }
  }

  lemma SerialStoreAtWriter(init: Store, txns: seq<Txn>, w: TxnId, k: Key)
    requires WellFormed(txns) && WritesComeLast(txns) && Writes(txns, w, k)
    ensures SameAt(SerialStore(init, txns, |txns|), With(init, txns, w), k)
  {
    forall u: TxnId | (u < w || w + 1 <= u < |txns|) ensures !Writes(txns, u, k) {
      if Writes(txns, u, k) { OneWriter(txns, u, w, k); }
    }
    UnwrittenKeyUnchanged(init, txns, k, 0, w);
    UnwrittenKeyUnchanged(init, txns, k, w + 1, |txns|);
    SerialReadsAreInitial(init, txns, w);
  }

  lemma LateIsObservable(init: Store, txns: seq<Txn>, e: Exec)
    requires LateSerial(init, txns, e)
    ensures Observably(init, txns, e)
  {
    forall t | 0 <= t < |txns| && e.phase[t].Finished?
      ensures ResultOf(txns, e, t) == SerialResult(init, txns, t)
    {
      assert ReadsAreInitial(init, txns, e, t);
      SerialReadsAreInitial(init, txns, t);
    }
    if forall t | 0 <= t < |txns| :: e.phase[t].Finished? {
      forall k: Key ensures SameAt(e.store, SerialStore(init, txns, |txns|), k) {
        AllAppliedAt(init, txns, e, k);
      }
      SameEverywhere(e.store, SerialStore(init, txns, |txns|));
    }
  }

  lemma AllAppliedAt(init: Store, txns: seq<Txn>, e: Exec, k: Key)
    requires LateSerial(init, txns, e) && forall t | 0 <= t < |txns| :: e.phase[t].Finished?
    ensures SameAt(e.store, SerialStore(init, txns, |txns|), k)
  {
    assert StoreIsLate(init, txns, e, k);
    if w: TxnId :| Writes(txns, w, k) {
      assert Applied(e, w, k);
      SerialStoreAtWriter(init, txns, w, k);
    } else {
      UnwrittenKeyUnchanged(init, txns, k, 0, |txns|);
    }
  }
}
