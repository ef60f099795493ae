/**
 Transactions that show a wrong order: each writes its own stamp everywhere.

 With these the serial reads of a key name its last writer, so a run that keeps
 that writer in its worker while a later transaction reads the key is visibly
 wrong.  The necessity theorems of the epoch scheduler and of continuous
 scheduling use them alike: declared sets are given, the logic is chosen, and one
 transaction is held right after it was popped, or before its first write.  As
 long as it is held, nothing that carries its stamp has reached the store, a read
 or the buffer of anybody else.  A later
 transaction that touches the key and becomes final in the meantime cannot have
 read what the serial run reads.
 */
module Stamps {
  import opened Transactions
  import opened Execution
  import opened Dependencies

  ghost function Stamp(t: TxnId, keys: set<Key>): Outcome {
    Outcome(true, map k | k in keys :: t + 1)
  }

  ghost function StampTxn(txn: Txn, t: TxnId): Txn {
    txn.(logic := _ => Stamp(t, txn.writeset))
  }

  /** The same declared sets; each transaction commits, writing its number plus one everywhere. */
  ghost function Stamped(txns: seq<Txn>): seq<Txn> {
    seq(|txns|, t requires 0 <= t < |txns| => StampTxn(txns[t], t))
  }

  /** The two lists declare the same sets. */
  ghost predicate SameSets(txns: seq<Txn>, txns': seq<Txn>) {
    && |txns| == |txns'|
    && forall t | 0 <= t < |txns| :: txns[t].readset == txns'[t].readset && txns[t].writeset == txns'[t].writeset
  }

  lemma StampedEffects(txns: seq<Txn>, t: TxnId, seen: Store)
    requires t < |txns|
    ensures Stamped(txns)[t].Effects(seen) == map k | k in txns[t].writeset :: t + 1
  {
  }

  lemma StampedWellFormed(txns: seq<Txn>)
    ensures SameSets(txns, Stamped(txns)) && WellFormed(Stamped(txns))
  {
    forall t | 0 <= t < |txns| ensures Stamped(txns)[t].WritesDeclared() {
      forall seen: Store ensures Stamped(txns)[t].Effects(seen).Keys <= txns[t].writeset {
        StampedEffects(txns, t, seen);
      }
    }
  }

  /** In the serial run of stamped transactions the reader finds the stamp of the last writer. */
  lemma SerialReadsStamp(init: Store, txns: seq<Txn>, a: TxnId, b: TxnId, k: Key)
    requires a < b < |txns| && Writes(txns, a, k) && Touches(txns, b, k) && NoWriterIn(txns, k, a + 1, b)
    ensures var seen := SerialReads(init, Stamped(txns), b); k in seen && seen[k] == a + 1
  {
    var stamped := Stamped(txns);
    StampedWellFormed(txns);
    StampedEffects(txns, a, SerialReads(init, stamped, a));
    forall w: TxnId | a + 1 <= w < b ensures !Writes(stamped, w, k) {
      assert !Writes(txns, w, k);
    }
    UnwrittenKeyUnchanged(init, stamped, k, a + 1, b);
  }

  // ---------- states in which nothing of `a` has reached the store ----------

  ghost predicate NoStamp(store: Store, a: TxnId) {
    forall k | k in store :: store[k] != a + 1
  }

  ghost predicate PhaseUnstamped(phase: Phase, a: TxnId) {
    match phase
    case Idle => true
    case Reading(seen, _) => NoStamp(seen, a)
    case Writing(seen, buffer) => NoStamp(seen, a) && NoStamp(buffer, a)
    case Finished(seen) => NoStamp(seen, a)
  }

  /** `a` is at most popped; no store, read or buffer carries its stamp. */
  ghost predicate Held(e: Exec, a: TxnId) {
    && a < |e.phase|
    && (e.phase[a].Idle? || e.phase[a].Reading?)
    && NoStamp(e.store, a)
    && forall t | 0 <= t < |e.phase| :: PhaseUnstamped(e.phase[t], a)
  }

  /** Work of the others, and starting `a`, leaves the store free of its stamp. */
  lemma WorkKeepsHeld(txns: seq<Txn>, e: Exec, w: Work, a: TxnId)
    requires Enabled(Stamped(txns), e, w) && Held(e, a)
    requires w.t == a ==> w.Begin?
    ensures Held(Do(Stamped(txns), e, w), a)
  {
    if w.RunLogic? {
      StampedEffects(txns, w.t, e.phase[w.t].seen);
    }
  }

  lemma NothingStamped(init: Store, txns: seq<Txn>, a: TxnId)
    requires a < |txns| && NoStamp(init, a)
    ensures Held(Initial(init, Stamped(txns)), a)
  {
  }

  /** A transaction that is final while the last writer of a key it touches is held has read something else. */
  lemma HeldReadsDiffer(txns: seq<Txn>, e: Exec, init: Store, a: TxnId, b: TxnId, k: Key)
    requires |e.phase| == |txns| && Held(e, a)
    requires a < b < |txns| && Writes(txns, a, k) && Touches(txns, b, k) && NoWriterIn(txns, k, a + 1, b)
    requires e.phase[b].Finished?
    ensures ResultOf(Stamped(txns), e, b) != SerialResult(init, Stamped(txns), b)
  {
    SerialReadsStamp(init, txns, a, b, k);
    assert PhaseUnstamped(e.phase[b], a);
  }

  /** `a` is not final, nobody else carries its stamp, and nothing stamped is in the store. */
  ghost predicate StampFree(e: Exec, a: TxnId) {
    && a < |e.phase| && !e.phase[a].Finished?
    && NoStamp(e.store, a)
    && forall t | 0 <= t < |e.phase| && t != a :: PhaseUnstamped(e.phase[t], a)
  }

  /** All work but the writes of `a` and the end of `a`. */
  ghost predicate Spares(w: Work, a: TxnId) {
    w.t == a ==> !w.WriteKey? && !w.SetStatus?
  }

  lemma WorkKeepsStampFree(txns: seq<Txn>, e: Exec, w: Work, a: TxnId)
    requires Enabled(Stamped(txns), e, w) && StampFree(e, a) && Spares(w, a)
    ensures StampFree(Do(Stamped(txns), e, w), a)
  {
    if w.RunLogic? {
      StampedEffects(txns, w.t, e.phase[w.t].seen);
    }
  }

  /** The same conclusion as for a held transaction. */
  lemma StampFreeReadsDiffer(txns: seq<Txn>, e: Exec, init: Store, a: TxnId, b: TxnId, k: Key)
    requires |e.phase| == |txns| && StampFree(e, a)
    requires a < b < |txns| && Writes(txns, a, k) && Touches(txns, b, k) && NoWriterIn(txns, k, a + 1, b)
    requires e.phase[b].Finished?
    ensures ResultOf(Stamped(txns), e, b) != SerialResult(init, Stamped(txns), b)
  {
    SerialReadsStamp(init, txns, a, b, k);
    assert PhaseUnstamped(e.phase[b], a);
  }

  lemma SameConflicts(txns: seq<Txn>, txns': seq<Txn>)
    requires SameSets(txns, txns')
    ensures forall g: Graph | Covers(txns, g) :: Covers(txns', g)
  {
    forall a: TxnId, b: TxnId | a < b < |txns'| && Conflict(txns', a, b) ensures Conflict(txns, a, b) {
      var k :| ConflictOn(txns', a, b, k);
      assert ConflictOn(txns, a, b, k);
    }
  }
}
