/**
 Requesting and releasing all locks of one transaction, key by key, as the
 locking scheduler does it; and what such a batch does to the counts.

 The batches are specified over the order in which the set yields its keys.
 Over a whole batch the counts stay exact; a transaction is blocked exactly
 when its requests have given it blockers; and a release makes ready exactly
 those whose last blocker has gone, each of them once.
 */
module LockBatches {
  import opened Transactions
  import opened LockTables
  import opened LockManager
  import opened Iteration

  // ---------- requesting ----------

  /** The lock table, and whether some request so far was not granted at once. */
  datatype Batch = Batch(locks: Locks, blocked: bool)

  ghost function RequestOne(b: Batch, t: TxnId, k: Key, mode: LockMode): Batch {
    Batch(Requested(b.locks, t, k, mode), b.blocked || AheadOf(QueueAt(b.locks.table, k), mode) > 0)
  }

  ghost function RequestAll(b: Batch, t: TxnId, order: seq<Key>, mode: LockMode): Batch {
    if order == [] then b
    else RequestOne(RequestAll(b, t, order[..|order| - 1], mode), t, order[|order| - 1], mode)
  }

  /** Read locks, then write locks. */
  ghost function RequestBoth(l: Locks, t: TxnId, readOrder: seq<Key>, writeOrder: seq<Key>, readMode: LockMode): Batch {
    RequestAll(RequestAll(Batch(l, false), t, readOrder, readMode), t, writeOrder, EXCLUSIVE)
  }

  method RequestLocks(lm: LockManagerB, txn: Txn, t: TxnId)
    returns (blocked: bool, ghost readOrder: seq<Key>, ghost writeOrder: seq<Key>)
    modifies lm
    ensures Enumerates(readOrder, txn.readset) && Enumerates(writeOrder, txn.writeset)
    ensures Batch(lm.State(), blocked) == RequestBoth(old(lm.State()), t, readOrder, writeOrder, SHARED)
  {
    blocked := false;
    var order := Enumerate(txn.readset);
    readOrder := order;
    ghost var start := Batch(lm.State(), false);
    for i := 0 to |order|
      invariant Batch(lm.State(), blocked) == RequestAll(start, t, order[..i], SHARED)
    {
      assert order[..i + 1][..i] == order[..i];
      var granted := lm.ReadLock(t, order[i]);
      if !granted {
        blocked := true;
      }
    }
    assert order[..|order|] == order;
    ghost var mid := Batch(lm.State(), blocked);
    order := Enumerate(txn.writeset);
    writeOrder := order;
    for i := 0 to |order|
      invariant Batch(lm.State(), blocked) == RequestAll(mid, t, order[..i], EXCLUSIVE)
    {
      assert order[..i + 1][..i] == order[..i];
      var granted := lm.WriteLock(t, order[i]);
      if !granted {
        blocked := true;
      }
    }
    assert order[..|order|] == order;
  }

  // ---------- releasing ----------

  ghost function ReleaseAll(l: Locks, t: TxnId, order: seq<Key>): Locks {
    if order == [] then l
    else Released(ReleaseAll(l, t, order[..|order| - 1]), t, order[|order| - 1])
  }

  method ReleaseLocks(lm: LockManagerB, txn: Txn, t: TxnId) returns (ghost readOrder: seq<Key>, ghost writeOrder: seq<Key>)
    modifies lm
    ensures Enumerates(readOrder, txn.readset) && Enumerates(writeOrder, txn.writeset)
    ensures lm.State() == ReleaseAll(ReleaseAll(old(lm.State()), t, readOrder), t, writeOrder)
  {
    var order := Enumerate(txn.readset);
    readOrder := order;
    for i := 0 to |order|
      invariant lm.State() == ReleaseAll(old(lm.State()), t, order[..i])
    {
      assert order[..i + 1][..i] == order[..i];
      lm.Release(t, order[i]);
    }
    assert order[..|order|] == order;
    ghost var mid := lm.State();
    order := Enumerate(txn.writeset);
    writeOrder := order;
    for i := 0 to |order|
      invariant lm.State() == ReleaseAll(mid, t, order[..i])
    {
      assert order[..i + 1][..i] == order[..i];
      lm.Release(t, order[i]);
    }
    assert order[..|order|] == order;
  }

  // ---------- what a batch of requests does ----------

  /** A request at the end of the queue of each key in the batch. */
  lemma {:induction false} RequestAllQueues(b: Batch, t: TxnId, order: seq<Key>, mode: LockMode, k: Key)
    requires Distinct(order)
    ensures QueueAt(RequestAll(b, t, order, mode).locks.table, k)
         == QueueAt(b.locks.table, k) + if k in order then [LockRequest(mode, t)] else []
    ensures RequestAll(b, t, order, mode).locks.ready == b.locks.ready
    decreases |order|
  {
    if order != [] {
      RequestAllQueues(b, t, order[..|order| - 1], mode, k);
      MemberOfPrefix(order, k);
    }
  }

  /** Counts stay exact, nobody else's blockers change, and `t` is blocked exactly when it has gained some. */
  lemma {:induction false} RequestAllCounts(b: Batch, t: TxnId, order: seq<Key>, mode: LockMode)
    requires CountsExact(b.locks, {})
    requires b.blocked <==> TotalBlockers(b.locks, t) > 0
    ensures var b' := RequestAll(b, t, order, mode);
            CountsExact(b'.locks, {}) && (b'.blocked <==> TotalBlockers(b'.locks, t) > 0)
    decreases |order|
  {
    if order != [] {
      var front, k := order[..|order| - 1], order[|order| - 1];
      RequestAllCounts(b, t, front, mode);
      var mid := RequestAll(b, t, front, mode);
      RequestKeepsExact(mid.locks, t, k, mode, {});
      GrantedIffNoNewBlockers(mid.locks, t, k, mode);
    }
  }

  lemma {:induction false} RequestAllOthers(b: Batch, t: TxnId, order: seq<Key>, mode: LockMode, u: TxnId)
    requires u != t
    ensures TotalBlockers(RequestAll(b, t, order, mode).locks, u) == TotalBlockers(b.locks, u)
    decreases |order|
  {
    if order != [] {
      var mid, k := RequestAll(b, t, order[..|order| - 1], mode), order[|order| - 1];
      RequestAllOthers(b, t, order[..|order| - 1], mode, u);
      OneQueueChanged(mid.locks, Requested(mid.locks, t, k, mode), k, u);
      RequestAppends(QueueAt(mid.locks.table, k), LockRequest(mode, t), u);
    }
  }

  // ---------- what a batch of releases does ----------

  /** The queue without the request of `t`. */
  ghost function Left(q: Queue, t: TxnId): Queue {
    if Position(q, t) < |q| then Without(q, Position(q, t)) else q
  }

  lemma LeftAppend(front: Queue, r: LockRequest, t: TxnId)
    requires r.txn == t ==> Position(front, t) == |front|
    ensures Left(front + [r], t) == if r.txn == t then Left(front, t) else Left(front, t) + [r]
  {
    var q := front + [r];
    assert q[..|q| - 1] == front;
    if r.txn == t {
      assert Without(q, |front|) == front;
    } else if Position(front, t) < |front| {
      assert Without(q, Position(front, t)) == Without(front, Position(front, t)) + [r];
    }
  }

  lemma {:induction false} ReleaseAllQueues(l: Locks, t: TxnId, order: seq<Key>, k: Key)
    requires Distinct(order)
    ensures QueueAt(ReleaseAll(l, t, order).table, k)
         == if k in order then Left(QueueAt(l.table, k), t) else QueueAt(l.table, k)
    decreases |order|
  {
    if order != [] {
      ReleaseAllQueues(l, t, order[..|order| - 1], k);
      MemberOfPrefix(order, k);
    }
  }

  /** `t` holds all locks of the batch. */
  ghost predicate Holding(l: Locks, t: TxnId, order: seq<Key>) {
    forall k | k in order :: Blockers(QueueAt(l.table, k), t) == 0
  }

  lemma {:induction false} ReleaseAllCounts(l: Locks, t: TxnId, order: seq<Key>)
    requires Distinct(order) && Holding(l, t, order) && CountsExact(l, {})
    ensures CountsExact(ReleaseAll(l, t, order), {})
    decreases |order|
  {
    if order != [] {
      var front, k := order[..|order| - 1], order[|order| - 1];
      assert Holding(l, t, front) by {
        forall x | x in front ensures Blockers(QueueAt(l.table, x), t) == 0 { MemberOfPrefix(order, x); }
      }
      ReleaseAllCounts(l, t, front);
      ReleaseAllQueues(l, t, front, k);
      MemberOfPrefix(order, k);
      UnblockedIsGranted(QueueAt(l.table, k), t);
      ReleaseKeepsExact(ReleaseAll(l, t, front), t, k, {});
    }
  }

  /** Blockers only fall, and exactly those whose blockers fall to zero are made ready. */
  ghost predicate WakesExactly(l: Locks, l': Locks, u: TxnId) {
    && TotalBlockers(l', u) <= TotalBlockers(l, u)
    && (u in l'.ready <==> u in l.ready || (TotalBlockers(l, u) > 0 && TotalBlockers(l', u) == 0))
  }

  lemma {:induction false} ReleaseAllWakes(l: Locks, t: TxnId, order: seq<Key>, u: TxnId)
    requires Distinct(order) && Holding(l, t, order) && CountsExact(l, {})
    requires u != t && (u in l.ready ==> TotalBlockers(l, u) == 0)
    ensures WakesExactly(l, ReleaseAll(l, t, order), u)
    decreases |order|
  {
    if order != [] {
      var front, k := order[..|order| - 1], order[|order| - 1];
      assert Holding(l, t, front) by {
        forall x | x in front ensures Blockers(QueueAt(l.table, x), t) == 0 { MemberOfPrefix(order, x); }
      }
      ReleaseAllWakes(l, t, front, u);
      ReleaseAllCounts(l, t, front);
      ReleaseOneWakes(ReleaseAll(l, t, front), t, k, u);
    }
  }

  lemma ReleaseOneWakes(l: Locks, t: TxnId, k: Key, u: TxnId)
    requires CountsExact(l, {}) && u != t && (u in l.ready ==> TotalBlockers(l, u) == 0)
    ensures WakesExactly(l, Released(l, t, k), u)
  {
    if k in l.table && HasRequest(l.table[k], t) {
      ReleaseOthers(l, t, k, {}, u);
      ReadyGrows(l, t, k);
    }
  }

  lemma {:induction false} AdvanceAllGrows(released: LockMode, behind: Queue, c: Counters)
    ensures |c.ready| <= |AdvanceAll(released, behind, c).ready|
    ensures AdvanceAll(released, behind, c).ready[..|c.ready|] == c.ready
    decreases |behind|
  {
    if behind != [] { AdvanceAllGrows(released, behind[..|behind| - 1], c); }
  }

  lemma ReadyGrows(l: Locks, t: TxnId, k: Key)
    ensures forall u | u in l.ready :: u in Released(l, t, k).ready
  {
    var q := QueueAt(l.table, k);
    if k in l.table && Position(q, t) < |q| {
      var c := Counters(l.waits, l.ready);
      var c' := AdvanceAll(q[Position(q, t)].mode, q[Position(q, t) + 1..], c);
      AdvanceAllGrows(q[Position(q, t)].mode, q[Position(q, t) + 1..], c);
      assert forall i | 0 <= i < |c.ready| :: c'.ready[i] == c.ready[i];
    }
  }

  // ---------- the ready list has no repeats ----------

  /** Every number suffices for the blockers that are about to be lost, and nobody ready has one. */
  ghost predicate NumbersSuffice(released: LockMode, behind: Queue, c: Counters) {
    && (forall u: TxnId :: Stored(c.waits, u, Waits(c.waits, u)) && Lost(released, behind, u) <= Waits(c.waits, u))
    && (forall u | u in c.ready :: Waits(c.waits, u) == 0)
  }

  lemma {:induction false} AdvanceAllDistinct(released: LockMode, behind: Queue, c: Counters)
    requires Distinct(c.ready) && NumbersSuffice(released, behind, c)
    ensures Distinct(AdvanceAll(released, behind, c).ready)
    decreases |behind|
  {
    if behind != [] {
      var front, u := behind[..|behind| - 1], behind[|behind| - 1].txn;
      assert NumbersSuffice(released, front, c) by {
        forall v: TxnId ensures Lost(released, front, v) <= Waits(c.waits, v) {
          assert Lost(released, behind, v) <= Waits(c.waits, v);
        }
      }
      AdvanceAllDistinct(released, front, c);
      assert Lost(released, behind, u) <= Waits(c.waits, u);
      AdvanceAllReady(released, front, c, u, Waits(c.waits, u));
    }
  }

  lemma LostWithin(q: Queue, i: nat, u: TxnId)
    requires i < |q|
    ensures Lost(q[i].mode, q[i + 1..], u) <= Blockers(q, u)
  {
    BlockersWithout(q, i, u);
  }

  lemma ReleaseOneDistinct(l: Locks, t: TxnId, k: Key)
    requires CountsExact(l, {}) && Distinct(l.ready)
    requires forall u | u in l.ready :: TotalBlockers(l, u) == 0
    ensures Distinct(Released(l, t, k).ready)
  {
    var q := QueueAt(l.table, k);
    var i := Position(q, t);
    if k in l.table && i < |q| {
      var c := Counters(l.waits, l.ready);
      forall u: TxnId ensures Stored(l.waits, u, Waits(l.waits, u)) && Waits(l.waits, u) == TotalBlockers(l, u)
                      ensures Lost(q[i].mode, q[i + 1..], u) <= Waits(l.waits, u) {
        assert Exact(l, u);
        ReleaseAny(l, t, k, u);
      }
      AdvanceAllDistinct(q[i].mode, q[i + 1..], c);
    }
  }

  lemma ReleaserNotReady(l: Locks, t: TxnId, k: Key)
    requires CountsExact(l, {}) && Blockers(QueueAt(l.table, k), t) == 0 && t !in l.ready
    ensures t !in Released(l, t, k).ready
  {
    if k in l.table && HasRequest(l.table[k], t) {
      assert Exact(l, t);
      ReleaseAny(l, t, k, t);
      LostWithin(l.table[k], Position(l.table[k], t), t);
    }
  }

  lemma {:induction false} ReleaseAllDistinct(l: Locks, t: TxnId, order: seq<Key>)
    requires Distinct(order) && Holding(l, t, order) && CountsExact(l, {}) && Distinct(l.ready)
    requires t !in l.ready && forall u | u in l.ready :: TotalBlockers(l, u) == 0
    ensures Distinct(ReleaseAll(l, t, order).ready) && t !in ReleaseAll(l, t, order).ready
    decreases |order|
  {
    if order != [] {
      var front, k := order[..|order| - 1], order[|order| - 1];
      assert Holding(l, t, front) by {
        forall x | x in front ensures Blockers(QueueAt(l.table, x), t) == 0 { MemberOfPrefix(order, x); }
      }
      ReleaseAllDistinct(l, t, front);
      ReleaseAllCounts(l, t, front);
      var mid := ReleaseAll(l, t, front);
      forall u | u in mid.ready ensures TotalBlockers(mid, u) == 0 {
        ReleaseAllWakes(l, t, front, u);
      }
      ReleaseOneDistinct(mid, t, k);
      ReleaseAllQueues(l, t, front, k);
      MemberOfPrefix(order, k);
      ReleaserNotReady(mid, t, k);
    }
  }
}
