/**
 The two lock managers.  Each method is proved against the lock-table
 operation that specifies it; what the operations keep is proved there.
 */
module LockManager {
  import opened Transactions
  import opened LockTables

  /** Shared and exclusive locks. */
  class LockManagerB {
    var lockTable: map<Key, Queue>
    var txnWaits: map<TxnId, int>
    var readyTxns: seq<TxnId>

    ghost function State(): Locks
      reads this
    {
      Locks(lockTable, txnWaits, readyTxns)
    }

    constructor ()
      ensures State() == NO_LOCKS
    {
      lockTable, txnWaits, readyTxns := map[], map[], [];
    }

    method WriteLock(t: TxnId, k: Key) returns (granted: bool)
      modifies this
      ensures State() == Requested(old(State()), t, k, EXCLUSIVE)
      ensures granted <==> AheadOf(QueueAt(old(lockTable), k), EXCLUSIVE) == 0
    {
      if k !in lockTable {
        lockTable := lockTable[k := []];
      }
      var numBefore := |lockTable[k]|;
      lockTable := lockTable[k := lockTable[k] + [LockRequest(EXCLUSIVE, t)]];
      if numBefore > 0 {
        if t !in txnWaits {
          txnWaits := txnWaits[t := 0];
        }
        txnWaits := txnWaits[t := txnWaits[t] + numBefore];
      }
      return numBefore == 0;
    }

    method ReadLock(t: TxnId, k: Key) returns (granted: bool)
      modifies this
      ensures State() == Requested(old(State()), t, k, SHARED)
      ensures granted <==> AheadOf(QueueAt(old(lockTable), k), SHARED) == 0
    {
      if k !in lockTable {
        lockTable := lockTable[k := []];
      }
      var queue := lockTable[k];
      var numExclusiveBefore := 0;
      for i := 0 to |queue|
        invariant numExclusiveBefore == CountExclusive(queue[..i])
      {
        assert queue[..i + 1][..i] == queue[..i];
        if queue[i].mode == EXCLUSIVE {
          numExclusiveBefore := numExclusiveBefore + 1;
        }
      }
      assert queue[..|queue|] == queue;
      lockTable := lockTable[k := queue + [LockRequest(SHARED, t)]];
      if numExclusiveBefore > 0 {
        if t !in txnWaits {
          txnWaits := txnWaits[t := 0];
        }
        txnWaits := txnWaits[t := txnWaits[t] + numExclusiveBefore];
      }
      return numExclusiveBefore == 0;
    }

    method Release(t: TxnId, k: Key)
      modifies this
      ensures State() == Released(old(State()), t, k)
      ensures WakesInQueueOrder(old(State()), t, k, readyTxns)
    {
      ReleaseWakesInOrder(State(), t, k);
      if k !in lockTable {
        return;
      }
      var queue := lockTable[k];
      var index := Find(queue, t);
      if index == |queue| {
        return;
      }
      var releasedType, behind := queue[index].mode, queue[index + 1..];
      lockTable := lockTable[k := queue[..index] + behind];
      ghost var before := Counters(txnWaits, readyTxns);
      for i := 0 to |behind|
        invariant lockTable == old(lockTable)[k := Without(queue, index)]
        invariant Counters(txnWaits, readyTxns) == AdvanceAll(releasedType, behind[..i], before)
      {
        assert behind[..i + 1][..i] == behind[..i];
        if releasedType == EXCLUSIVE || behind[i].mode == EXCLUSIVE {
          CountDown(behind[i].txn);
        }
      }
      assert behind[..|behind|] == behind;
    }

    /** One blocker less; at zero the entry goes and the transaction is ready. */
    method CountDown(u: TxnId)
      modifies this
      ensures lockTable == old(lockTable)
      ensures Counters(txnWaits, readyTxns)
           == Advance(EXCLUSIVE, LockRequest(EXCLUSIVE, u), old(Counters(txnWaits, readyTxns)))
    {
      txnWaits := txnWaits[u := (if u in txnWaits then txnWaits[u] else 0) - 1];
      if txnWaits[u] == 0 {
        readyTxns := readyTxns + [u];
        txnWaits := txnWaits - {u};
        assert txnWaits == old(txnWaits) - {u};
      }
    }

    /** The lock mode of the key and its holders; the previous content of `owners` survives an unknown key. */
    method Status(k: Key, owners: seq<TxnId>) returns (mode: LockMode, owners': seq<TxnId>)
      ensures k !in lockTable ==> mode == UNLOCKED && owners' == owners
      ensures k in lockTable ==> StatusIs(lockTable[k], mode, owners')
    {
      if k !in lockTable {
        return UNLOCKED, owners;
      }
      var queue := lockTable[k];
      owners' := [];
      if |queue| == 0 {
        mode := UNLOCKED;
      } else if queue[0].mode == EXCLUSIVE {
        mode, owners' := EXCLUSIVE, [queue[0].txn];
      } else {
        mode := SHARED;
        for i := 0 to |queue|
          invariant |owners'| == i
          invariant forall j | 0 <= j < i :: owners'[j] == queue[j].txn && queue[j].mode != EXCLUSIVE
        {
          if queue[i].mode == EXCLUSIVE {
            break;
          }
          owners' := owners' + [queue[i].txn];
        }
      }
    }
  }

  /** The position of the request of `t`, or the length of the queue. */
  method Find(queue: Queue, t: TxnId) returns (index: nat)
    ensures index == Position(queue, t)
  {
    index := |queue|;
    for i := 0 to |queue|
      invariant index == |queue| && forall j | 0 <= j < i :: queue[j].txn != t
    {
      if queue[i].txn == t {
        return i;
      }
    }
  }

  ghost predicate AllExclusive(table: map<Key, Queue>) {
    forall k, i | k in table && 0 <= i < |table[k]| :: table[k][i].mode == EXCLUSIVE
  }

  lemma RemovalKeepsExclusive(table: map<Key, Queue>, k: Key, i: nat)
    requires AllExclusive(table) && k in table && i < |table[k]|
    ensures AllExclusive(table[k := Without(table[k], i)])
  {
    var q := Without(table[k], i);
    forall j | 0 <= j < |q| ensures q[j].mode == EXCLUSIVE {
      assert q[j] == table[k][if j < i then j else j + 1];
    }
  }

  /** Exclusive locks only: a read lock is a write lock. */
  class LockManagerA {
    var lockTable: map<Key, Queue>
    var txnWaits: map<TxnId, int>
    var readyTxns: seq<TxnId>

    ghost function State(): Locks
      reads this
    {
      Locks(lockTable, txnWaits, readyTxns)
    }

    ghost predicate Valid()
      reads this
    {
      AllExclusive(lockTable)
    }

    constructor ()
      ensures Valid() && State() == NO_LOCKS
    {
      lockTable, txnWaits, readyTxns := map[], map[], [];
    }

    method WriteLock(t: TxnId, k: Key) returns (granted: bool)
      requires Valid()
      modifies this
      ensures Valid() && State() == Requested(old(State()), t, k, EXCLUSIVE)
      ensures granted <==> AheadOf(QueueAt(old(lockTable), k), EXCLUSIVE) == 0
    {
      if k !in lockTable {
        lockTable := lockTable[k := []];
      }
      var numBefore := |lockTable[k]|;
      lockTable := lockTable[k := lockTable[k] + [LockRequest(EXCLUSIVE, t)]];
      if numBefore > 0 {
        if t !in txnWaits {
          txnWaits := txnWaits[t := numBefore];
        } else {
          txnWaits := txnWaits[t := txnWaits[t] + numBefore];
        }
      }
      return numBefore == 0;
    }

    method ReadLock(t: TxnId, k: Key) returns (granted: bool)
      requires Valid()
      modifies this
      ensures Valid() && State() == Requested(old(State()), t, k, EXCLUSIVE)
      ensures granted <==> AheadOf(QueueAt(old(lockTable), k), EXCLUSIVE) == 0
    {
      granted := WriteLock(t, k);
    }

    method Release(t: TxnId, k: Key)
      requires Valid()
      modifies this
      ensures Valid() && State() == Released(old(State()), t, k)
      ensures WakesInQueueOrder(old(State()), t, k, readyTxns)
    {
      ReleaseWakesInOrder(State(), t, k);
      if k !in lockTable {
        return;
      }
      var queue := lockTable[k];
      var index := Find(queue, t);
      if index == |queue| {
        return;
      }
      var behind := queue[index + 1..];
      RemovalKeepsExclusive(lockTable, k, index);
      lockTable := lockTable[k := queue[..index] + behind];
      ghost var before := Counters(txnWaits, readyTxns);
      for i := 0 to |behind|
        invariant lockTable == old(lockTable)[k := Without(queue, index)]
        invariant Counters(txnWaits, readyTxns) == AdvanceAll(queue[index].mode, behind[..i], before)
      {
        assert behind[..i + 1][..i] == behind[..i];
        CountDown(behind[i].txn);
      }
      assert behind[..|behind|] == behind;
    }

    /** One blocker less; at zero the entry goes and the transaction is ready. */
    method CountDown(u: TxnId)
      modifies this
      ensures lockTable == old(lockTable)
      ensures Counters(txnWaits, readyTxns)
           == Advance(EXCLUSIVE, LockRequest(EXCLUSIVE, u), old(Counters(txnWaits, readyTxns)))
    {
      txnWaits := txnWaits[u := (if u in txnWaits then txnWaits[u] else 0) - 1];
      if txnWaits[u] == 0 {
        readyTxns := readyTxns + [u];
        txnWaits := txnWaits - {u};
        assert txnWaits == old(txnWaits) - {u};
      }
    }

    method Status(k: Key, owners: seq<TxnId>) returns (mode: LockMode, owners': seq<TxnId>)
      requires Valid()
      ensures StatusIs(QueueAt(lockTable, k), mode, owners')
    {
      owners' := [];
      if k !in lockTable || |lockTable[k]| == 0 {
        mode := UNLOCKED;
      } else {
        mode, owners' := EXCLUSIVE, [lockTable[k][0].txn];
      }
    }
  }
}
