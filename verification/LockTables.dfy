/**
 The lock table of the locking scheduler: one request queue per key, one
 number per waiting transaction, which always equals a recount over all queues,
 and the list of transactions that are ready.
 */
module LockTables {
  import opened Transactions
  import opened Iteration

  datatype LockMode = UNLOCKED | SHARED | EXCLUSIVE

  datatype LockRequest = LockRequest(mode: LockMode, txn: TxnId)

  type Queue = seq<LockRequest>

  datatype Locks = Locks(table: map<Key, Queue>, waits: map<TxnId, int>, ready: seq<TxnId>)

  const NO_LOCKS := Locks(map[], map[], [])

  // ---------- what the operations do ----------

  function QueueAt(table: map<Key, Queue>, k: Key): Queue {
    if k in table then table[k] else []
  }

  function Waits(waits: map<TxnId, int>, t: TxnId): int {
    if t in waits then waits[t] else 0
  }

  function CountExclusive(q: Queue): nat {
    if q == [] then 0
    else CountExclusive(q[..|q| - 1]) + if q[|q| - 1].mode == EXCLUSIVE then 1 else 0
  }

  /** How many requests of the queue keep a new request of this mode waiting. */
  function AheadOf(q: Queue, mode: LockMode): nat {
    if mode == EXCLUSIVE then |q| else CountExclusive(q)
  }

  /** Append a request; if it has to wait, add the number of its blockers. */
  function Requested(l: Locks, t: TxnId, k: Key, mode: LockMode): Locks {
    var q := QueueAt(l.table, k);
    var n := AheadOf(q, mode);
    Locks(l.table[k := q + [LockRequest(mode, t)]],
          if n > 0 then l.waits[t := Waits(l.waits, t) + n] else l.waits,
          l.ready)
  }

  /** The position of the first request of `t`, or the length of the queue. */
  function Position(q: Queue, t: TxnId): (i: nat)
    ensures i <= |q|
    ensures i < |q| ==> q[i].txn == t
    ensures forall j | 0 <= j < i :: q[j].txn != t
  {
    if q == [] then 0
    else
      var i := Position(q[..|q| - 1], t);
      if i < |q| - 1 || q[|q| - 1].txn == t then i else |q|
  }

  function Without(q: Queue, i: nat): Queue
    requires i < |q|
  {
    q[..i] + q[i + 1..]
  }

  datatype Counters = Counters(waits: map<TxnId, int>, ready: seq<TxnId>)

  /** A request behind a released one: it loses a blocker if one of the two is exclusive. */
  function Advance(released: LockMode, r: LockRequest, c: Counters): Counters {
    if released == EXCLUSIVE || r.mode == EXCLUSIVE then
      var n := Waits(c.waits, r.txn) - 1;
      if n == 0 then Counters(c.waits - {r.txn}, c.ready + [r.txn])
      else Counters(c.waits[r.txn := n], c.ready)
    else c
  }

  function AdvanceAll(released: LockMode, behind: Queue, c: Counters): Counters {
    if behind == [] then c
    else Advance(released, behind[|behind| - 1], AdvanceAll(released, behind[..|behind| - 1], c))
  }

  /** Remove the request of `t`, if there is one, and let the requests behind it advance. */
  function Released(l: Locks, t: TxnId, k: Key): Locks {
    var q := QueueAt(l.table, k);
    var i := Position(q, t);
    if k !in l.table || i == |q| then l
    else
      var c := AdvanceAll(q[i].mode, q[i + 1..], Counters(l.waits, l.ready));
      Locks(l.table[k := Without(q, i)], c.waits, c.ready)
  }

  // ---------- recounting ----------

  /** The requests that keep requests of `t` in this queue waiting, counted for each of them. */
  function Blockers(q: Queue, t: TxnId): nat {
    if q == [] then 0
    else
      var front, r := q[..|q| - 1], q[|q| - 1];
      Blockers(front, t) + if r.txn == t then AheadOf(front, r.mode) else 0
  }

  ghost predicate HasRequest(q: Queue, t: TxnId) {
    exists i :: 0 <= i < |q| && q[i].txn == t
  }

  /** All blockers of `t` in the queues of `keys`. */
  ghost function BlockersIn(table: map<Key, Queue>, keys: set<Key>, t: TxnId): nat {
    if keys == {} then 0
    else
      var k :| k in keys;
      Blockers(QueueAt(table, k), t) + BlockersIn(table, keys - {k}, t)
  }

  ghost function TotalBlockers(l: Locks, t: TxnId): nat {
    BlockersIn(l.table, l.table.Keys, t)
  }

  /** The stored number of `t` is the recount, and it is stored only when positive. */
  ghost predicate Exact(l: Locks, t: TxnId) {
    && (t in l.waits <==> TotalBlockers(l, t) > 0)
    && (t in l.waits ==> l.waits[t] == TotalBlockers(l, t))
  }

  /** Exact for everybody but the transactions that cancelled a pending request. */
  ghost predicate CountsExact(l: Locks, cancelled: set<TxnId>) {
    forall t: TxnId | t !in cancelled :: Exact(l, t)
  }

  // ---------- sums over keys ----------

  lemma {:induction false} SplitKey(table: map<Key, Queue>, keys: set<Key>, k: Key, t: TxnId)
    requires k in keys
    ensures BlockersIn(table, keys, t) == Blockers(QueueAt(table, k), t) + BlockersIn(table, keys - {k}, t)
  {
    var x :| x in keys && BlockersIn(table, keys, t) == Blockers(QueueAt(table, x), t) + BlockersIn(table, keys - {x}, t);
    if x != k {
      SplitKey(table, keys - {x}, k, t);
      SplitKey(table, keys - {k}, x, t);
      assert keys - {x} - {k} == keys - {k} - {x};
    }
  }

  lemma {:induction false} SameQueuesSameSum(table: map<Key, Queue>, table': map<Key, Queue>, keys: set<Key>, t: TxnId)
    requires forall k | k in keys :: Blockers(QueueAt(table, k), t) == Blockers(QueueAt(table', k), t)
    ensures BlockersIn(table, keys, t) == BlockersIn(table', keys, t)
  {
    if keys != {} {
      var k :| k in keys;
      SplitKey(table, keys, k, t);
      SplitKey(table', keys, k, t);
      SameQueuesSameSum(table, table', keys - {k}, t);
    }
  }

  /** Changing one queue changes the total by the change in that queue. */
  lemma OneQueueChanged(l: Locks, l': Locks, k: Key, t: TxnId)
    requires l'.table == l.table[k := QueueAt(l'.table, k)]
    ensures TotalBlockers(l', t) - Blockers(QueueAt(l'.table, k), t)
         == TotalBlockers(l, t) - Blockers(QueueAt(l.table, k), t)
  {
    var keys := l'.table.Keys;
    SplitKey(l'.table, keys, k, t);
    SameQueuesSameSum(l.table, l'.table, keys - {k}, t);
    if k in l.table {
      assert keys == l.table.Keys;
      SplitKey(l.table, keys, k, t);
    } else {
      assert keys - {k} == l.table.Keys;
    }
  }

  // ---------- requests ----------

  lemma {:induction false} NoRequestNoBlockers(q: Queue, t: TxnId)
    requires !HasRequest(q, t)
    ensures Blockers(q, t) == 0
  {
    if q != [] {
      var front := q[..|q| - 1];
      assert q[|q| - 1].txn != t;
      assert forall i | 0 <= i < |front| :: front[i] == q[i];
      NoRequestNoBlockers(front, t);
    }
  }

  lemma RequestAppends(q: Queue, r: LockRequest, t: TxnId)
    ensures Blockers(q + [r], t) == Blockers(q, t) + if r.txn == t then AheadOf(q, r.mode) else 0
  {
    assert (q + [r])[..|q|] == q;
  }

  /** A new request keeps the counts exact. */
  lemma RequestKeepsExact(l: Locks, t: TxnId, k: Key, mode: LockMode, cancelled: set<TxnId>)
    requires CountsExact(l, cancelled)
    ensures CountsExact(Requested(l, t, k, mode), cancelled)
  {
    var l', q := Requested(l, t, k, mode), QueueAt(l.table, k);
    var r := LockRequest(mode, t);
    assert QueueAt(l'.table, k) == q + [r];
    forall u: TxnId | u !in cancelled ensures Exact(l', u) {
      assert Exact(l, u);
      OneQueueChanged(l, l', k, u);
      RequestAppends(q, r, u);
    }
  }

  /** The request is granted at once exactly when it adds no blockers. */
  lemma GrantedIffNoNewBlockers(l: Locks, t: TxnId, k: Key, mode: LockMode)
    ensures TotalBlockers(Requested(l, t, k, mode), t) == TotalBlockers(l, t) + AheadOf(QueueAt(l.table, k), mode)
  {
    OneQueueChanged(l, Requested(l, t, k, mode), k, t);
    RequestAppends(QueueAt(l.table, k), LockRequest(mode, t), t);
  }

  // ---------- releases ----------

  /** How many of the requests behind a released one are of `u` and lose a blocker. */
  ghost function Lost(released: LockMode, behind: Queue, u: TxnId): nat {
    if behind == [] then 0
    else
      var front, r := behind[..|behind| - 1], behind[|behind| - 1];
      Lost(released, front, u) + if LosesBlocker(released, r) && r.txn == u then 1 else 0
  }

  ghost predicate LosesBlocker(released: LockMode, r: LockRequest) {
    released == EXCLUSIVE || r.mode == EXCLUSIVE
  }

  lemma {:induction false} ExclusiveWithin(q: Queue)
    ensures CountExclusive(q) <= |q|
    decreases |q|
  {
    if q != [] { ExclusiveWithin(q[..|q| - 1]); }
  }

  lemma ExclusiveAppends(q: Queue, r: LockRequest)
    ensures CountExclusive(q + [r]) == CountExclusive(q) + if r.mode == EXCLUSIVE then 1 else 0
  {
    assert (q + [r])[..|q|] == q;
  }

  lemma WithoutFront(q: Queue, i: nat)
    requires i < |q| - 1
    ensures Without(q, i) == Without(q[..|q| - 1], i) + [q[|q| - 1]]
  {
  }

  lemma {:induction false} ExclusiveWithout(q: Queue, i: nat)
    requires i < |q|
    ensures CountExclusive(Without(q, i)) == CountExclusive(q) - if q[i].mode == EXCLUSIVE then 1 else 0
    decreases |q|
  {
    var front, r := q[..|q| - 1], q[|q| - 1];
    assert front + [r] == q;
    ExclusiveAppends(front, r);
    if i == |q| - 1 {
      assert Without(q, i) == front;
    } else {
      ExclusiveWithout(front, i);
      WithoutFront(q, i);
      ExclusiveAppends(Without(front, i), r);
    }
  }

  lemma BehindFront(q: Queue, i: nat)
    requires i < |q| - 1
    ensures q[i + 1..] != [] && q[i + 1..][|q[i + 1..]| - 1] == q[|q| - 1]
    ensures q[i + 1..][..|q[i + 1..]| - 1] == q[..|q| - 1][i + 1..]
  {
  }

  /** Removing a request takes one blocker from each request it blocked, and its own blockers with it. */
  lemma {:induction false} BlockersWithout(q: Queue, i: nat, u: TxnId)
    requires i < |q|
    ensures Blockers(Without(q, i), u) + Lost(q[i].mode, q[i + 1..], u)
         == Blockers(q, u) - if q[i].txn == u then AheadOf(q[..i], q[i].mode) else 0
    decreases |q|
  {
    var front, r := q[..|q| - 1], q[|q| - 1];
    if i == |q| - 1 {
      assert Without(q, i) == front && q[i + 1..] == [];
    } else {
      BlockersWithout(front, i, u);
      WithoutFront(q, i);
      BehindFront(q, i);
      RequestAppends(Without(front, i), r, u);
      ExclusiveWithout(front, i);
      assert front[..i] == q[..i] && front[i] == q[i];
    }
  }

  /** The number stored for `u`: erased at zero. */
  ghost predicate Stored(waits: map<TxnId, int>, u: TxnId, n: int) {
    (u in waits <==> n != 0) && (u in waits ==> waits[u] == n)
  }

  /** The loop over the requests behind: one less for each that loses a blocker, nothing else changes. */
  lemma {:induction false} AdvanceAllCounts(released: LockMode, behind: Queue, c: Counters, u: TxnId, n: int)
    requires Stored(c.waits, u, n)
    ensures Stored(AdvanceAll(released, behind, c).waits, u, n - Lost(released, behind, u))
    decreases |behind|
  {
    if behind != [] {
      AdvanceAllCounts(released, behind[..|behind| - 1], c, u, n);
    }
  }

  /** A transaction is appended to the ready list exactly when its number falls to zero in the end. */
  lemma {:induction false} AdvanceAllReady(released: LockMode, behind: Queue, c: Counters, u: TxnId, n: int)
    requires Stored(c.waits, u, n) && Lost(released, behind, u) <= n
    ensures u in AdvanceAll(released, behind, c).ready
       <==> u in c.ready || (Lost(released, behind, u) > 0 && n == Lost(released, behind, u))
    decreases |behind|
  {
    if behind != [] {
      var front := behind[..|behind| - 1];
      AdvanceAllCounts(released, front, c, u, n);
      AdvanceAllReady(released, front, c, u, n);
    }
  }

  /** What a release that finds its request does to the others. */
  lemma ReleaseOthers(l: Locks, t: TxnId, k: Key, cancelled: set<TxnId>, u: TxnId)
    requires CountsExact(l, cancelled) && k in l.table && HasRequest(l.table[k], t)
    requires u !in cancelled && u != t
    ensures var l', q, i := Released(l, t, k), l.table[k], Position(l.table[k], t);
            && Exact(l', u)
            && TotalBlockers(l', u) == TotalBlockers(l, u) - Lost(q[i].mode, q[i + 1..], u)
            && (u !in l.ready ==> (u in l'.ready <==> TotalBlockers(l, u) > 0 && TotalBlockers(l', u) == 0))
  {
    ReleaseAny(l, t, k, u);
    assert Exact(l, u);
  }

  /** What it does to anyone whose number is right: it follows the blockers lost, and at zero makes ready. */
  lemma ReleaseAny(l: Locks, t: TxnId, k: Key, u: TxnId)
    requires k in l.table && HasRequest(l.table[k], t) && Exact(l, u)
    ensures var l', q, i := Released(l, t, k), l.table[k], Position(l.table[k], t);
            var lost := Lost(q[i].mode, q[i + 1..], u);
            && TotalBlockers(l', u) == TotalBlockers(l, u) - lost - (if u == t then AheadOf(q[..i], q[i].mode) else 0)
            && Stored(l'.waits, u, TotalBlockers(l, u) - lost)
            && (u in l'.ready <==> u in l.ready || (lost > 0 && TotalBlockers(l, u) == lost))
  {
    var l', q := Released(l, t, k), l.table[k];
    var i := Position(q, t);
    var c, n := Counters(l.waits, l.ready), TotalBlockers(l, u);
    OneQueueChanged(l, l', k, u);
    BlockersWithout(q, i, u);
    AdvanceAllCounts(q[i].mode, q[i + 1..], c, u, n);
    AdvanceAllReady(q[i].mode, q[i + 1..], c, u, n);
  }

  /** The first request of `t` in the queue, if there is one, waits for nobody. */
  ghost predicate FirstGranted(q: Queue, t: TxnId) {
    Position(q, t) < |q| ==> AheadOf(q[..Position(q, t)], q[Position(q, t)].mode) == 0
  }

  lemma {:induction false} UnblockedIsGranted(q: Queue, t: TxnId)
    requires Blockers(q, t) == 0
    ensures FirstGranted(q, t)
    decreases |q|
  {
    if q != [] {
      var front := q[..|q| - 1];
      UnblockedIsGranted(front, t);
      if Position(front, t) < |front| { assert front[..Position(front, t)] == q[..Position(q, t)]; }
    }
  }

  /** Releasing a held lock keeps all counts exact; cancelling a pending request spoils only the canceller's. */
  lemma ReleaseKeepsExact(l: Locks, t: TxnId, k: Key, cancelled: set<TxnId>)
    requires CountsExact(l, cancelled)
    ensures CountsExact(Released(l, t, k), cancelled + {t})
    ensures FirstGranted(QueueAt(l.table, k), t) ==> CountsExact(Released(l, t, k), cancelled)
  {
    var l', q := Released(l, t, k), QueueAt(l.table, k);
    if k in l.table && Position(q, t) < |q| {
      forall u: TxnId | u !in cancelled && (u != t || FirstGranted(q, t)) ensures Exact(l', u) {
        assert Exact(l, u);
        ReleaseAny(l, t, k, u);
      }
    }
  }

  /**
   At every turn of the release loop, the transaction whose number is taken
   down is stored as waiting, even if it has more requests further behind.
   */
  lemma WaiterIsStored(l: Locks, t: TxnId, k: Key, j: nat)
    requires k in l.table && HasRequest(l.table[k], t)
    requires var behind := l.table[k][Position(l.table[k], t) + 1..];
             j < |behind| && LosesBlocker(l.table[k][Position(l.table[k], t)].mode, behind[j]) && Exact(l, behind[j].txn)
    ensures var q, i := l.table[k], Position(l.table[k], t);
            q[i + 1 + j].txn in AdvanceAll(q[i].mode, q[i + 1..][..j], Counters(l.waits, l.ready)).waits
  {
    var q, i := l.table[k], Position(l.table[k], t);
    var u := q[i + 1..][j].txn;
    ReleaseAny(l, t, k, u);
    StoredUntilLast(q[i].mode, q[i + 1..], Counters(l.waits, l.ready), j, TotalBlockers(l, u));
  }

  lemma StoredUntilLast(released: LockMode, behind: Queue, c: Counters, j: nat, n: int)
    requires j < |behind| && LosesBlocker(released, behind[j])
    requires Stored(c.waits, behind[j].txn, n) && Lost(released, behind, behind[j].txn) <= n
    ensures behind[j].txn in AdvanceAll(released, behind[..j], c).waits
  {
    var u := behind[j].txn;
    assert behind[..j + 1][..j] == behind[..j];
    LostGrows(released, behind, j + 1, u);
    AdvanceAllCounts(released, behind[..j], c, u, n);
  }

  lemma {:induction false} LostGrows(released: LockMode, behind: Queue, n: nat, u: TxnId)
    requires n <= |behind|
    ensures Lost(released, behind[..n], u) <= Lost(released, behind, u)
    decreases |behind|
  {
    if n < |behind| {
      LostGrows(released, behind[..|behind| - 1], n, u);
      assert behind[..|behind| - 1][..n] == behind[..n];
    } else {
      assert behind[..n] == behind;
    }
  }

  // ---------- the order of waking ----------

  /** The number of the transaction at position `j` falls to zero at its request there. */
  ghost predicate ZeroAt(released: LockMode, behind: Queue, waits: map<TxnId, int>, j: nat) {
    && j < |behind| && LosesBlocker(released, behind[j])
    && Lost(released, behind[..j + 1], behind[j].txn) == Waits(waits, behind[j].txn)
  }

  ghost function TxnsAt(q: Queue, at: seq<nat>): seq<TxnId>
    requires forall n | 0 <= n < |at| :: at[n] < |q|
  {
    seq(|at|, n requires 0 <= n < |at| => q[at[n]].txn)
  }

  /** `at` lists, in queue order, the positions at which numbers fall to zero; `ready` grows by their transactions. */
  ghost predicate WokenAt(released: LockMode, behind: Queue, c: Counters, at: seq<nat>, ready: seq<TxnId>) {
    && Ascending(at)
    && (forall j: nat :: j in at <==> ZeroAt(released, behind, c.waits, j))
    && (forall n | 0 <= n < |at| :: at[n] < |behind|)
    && ready == c.ready + TxnsAt(behind, at)
  }

  lemma {:induction false} WaitsAfter(released: LockMode, behind: Queue, c: Counters, u: TxnId)
    ensures Waits(AdvanceAll(released, behind, c).waits, u) == Waits(c.waits, u) - Lost(released, behind, u)
    decreases |behind|
  {
    if behind != [] { WaitsAfter(released, behind[..|behind| - 1], c, u); }
  }

  lemma ZeroAtFront(released: LockMode, behind: Queue, waits: map<TxnId, int>, j: nat)
    requires j < |behind| - 1
    ensures ZeroAt(released, behind, waits, j) <==> ZeroAt(released, behind[..|behind| - 1], waits, j)
  {
    assert behind[..|behind| - 1][..j + 1] == behind[..j + 1];
  }

  lemma {:induction false} AdvanceAllWakes(released: LockMode, behind: Queue, c: Counters) returns (at: seq<nat>)
    ensures WokenAt(released, behind, c, at, AdvanceAll(released, behind, c).ready)
    decreases |behind|
  {
    at := [];
    if behind == [] {
      assert c.ready + TxnsAt(behind, at) == c.ready;
    } else {
      at := AdvanceAllWakes(released, behind[..|behind| - 1], c);
      at := OneMoreWoken(released, behind, c, at);
    }
  }

  lemma OneMoreWoken(released: LockMode, behind: Queue, c: Counters, before: seq<nat>) returns (at: seq<nat>)
    requires behind != []
    requires WokenAt(released, behind[..|behind| - 1], c, before, AdvanceAll(released, behind[..|behind| - 1], c).ready)
    ensures WokenAt(released, behind, c, at, AdvanceAll(released, behind, c).ready)
  {
    var n := |behind| - 1;
    var front := behind[..n];
    WaitsAfter(released, front, c, behind[n].txn);
    assert behind[..n + 1] == behind;
    assert forall i | 0 <= i < |before| :: before[i] in before && before[i] < n;
    assert TxnsAt(front, before) == TxnsAt(behind, before);
    at := if ZeroAt(released, behind, c.waits, n) then before + [n] else before;
    forall j: nat ensures j in at <==> ZeroAt(released, behind, c.waits, j) {
      if j < n {
        ZeroAtFront(released, behind, c.waits, j);
        assert j in before <==> ZeroAt(released, front, c.waits, j);
      }
    }
    WokenReady(released, behind, c, before, at);
  }

  lemma WokenReady(released: LockMode, behind: Queue, c: Counters, before: seq<nat>, at: seq<nat>)
    requires behind != [] && forall i | 0 <= i < |before| :: before[i] < |behind| - 1
    requires AdvanceAll(released, behind[..|behind| - 1], c).ready == c.ready + TxnsAt(behind, before)
    requires behind[..|behind| - 1 + 1] == behind
    requires at == if ZeroAt(released, behind, c.waits, |behind| - 1) then before + [|behind| - 1] else before
    ensures AdvanceAll(released, behind, c).ready == c.ready + TxnsAt(behind, at)
  {
    var n := |behind| - 1;
    WaitsAfter(released, behind[..n], c, behind[n].txn);
    if ZeroAt(released, behind, c.waits, n) {
      assert TxnsAt(behind, at) == TxnsAt(behind, before) + [behind[n].txn];
    }
  }

  /** A release appends to the ready list those whose number falls to zero, in the queue order of the requests where it does. */
  ghost predicate WakesInQueueOrder(l: Locks, t: TxnId, k: Key, ready: seq<TxnId>) {
    var q := QueueAt(l.table, k);
    var i := Position(q, t);
    if i == |q| then ready == l.ready
    else exists at: seq<nat> :: WokenBehind(q, i, Counters(l.waits, l.ready), at, ready)
  }

  ghost predicate WokenBehind(q: Queue, i: nat, c: Counters, at: seq<nat>, ready: seq<TxnId>)
    requires i < |q|
  {
    WokenAt(q[i].mode, q[i + 1..], c, at, ready)
  }

  lemma ReleaseWakesInOrder(l: Locks, t: TxnId, k: Key)
    ensures WakesInQueueOrder(l, t, k, Released(l, t, k).ready)
  {
    var q := QueueAt(l.table, k);
    var i := Position(q, t);
    if i < |q| {
      var c := Counters(l.waits, l.ready);
      var at := AdvanceAllWakes(q[i].mode, q[i + 1..], c);
      assert WokenBehind(q, i, c, at, Released(l, t, k).ready);
    }
  }

  /** With an exact number, it falls to zero where the last blocker goes: no later request of the transaction loses one. */
  lemma ZeroIsLastBlocker(l: Locks, t: TxnId, k: Key, j: nat)
    requires k in l.table && HasRequest(l.table[k], t)
    requires var q, i := l.table[k], Position(l.table[k], t);
             ZeroAt(q[i].mode, q[i + 1..], l.waits, j) && q[i + 1..][j].txn != t && Exact(l, q[i + 1..][j].txn)
    ensures var q, i := l.table[k], Position(l.table[k], t);
            var behind := q[i + 1..];
            var u := behind[j].txn;
            && TotalBlockers(l, u) > 0 && TotalBlockers(Released(l, t, k), u) == 0
            && forall m | j < m < |behind| && behind[m].txn == u :: !LosesBlocker(q[i].mode, behind[m])
  {
    var q, i := l.table[k], Position(l.table[k], t);
    var behind := q[i + 1..];
    var u := behind[j].txn;
    ReleaseAny(l, t, k, u);
    LostGrows(q[i].mode, behind, j + 1, u);
    forall m | j < m < |behind| && behind[m].txn == u ensures !LosesBlocker(q[i].mode, behind[m]) {
      LostStep(q[i].mode, behind, j + 1, m, u);
    }
  }

  lemma {:induction false} LostStep(released: LockMode, behind: Queue, n: nat, m: nat, u: TxnId)
    requires n <= m < |behind|
    ensures Lost(released, behind[..n], u) + (if LosesBlocker(released, behind[m]) && behind[m].txn == u then 1 else 0)
         <= Lost(released, behind, u)
  {
    assert behind[..m + 1][..m] == behind[..m] && behind[..m][..n] == behind[..n];
    LostGrows(released, behind[..m], n, u);
    LostGrows(released, behind, m + 1, u);
  }

  // ---------- status ----------

  /** The requests of a queue that wait for nobody, in queue order. */
  ghost function Unhindered(q: Queue): seq<TxnId> {
    UnhinderedAmong(q, |q|)
  }

  ghost function UnhinderedAmong(q: Queue, n: nat): seq<TxnId>
    requires n <= |q|
  {
    if n == 0 then []
    else UnhinderedAmong(q, n - 1) + if AheadOf(q[..n - 1], q[n - 1].mode) == 0 then [q[n - 1].txn] else []
  }

  /** The mode in which the key is locked, and the longest run of requests that hold it together. */
  ghost predicate StatusIs(q: Queue, mode: LockMode, owners: seq<TxnId>) {
    && |owners| <= |q|
    && (forall i | 0 <= i < |owners| :: owners[i] == q[i].txn)
    && (q == [] ==> mode == UNLOCKED && owners == [])
    && (q != [] && q[0].mode == EXCLUSIVE ==> mode == EXCLUSIVE && |owners| == 1)
    && (q != [] && q[0].mode != EXCLUSIVE ==>
          && mode == SHARED
          && (forall i | 0 <= i < |owners| :: q[i].mode != EXCLUSIVE)
          && (|owners| < |q| ==> q[|owners|].mode == EXCLUSIVE))
  }

  lemma {:induction false} SharedPrefix(q: Queue, n: nat)
    requires n <= |q|
    requires forall i | 0 <= i < n :: q[i].mode != EXCLUSIVE
    ensures CountExclusive(q[..n]) == 0
  {
    if n > 0 {
      SharedPrefix(q, n - 1);
      assert q[..n][..n - 1] == q[..n - 1];
    }
  }

  lemma {:induction false} ExclusiveSeen(q: Queue, m: nat, n: nat)
    requires m < n <= |q| && q[m].mode == EXCLUSIVE
    ensures CountExclusive(q[..n]) > 0
  {
    assert q[..n][..n - 1] == q[..n - 1];
    if m < n - 1 { ExclusiveSeen(q, m, n - 1); }
  }

  lemma {:induction false} OwnersAreUnhindered(q: Queue, mode: LockMode, owners: seq<TxnId>, n: nat)
    requires StatusIs(q, mode, owners) && n <= |q|
    ensures UnhinderedAmong(q, n) == if n <= |owners| then owners[..n] else owners
  {
    if n > 0 {
      OwnersAreUnhindered(q, mode, owners, n - 1);
      if n <= |owners| {
        if q[0].mode != EXCLUSIVE { SharedPrefix(q, n - 1); }
        assert owners[..n] == owners[..n - 1] + [q[n - 1].txn];
      } else {
        var first := if mode == EXCLUSIVE then 0 else |owners|;
        if first < n - 1 { ExclusiveSeen(q, first, n - 1); }
      }
    }
  }

  /** The owners of a locked key are exactly the requests that wait for nobody. */
  lemma StatusTellsHolders(q: Queue, mode: LockMode, owners: seq<TxnId>)
    requires StatusIs(q, mode, owners)
    ensures owners == Unhindered(q)
  {
    OwnersAreUnhindered(q, mode, owners, |q|);
  }
}
