/**
 Transactions, two declared key sets and a function from what was read to vote
 and buffer, and their meaning: run one at a time, in arrival order.
 */
module Transactions {

  type Key = nat
  type Value = nat
  type TxnId = nat   // a transaction is named by its position in arrival order
  type Store = map<Key, Value>

  /** What the program logic decides: the vote, and the buffered writes. */
  datatype Outcome = Outcome(commit: bool, writes: Store)

  datatype Txn = Txn(readset: set<Key>, writeset: set<Key>, logic: Store -> Outcome) {
    /** All keys that are read before the logic runs: both declared sets. */
    function Footprint(): set<Key> {
      readset + writeset
    }

    predicate Disjoint() {
      readset !! writeset
    }

    /** The writes that reach the store: the buffer of a commit, nothing of an abort. */
    function Effects(seen: Store): Store {
      if logic(seen).commit then logic(seen).writes else map[]
    }

    /** A write outside the declared writeset stops the process, so no surviving transaction does it. */
    ghost predicate WritesDeclared() {
      forall seen: Store :: Effects(seen).Keys <= writeset
    }
  }

  ghost predicate WellFormed(txns: seq<Txn>) {
    forall t | 0 <= t < |txns| :: txns[t].WritesDeclared()
  }

  ghost predicate AllDisjoint(txns: seq<Txn>) {
    forall t | 0 <= t < |txns| :: txns[t].Disjoint()
  }

  /** The records among `keys` that exist in the store. */
  function Snapshot(store: Store, keys: set<Key>): Store {
    map k | k in keys && k in store :: store[k]
  }

  /** The two stores agree about key `k`: absent in both, or present with one value. */
  ghost predicate SameAt(s: Store, s': Store, k: Key) {
    (k in s <==> k in s') && (k in s ==> s[k] == s'[k])
  }

  /** The store after the first `n` transactions ran one at a time. */
  ghost function SerialStore(init: Store, txns: seq<Txn>, n: nat): Store
    requires n <= |txns|
  {
    if n == 0 then init
    else
      var before := SerialStore(init, txns, n - 1);
      before + txns[n - 1].Effects(Snapshot(before, txns[n - 1].Footprint()))
  }

  /** What transaction `t` reads in the serial run. */
  ghost function SerialReads(init: Store, txns: seq<Txn>, t: TxnId): Store
    requires t < |txns|
  {
    Snapshot(SerialStore(init, txns, t), txns[t].Footprint())
  }

  ghost predicate Writes(txns: seq<Txn>, t: TxnId, k: Key) {
    t < |txns| && k in txns[t].writeset
  }

  ghost predicate Reads(txns: seq<Txn>, t: TxnId, k: Key) {
    t < |txns| && k in txns[t].readset
  }

  ghost predicate Touches(txns: seq<Txn>, t: TxnId, k: Key) {
    t < |txns| && k in txns[t].Footprint()
  }

  /** Both touch `k` and one of them may write it. */
  ghost predicate ConflictOn(txns: seq<Txn>, a: TxnId, b: TxnId, k: Key) {
    Touches(txns, a, k) && Touches(txns, b, k) && (Writes(txns, a, k) || Writes(txns, b, k))
  }

  ghost predicate Conflict(txns: seq<Txn>, a: TxnId, b: TxnId) {
    exists k :: ConflictOn(txns, a, b, k)
  }

  /** A key keeps its value across a stretch of transactions that do not declare it. */
  lemma {:induction false} UnwrittenKeyUnchanged(init: Store, txns: seq<Txn>, k: Key, p: nat, q: nat)
    requires WellFormed(txns) && p <= q <= |txns|
    requires forall w: TxnId | p <= w < q :: !Writes(txns, w, k)
    ensures SameAt(SerialStore(init, txns, p), SerialStore(init, txns, q), k)
  {
    if p < q {
      UnwrittenKeyUnchanged(init, txns, k, p, q - 1);
      assert !Writes(txns, q - 1, k);
      assert txns[q - 1].WritesDeclared();
    }
  }

  lemma SameEverywhere(s: Store, s': Store)
    requires forall k: Key :: SameAt(s, s', k)
    ensures s == s'
  {
    assert forall k: Key :: k in s <==> k in s' by {
      forall k: Key ensures k in s <==> k in s' { assert SameAt(s, s', k); }
    }
    forall k | k in s ensures s[k] == s'[k] { assert SameAt(s, s', k); }
  }

  /** The result handed back to the client. */
  datatype Result = Result(txn: TxnId, committed: bool, seen: Store)

  ghost function SerialResult(init: Store, txns: seq<Txn>, t: TxnId): Result
    requires t < |txns|
  {
    var seen := SerialReads(init, txns, t);
    Result(t, txns[t].logic(seen).commit, seen)
  }

  // ---------- what results say about the store ----------

  /** The initial store, overridden in arrival order by the buffers of those reported as committed. */
  ghost function Overridden(init: Store, txns: seq<Txn>, results: seq<Result>, n: nat): Store
    requires n <= |txns| == |results|
  {
    if n == 0 then init
    else
      var r, before := results[n - 1], Overridden(init, txns, results, n - 1);
      if r.committed then before + txns[n - 1].logic(r.seen).writes else before
  }

  /** `t` has read each key of either declared set as the transactions reported as committed before it left it. */
  ghost predicate ReadsExplained(init: Store, txns: seq<Txn>, results: seq<Result>, t: TxnId)
    requires t < |txns| == |results|
  {
    var before, seen := Overridden(init, txns, results, t), results[t].seen;
    && (forall k: Key :: k in seen <==> (k in txns[t].readset || k in txns[t].writeset) && k in before)
    && (forall k: Key | k in seen :: seen[k] == before[k])
  }

  /** Each result names its transaction, carries its vote on its reads, and its reads follow from the results before it. */
  ghost predicate Explained(init: Store, txns: seq<Txn>, results: seq<Result>) {
    && |results| == |txns|
    && forall t: TxnId | t < |txns| ::
         && results[t].txn == t
         && (results[t].committed <==> txns[t].logic(results[t].seen).commit)
         && ReadsExplained(init, txns, results, t)
  }

  /** The serial run is the one that its results tell, and nothing else writes. */
  lemma {:induction false} ResultsTellStore(init: Store, txns: seq<Txn>, results: seq<Result>, n: nat)
    requires n <= |txns| == |results| && forall t: TxnId | t < |txns| :: results[t] == SerialResult(init, txns, t)
    ensures SerialStore(init, txns, n) == Overridden(init, txns, results, n)
  {
    if n > 0 { ResultsTellStore(init, txns, results, n - 1); }
  }

  lemma ResultsExplained(init: Store, txns: seq<Txn>, results: seq<Result>)
    requires |txns| == |results| && forall t: TxnId | t < |txns| :: results[t] == SerialResult(init, txns, t)
    ensures Explained(init, txns, results)
    ensures SerialStore(init, txns, |txns|) == Overridden(init, txns, results, |txns|)
  {
    ResultsTellStore(init, txns, results, |txns|);
    forall t: TxnId | t < |txns| ensures ReadsExplained(init, txns, results, t) {
      ResultsTellStore(init, txns, results, t);
    }
  }

  /** A vote to abort leaves the store alone; a vote to commit applies the whole buffer and nothing else. */
  lemma VoteDecides(init: Store, txns: seq<Txn>, t: TxnId)
    requires t < |txns|
    ensures var before, outcome := SerialStore(init, txns, t), txns[t].logic(SerialReads(init, txns, t));
            SerialStore(init, txns, t + 1) == if outcome.commit then before + outcome.writes else before
  {
  }
}
