/** The conflict graphs of the three graph builders, as relations on arrival order. */
module Dependencies {
  import opened Transactions

  // A graph is kept as the predecessor set of every transaction.  A scheduler that
  // starts a transaction when its direct predecessors are final keeps every conflict
  // in order exactly when the graph connects every two conflicting transactions by a
  // path.  This file says for each builder when that is so.

  ghost predicate NoWriterIn(txns: seq<Txn>, k: Key, lo: nat, hi: nat) {
    forall w: TxnId | lo <= w < hi :: !Writes(txns, w, k)
  }

  ghost predicate NoReaderIn(txns: seq<Txn>, k: Key, lo: nat, hi: nat) {
    forall r: TxnId | lo <= r < hi :: !Reads(txns, r, k)
  }

  // ---------- the edges of each builder ----------

  /**
   The epoch builder: reader to the next writer, writer to the readers before
   the next writer.  A transaction that declares a key in both sets scans
   itself as a holder and gets an edge to itself.
   */
  ghost predicate EpochEdgeOn(txns: seq<Txn>, a: TxnId, b: TxnId, k: Key) {
    || (a <= b && Reads(txns, a, k) && Writes(txns, b, k) && NoWriterIn(txns, k, a, b))
    || (a < b && Writes(txns, a, k) && Reads(txns, b, k) && NoWriterIn(txns, k, a + 1, b))
  }

  ghost predicate EpochEdge(txns: seq<Txn>, a: TxnId, b: TxnId) {
    exists k :: EpochEdgeOn(txns, a, b, k)
  }

  /** Two consecutive writers of `k` without a reader of `k` between them. */
  ghost predicate BlindPairOn(txns: seq<Txn>, a: TxnId, b: TxnId, k: Key) {
    && a < b && Writes(txns, a, k) && Writes(txns, b, k)
    && NoWriterIn(txns, k, a + 1, b) && NoReaderIn(txns, k, a + 1, b)
  }

  ghost predicate BlindPair(txns: seq<Txn>, a: TxnId, b: TxnId) {
    exists k :: BlindPairOn(txns, a, b, k)
  }

  /** The notebook builder keeps the last holder of a key whatever its mode. */
  ghost predicate NotebookEdge(txns: seq<Txn>, a: TxnId, b: TxnId) {
    EpochEdge(txns, a, b) || BlindPair(txns, a, b)
  }

  /**
   The individual-lock builder.  A writer looks at the previous writer only
   when nobody has ever read the key; once somebody has, it looks at the
   readers since the last writer, even when there are none.
   */
  ghost predicate IndivEdgeOn(txns: seq<Txn>, a: TxnId, b: TxnId, k: Key) {
    && a < b && NoWriterIn(txns, k, a + 1, b)
    && (|| (Writes(txns, b, k) && Reads(txns, a, k))
        || (Writes(txns, b, k) && Writes(txns, a, k) && NoReaderIn(txns, k, 0, b))
        || (Reads(txns, b, k) && !Writes(txns, b, k) && Writes(txns, a, k)))
  }

  ghost predicate IndivEdge(txns: seq<Txn>, a: TxnId, b: TxnId) {
    exists k :: IndivEdgeOn(txns, a, b, k)
  }

  /** Consecutive writers of a key that was read before, but not since the first of them. */
  ghost predicate StalePairOn(txns: seq<Txn>, a: TxnId, b: TxnId, k: Key) {
    && a < b && Writes(txns, a, k) && Writes(txns, b, k)
    && NoWriterIn(txns, k, a + 1, b) && NoReaderIn(txns, k, a, b) && !NoReaderIn(txns, k, 0, a)
  }

  ghost predicate StalePair(txns: seq<Txn>, a: TxnId, b: TxnId) {
    exists k :: StalePairOn(txns, a, b, k)
  }

  // ---------- predecessor sets and paths ----------

  type Graph = seq<set<TxnId>>

  ghost function EpochGraph(txns: seq<Txn>): Graph {
    seq(|txns|, b => set a: TxnId | a <= b && EpochEdge(txns, a, b))
  }

  ghost function NotebookGraph(txns: seq<Txn>): Graph {
    seq(|txns|, b => set a: TxnId | a <= b && NotebookEdge(txns, a, b))
  }

  ghost function IndivGraph(txns: seq<Txn>): Graph {
    seq(|txns|, b => set a: TxnId | a < b && IndivEdge(txns, a, b))
  }

  /** A path of edges leads from `a` to `b`; every edge goes forward in arrival order. */
  ghost predicate Reaches(g: Graph, a: TxnId, b: TxnId)
    decreases b
  {
    a == b || (b < |g| && exists c: TxnId :: c in g[b] && c < b && Reaches(g, a, c))
  }

  /** The graph orders every conflict by a path. */
  ghost predicate Covers(txns: seq<Txn>, g: Graph) {
    forall a: TxnId, b: TxnId | a < b < |txns| && Conflict(txns, a, b) :: Reaches(g, a, b)
  }

  lemma {:induction false} ReachesTransitive(g: Graph, a: TxnId, b: TxnId, c: TxnId)
    requires Reaches(g, a, b) && Reaches(g, b, c)
    ensures Reaches(g, a, c)
    decreases c
  {
    if b != c {
      var d: TxnId :| d in g[c] && d < c && Reaches(g, b, d);
      ReachesTransitive(g, a, b, d);
    }
  }

  lemma EdgeReaches(g: Graph, a: TxnId, b: TxnId)
    requires a < b < |g| && a in g[b]
    ensures Reaches(g, a, b)
  {
    assert Reaches(g, a, a);
  }

  lemma {:induction false} ReachesForward(g: Graph, a: TxnId, b: TxnId)
    requires Reaches(g, a, b)
    ensures a <= b
    decreases b
  {
    if a != b {
      var c: TxnId :| c in g[b] && c < b && Reaches(g, a, c);
      ReachesForward(g, a, c);
    }
  }

  /** No path leads from a member of `xs` to `b`. */
  ghost predicate NotBehind(g: Graph, xs: set<TxnId>, b: TxnId) {
    forall x | x in xs :: !Reaches(g, x, b)
  }

  // ---------- which conflicts have to be linked ----------

  /** A conflict on `k` with no writer of `k` strictly between. */
  ghost predicate AdjacentOn(txns: seq<Txn>, a: TxnId, b: TxnId, k: Key) {
    a < b < |txns| && ConflictOn(txns, a, b, k) && NoWriterIn(txns, k, a + 1, b)
  }

  /** It is enough to link the conflicts that have no writer between them. */
  lemma {:induction false} AdjacentConflictsSuffice(txns: seq<Txn>, g: Graph, a: TxnId, b: TxnId, k: Key)
    requires forall x: TxnId, y: TxnId, key: Key | AdjacentOn(txns, x, y, key) :: Reaches(g, x, y)
    requires a < b < |txns| && ConflictOn(txns, a, b, k)
    ensures Reaches(g, a, b)
    decreases b - a
  {
    if NoWriterIn(txns, k, a + 1, b) {
      assert AdjacentOn(txns, a, b, k);
    } else {
      var w: TxnId :| a + 1 <= w < b && Writes(txns, w, k);
      AdjacentConflictsSuffice(txns, g, a, w, k);
      AdjacentConflictsSuffice(txns, g, w, b, k);
      ReachesTransitive(g, a, w, b);
    }
  }

  lemma CoversFromAdjacent(txns: seq<Txn>, g: Graph)
    requires forall x: TxnId, y: TxnId, key: Key | AdjacentOn(txns, x, y, key) :: Reaches(g, x, y)
    ensures Covers(txns, g)
  {
    forall a: TxnId, b: TxnId | a < b < |txns| && Conflict(txns, a, b) ensures Reaches(g, a, b) {
      var k :| ConflictOn(txns, a, b, k);
      AdjacentConflictsSuffice(txns, g, a, b, k);
    }
  }

  // ---------- epoch and notebook builders ----------

  /** A reader between two consecutive writers links them through two epoch edges. */
  lemma ReaderLinksWriters(txns: seq<Txn>, g: Graph, a: TxnId, r: TxnId, b: TxnId, k: Key)
    requires |g| == |txns| && forall x: TxnId, y: TxnId | x < y < |txns| && EpochEdge(txns, x, y) :: x in g[y]
    requires AdjacentOn(txns, a, b, k) && Writes(txns, a, k) && Writes(txns, b, k)
    requires a < r < b && Reads(txns, r, k)
    ensures Reaches(g, a, b)
  {
    assert EpochEdgeOn(txns, a, r, k) && EpochEdgeOn(txns, r, b, k);
    assert EpochEdge(txns, a, r) && EpochEdge(txns, r, b);
    EdgeReaches(g, a, r);
    EdgeReaches(g, r, b);
    ReachesTransitive(g, a, r, b);
  }

  /** A graph with all epoch edges covers every conflict if it links the blind pairs. */
  lemma EpochEdgesCover(txns: seq<Txn>, g: Graph)
    requires |g| == |txns| && forall x: TxnId, y: TxnId | x < y < |txns| && EpochEdge(txns, x, y) :: x in g[y]
    requires forall x: TxnId, y: TxnId | BlindPair(txns, x, y) :: Reaches(g, x, y)
    ensures Covers(txns, g)
  {
    forall a: TxnId, b: TxnId, k: Key | AdjacentOn(txns, a, b, k) ensures Reaches(g, a, b) {
      if Writes(txns, a, k) && Writes(txns, b, k) {
        if NoReaderIn(txns, k, a + 1, b) {
          assert BlindPairOn(txns, a, b, k);
          assert BlindPair(txns, a, b);
        } else {
          var r: TxnId :| a + 1 <= r < b && Reads(txns, r, k);
          ReaderLinksWriters(txns, g, a, r, b, k);
        }
      } else {
        assert EpochEdgeOn(txns, a, b, k);
        assert EpochEdge(txns, a, b);
        EdgeReaches(g, a, b);
      }
    }
    CoversFromAdjacent(txns, g);
  }

  lemma BlindPairConflicts(txns: seq<Txn>, a: TxnId, b: TxnId)
    requires BlindPair(txns, a, b)
    ensures a < b < |txns| && Conflict(txns, a, b)
  {
    var k :| BlindPairOn(txns, a, b, k);
    assert ConflictOn(txns, a, b, k);
  }

  /** The epoch graph orders every conflict exactly when it links the blind pairs by other keys. */
  lemma EpochCoversIff(txns: seq<Txn>)
    ensures Covers(txns, EpochGraph(txns))
       <==> forall a: TxnId, b: TxnId | BlindPair(txns, a, b) :: Reaches(EpochGraph(txns), a, b)
  {
    var g := EpochGraph(txns);
    if forall a: TxnId, b: TxnId | BlindPair(txns, a, b) :: Reaches(g, a, b) {
      EpochEdgesCover(txns, g);
    }
    if Covers(txns, g) {
      forall a: TxnId, b: TxnId | BlindPair(txns, a, b) ensures Reaches(g, a, b) {
        BlindPairConflicts(txns, a, b);
      }
    }
  }

  /** The notebook graph orders every conflict, whatever the transactions declare. */
  lemma NotebookCovers(txns: seq<Txn>)
    ensures Covers(txns, NotebookGraph(txns))
  {
    var g := NotebookGraph(txns);
    forall a: TxnId, b: TxnId | BlindPair(txns, a, b) ensures Reaches(g, a, b) {
      BlindPairConflicts(txns, a, b);
      EdgeReaches(g, a, b);
    }
    EpochEdgesCover(txns, g);
  }

  // ---------- individual-lock builder ----------

  lemma IndivLinksReaders(txns: seq<Txn>, a: TxnId, b: TxnId, k: Key)
    requires AdjacentOn(txns, a, b, k)
    requires Reads(txns, a, k) || (Reads(txns, b, k) && !Writes(txns, b, k))
    ensures Reaches(IndivGraph(txns), a, b)
  {
    assert IndivEdgeOn(txns, a, b, k);
    assert IndivEdge(txns, a, b);
    EdgeReaches(IndivGraph(txns), a, b);
  }

  lemma IndivLinksWriters(txns: seq<Txn>, a: TxnId, b: TxnId, k: Key)
    requires AdjacentOn(txns, a, b, k) && Writes(txns, a, k) && Writes(txns, b, k)
    requires StalePairOn(txns, a, b, k) ==> Reaches(IndivGraph(txns), a, b)
    ensures Reaches(IndivGraph(txns), a, b)
  {
    var g := IndivGraph(txns);
    if !NoReaderIn(txns, k, a, b) {
      var r: TxnId :| a <= r < b && Reads(txns, r, k);
      if a < r {
        assert AdjacentOn(txns, a, r, k);
        IndivLinksReaders(txns, a, r, k);
        assert AdjacentOn(txns, r, b, k);
      }
      IndivLinksReaders(txns, r, b, k);
      ReachesTransitive(g, a, r, b);
    } else if NoReaderIn(txns, k, 0, a) {
      assert IndivEdgeOn(txns, a, b, k);
      assert IndivEdge(txns, a, b);
      EdgeReaches(g, a, b);
    }
  }

  lemma StalePairConflicts(txns: seq<Txn>, a: TxnId, b: TxnId)
    requires StalePair(txns, a, b)
    ensures a < b < |txns| && Conflict(txns, a, b)
  {
    var k :| StalePairOn(txns, a, b, k);
    assert ConflictOn(txns, a, b, k);
  }

  /** The individual-lock graph orders every conflict exactly when it links the stale pairs by other keys. */
  lemma IndivCoversIff(txns: seq<Txn>)
    ensures Covers(txns, IndivGraph(txns))
       <==> forall a: TxnId, b: TxnId | StalePair(txns, a, b) :: Reaches(IndivGraph(txns), a, b)
  {
    var g := IndivGraph(txns);
    if forall a: TxnId, b: TxnId | StalePair(txns, a, b) :: Reaches(g, a, b) {
      forall a: TxnId, b: TxnId, k: Key | AdjacentOn(txns, a, b, k) ensures Reaches(g, a, b) {
        if Writes(txns, a, k) && Writes(txns, b, k) {
          if StalePairOn(txns, a, b, k) { assert StalePair(txns, a, b); }
          IndivLinksWriters(txns, a, b, k);
        } else {
          IndivLinksReaders(txns, a, b, k);
        }
      }
      CoversFromAdjacent(txns, g);
    }
    if Covers(txns, g) {
      forall a: TxnId, b: TxnId | StalePair(txns, a, b) ensures Reaches(g, a, b) {
        StalePairConflicts(txns, a, b);
      }
    }
  }
}
