/** Which transactions the individual-lock scheduler looks at when it links a request. */
module IndividualBuilder {
  import opened Transactions
  import opened Dependencies
  import opened Iteration
  import opened GraphEdges
  import opened IndividualLocks
  import opened ContinuousTables

  /** What the write loop looks at for a key it writes. */
  lemma WriteChecksMean(txns: seq<Txn>, t: TxnId, tb: Tables, k: Key, a: TxnId)
    requires t < |txns| && TablesOf(txns, t, tb) && Writes(txns, t, k)
    ensures (k, a) in WriteChecks(ConsultsWriter, tb, k, t) <==> IndivEdgeOn(txns, a, t, k)
  {
    assert Holds(tb.holders, k, a) <==> ReaderSince(txns, t, k, a);
    assert LastIs(tb.last, k, a) <==> LastWriter(txns, 0, t, k, a);
    assert k in tb.holders <==> !NoReaderIn(txns, k, 0, t);
  }

  /** What the read loop looks at for a key it reads. */
  lemma ReadChecksMean(txns: seq<Txn>, t: TxnId, tb: Tables, mid: Tables, k: Key, a: TxnId)
    requires t < |txns| && TablesOf(txns, t, tb) && Reads(txns, t, k)
    requires if Writes(txns, t, k) then Written(tb, mid, k, t) else SameKey(tb, mid, k)
    ensures (k, a) in ReadChecks(mid, k, t) <==> !Writes(txns, t, k) && IndivEdgeOn(txns, a, t, k)
  {
    assert LastIs(tb.last, k, a) <==> LastWriter(txns, 0, t, k, a);
  }

  lemma LooksAtChecks(txns: seq<Txn>, t: TxnId, tb: Tables, writeOrder: seq<Key>, readOrder: seq<Key>)
    requires t < |txns| && TablesOf(txns, t, tb) && tb.checks == {}
    requires Enumerates(readOrder, txns[t].readset) && Enumerates(writeOrder, txns[t].writeset)
    ensures ReadAll(WriteAll(ConsultsWriter, tb, writeOrder, t), readOrder, t).checks == Checks(txns, t)
  {
    var mid := WriteAll(ConsultsWriter, tb, writeOrder, t);
    forall p: Check ensures p in ReadAll(mid, readOrder, t).checks <==> p in Checks(txns, t) {
      var (k, a) := p;
      WriteAllChecks(ConsultsWriter, tb, writeOrder, t, k, a);
      WriteAllTables(ConsultsWriter, tb, writeOrder, t, k);
      ReadAllChecks(mid, readOrder, t, k, a);
      if Writes(txns, t, k) { WriteChecksMean(txns, t, tb, k, a); }
      if Reads(txns, t, k) { ReadChecksMean(txns, t, tb, mid, k, a); }
    }
  }

  /** One request: its checks are the ones the protocol model starts from. */
  method ScanRequest(txns: seq<Txn>, t: TxnId, tb: Tables) returns (tb': Tables)
    requires t < |txns| && TablesOf(txns, t, tb)
    ensures TablesOf(txns, t + 1, tb') && tb'.checks == Checks(txns, t)
  {
    var start := tb.(checks := {});
    ghost var writeOrder, readOrder;
    var mid;
    mid, writeOrder := WriteLoop(ConsultsWriter, start, txns[t].writeset, t);
    tb', readOrder := ReadLoop(mid, txns[t].readset, t);
    TablesAdvance(ConsultsWriter, txns, t, start, writeOrder, readOrder);
    LooksAtChecks(txns, t, start, writeOrder, readOrder);
  }

  /** The whole arrival list: for every request, the checks of the protocol model. */
  method ScanRequests(txns: seq<Txn>) returns (checks: seq<set<Check>>)
    ensures |checks| == |txns| && forall t: TxnId | t < |txns| :: checks[t] == Checks(txns, t)
  {
    var tb := Tables(map[], map[], {});
    checks := [];
    for t := 0 to |txns|
      invariant TablesOf(txns, t, tb)
      invariant |checks| == t && forall u: TxnId | u < t :: checks[u] == Checks(txns, u)
    {
      tb := ScanRequest(txns, t, tb);
      checks := checks + [tb.checks];
    }
  }
}
