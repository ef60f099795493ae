/** Which transactions the global-lock scheduler looks at when it links a request. */
module GlobalBuilder {
  import opened Transactions
  import opened Dependencies
  import opened Iteration
  import opened GraphEdges
  import opened GlobalLocks
  import opened ContinuousTables

  /** What the write loop looks at for a key it writes. */
  lemma WriteChecksMean(txns: seq<Txn>, t: TxnId, tb: Tables, k: Key, a: TxnId)
    requires t < |txns| && TablesOf(txns, t, tb) && Writes(txns, t, k)
    ensures (k, a) in WriteChecks(ReadersOnly, tb, k, t) <==> LookedAtOn(txns, a, t, k)
  {
    assert Holds(tb.holders, k, a) <==> ReaderSince(txns, t, k, a);
    assert k in tb.holders <==> !NoReaderIn(txns, k, 0, t);
  }

  /** What the read loop looks at for a key it reads. */
  lemma ReadChecksMean(txns: seq<Txn>, t: TxnId, tb: Tables, mid: Tables, k: Key, a: TxnId)
    requires t < |txns| && TablesOf(txns, t, tb) && Reads(txns, t, k)
    requires if Writes(txns, t, k) then Written(tb, mid, k, t) else SameKey(tb, mid, k)
    ensures (k, a) in ReadChecks(mid, k, t) <==> !Writes(txns, t, k) && LookedAtOn(txns, a, t, k)
  {
    assert LastIs(tb.last, k, a) <==> LastWriter(txns, 0, t, k, a);
  }

  /** The transactions found under some key. */
  ghost function FoundBy(checks: set<Check>): set<TxnId> {
    set p | p in checks :: p.1
  }

  lemma LooksAtSources(txns: seq<Txn>, t: TxnId, tb: Tables, writeOrder: seq<Key>, readOrder: seq<Key>)
    requires t < |txns| && TablesOf(txns, t, tb) && tb.checks == {}
    requires Enumerates(readOrder, txns[t].readset) && Enumerates(writeOrder, txns[t].writeset)
    ensures FoundBy(ReadAll(WriteAll(ReadersOnly, tb, writeOrder, t), readOrder, t).checks) == Sources(txns, t)
  {
    var mid := WriteAll(ReadersOnly, tb, writeOrder, t);
    var checks := ReadAll(mid, readOrder, t).checks;
    forall k: Key, a: TxnId ensures (k, a) in checks <==> LookedAtOn(txns, a, t, k) {
      WriteAllChecks(ReadersOnly, tb, writeOrder, t, k, a);
      WriteAllTables(ReadersOnly, tb, writeOrder, t, k);
      ReadAllChecks(mid, readOrder, t, k, a);
      if Writes(txns, t, k) { WriteChecksMean(txns, t, tb, k, a); }
      if Reads(txns, t, k) { ReadChecksMean(txns, t, tb, mid, k, a); }
    }
    forall a: TxnId ensures a in FoundBy(checks) <==> a in Sources(txns, t) {
      if a in FoundBy(checks) {
        var p :| p in checks && p.1 == a;
        assert (p.0, a) in checks && LookedAtOn(txns, a, t, p.0);
        assert LookedAt(txns, a, t);
      }
      if a in Sources(txns, t) {
        var k: Key :| LookedAtOn(txns, a, t, k);
        assert (k, a) in checks;
      }
    }
  }

  /** One request: what it is checked against is where the protocol model starts from. */
  method ScanRequest(txns: seq<Txn>, t: TxnId, tb: Tables) returns (tb': Tables, sources: set<TxnId>)
    requires t < |txns| && TablesOf(txns, t, tb)
    ensures TablesOf(txns, t + 1, tb') && sources == Sources(txns, t)
  {
    var start := tb.(checks := {});
    ghost var writeOrder, readOrder;
    var mid;
    mid, writeOrder := WriteLoop(ReadersOnly, start, txns[t].writeset, t);
    tb', readOrder := ReadLoop(mid, txns[t].readset, t);
    TablesAdvance(ReadersOnly, txns, t, start, writeOrder, readOrder);
    LooksAtSources(txns, t, start, writeOrder, readOrder);
    sources := set p | p in tb'.checks :: p.1;
  }

  /** The whole arrival list, from empty tables. */
  method ScanRequests(txns: seq<Txn>) returns (sources: seq<set<TxnId>>)
    ensures |sources| == |txns| && forall t: TxnId | t < |txns| :: sources[t] == Sources(txns, t)
  {
    var tb := Tables(map[], map[], {});
    sources := [];
    for t := 0 to |txns|
      invariant TablesOf(txns, t, tb)
      invariant |sources| == t && forall u: TxnId | u < t :: sources[u] == Sources(txns, u)
    {
      var found;
      tb, found := ScanRequest(txns, t, tb);
      sources := sources + [found];
    }
  }
}
