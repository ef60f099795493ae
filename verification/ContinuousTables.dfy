/**
 The two tables of the continuous schedulers, and their loops over the declared
 keys of a request.

 Writes come before reads, and an emptied reader set keeps its table entry.
 With individual locks a writer of a key without such an entry consults the
 previous writer; with global locks it does not, as far as edges that workers
 follow are concerned.
 */
module ContinuousTables {
  import opened Transactions
  import opened Dependencies
  import opened Iteration
  import opened GraphEdges

  type Check = (Key, TxnId)

  /** Whether a writer of a key that nobody has read consults the previous writer. */
  datatype Mode = ConsultsWriter | ReadersOnly

  datatype Tables = Tables(holders: map<Key, set<TxnId>>, last: map<Key, TxnId>, checks: set<Check>)

  // ---------- the scheduler's loops, step by step ----------

  ghost function ChecksOf(k: Key, found: set<TxnId>, t: TxnId): set<Check> {
    set a | a in found && a != t :: (k, a)
  }

  /** What the write loop looks at for one key. */
  ghost function WriteChecks(mode: Mode, tb: Tables, k: Key, t: TxnId): set<Check> {
    if k in tb.holders then ChecksOf(k, tb.holders[k], t)
    else if mode.ConsultsWriter? && k in tb.last then ChecksOf(k, {tb.last[k]}, t)
    else {}
  }

  ghost function WriteKey(mode: Mode, tb: Tables, k: Key, t: TxnId): Tables {
    Tables(if k in tb.holders then tb.holders[k := {}] else tb.holders, tb.last[k := t],
           tb.checks + WriteChecks(mode, tb, k, t))
  }

  ghost function WriteAll(mode: Mode, tb: Tables, order: seq<Key>, t: TxnId): Tables {
    if order == [] then tb
    else WriteKey(mode, WriteAll(mode, tb, order[..|order| - 1], t), order[|order| - 1], t)
  }

  /** What the read loop looks at for one key. */
  ghost function ReadChecks(tb: Tables, k: Key, t: TxnId): set<Check> {
    if k in tb.last then ChecksOf(k, {tb.last[k]}, t) else {}
  }

  ghost function ReadKey(tb: Tables, k: Key, t: TxnId): Tables {
    Tables(tb.holders[k := (if k in tb.holders then tb.holders[k] else {}) + {t}], tb.last,
           tb.checks + ReadChecks(tb, k, t))
  }

  ghost function ReadAll(tb: Tables, order: seq<Key>, t: TxnId): Tables {
    if order == [] then tb
    else ReadKey(ReadAll(tb, order[..|order| - 1], t), order[|order| - 1], t)
  }

  // ---------- the loops ----------

  method LookAtHolders(checks: set<Check>, k: Key, found: set<TxnId>, t: TxnId) returns (checks': set<Check>)
    ensures checks' == checks + ChecksOf(k, found, t)
  {
    checks' := checks;
    var rest := found;
    while rest != {}
      invariant rest <= found && checks' == checks + ChecksOf(k, found - rest, t)
      decreases rest
    {
      var a :| a in rest;
      assert found - (rest - {a}) == (found - rest) + {a};
      rest := rest - {a};
      if a != t {
        checks' := checks' + {(k, a)};
      }
    }
    assert found - {} == found;
  }

  method WriteLoop(mode: Mode, tb: Tables, writeset: set<Key>, t: TxnId) returns (tb': Tables, ghost order: seq<Key>)
    ensures Enumerates(order, writeset) && tb' == WriteAll(mode, tb, order, t)
  {
    tb' := tb;
    var keys := Enumerate(writeset);
    order := keys;
    for i := 0 to |keys|
      invariant tb' == WriteAll(mode, tb, keys[..i], t)
    {
      assert keys[..i + 1][..i] == keys[..i];
      var key, holders, checks := keys[i], tb'.holders, tb'.checks;
      if key in holders {
        checks := LookAtHolders(checks, key, holders[key], t);
        holders := holders[key := {}];
      } else if mode.ConsultsWriter? && key in tb'.last && tb'.last[key] != t {
        checks := checks + {(key, tb'.last[key])};
      }
      assert checks == WriteKey(mode, tb', key, t).checks;
      tb' := Tables(holders, tb'.last[key := t], checks);
    }
    assert keys[..|keys|] == keys;
  }

  method ReadLoop(tb: Tables, readset: set<Key>, t: TxnId) returns (tb': Tables, ghost order: seq<Key>)
    ensures Enumerates(order, readset) && tb' == ReadAll(tb, order, t)
  {
    tb' := tb;
    var keys := Enumerate(readset);
    order := keys;
    for i := 0 to |keys|
      invariant tb' == ReadAll(tb, keys[..i], t)
    {
      assert keys[..i + 1][..i] == keys[..i];
      var key, holders, checks := keys[i], tb'.holders, tb'.checks;
      if key !in holders {
        holders := holders[key := {}];
      }
      holders := holders[key := holders[key] + {t}];
      if key in tb'.last && tb'.last[key] != t {
        checks := checks + {(key, tb'.last[key])};
      }
      assert checks == ReadKey(tb', key, t).checks;
      assert holders == ReadKey(tb', key, t).holders;
      tb' := Tables(holders, tb'.last, checks);
    }
    assert keys[..|keys|] == keys;
  }

  // ---------- what the loops add up to ----------

  ghost predicate SameKey(tb: Tables, tb': Tables, k: Key) {
    && (k in tb'.holders <==> k in tb.holders) && (k in tb.holders ==> tb'.holders[k] == tb.holders[k])
    && (k in tb'.last <==> k in tb.last) && (k in tb.last ==> tb'.last[k] == tb.last[k])
  }

  /** Key `k` after the write loop has dealt with it. */
  ghost predicate Written(tb: Tables, tb': Tables, k: Key, t: TxnId) {
    && (k in tb'.holders <==> k in tb.holders) && (k in tb.holders ==> tb'.holders[k] == {})
    && k in tb'.last && tb'.last[k] == t
  }

  lemma {:induction false} WriteAllTables(mode: Mode, tb: Tables, order: seq<Key>, t: TxnId, k: Key)
    requires Distinct(order)
    ensures var tb' := WriteAll(mode, tb, order, t);
            if k in order then Written(tb, tb', k, t) else SameKey(tb, tb', k)
    decreases |order|
  {
    if order != [] {
      WriteAllTables(mode, tb, order[..|order| - 1], t, k);
      MemberOfPrefix(order, k);
    }
  }

  lemma {:induction false} WriteAllChecks(mode: Mode, tb: Tables, order: seq<Key>, t: TxnId, k: Key, a: TxnId)
    requires Distinct(order)
    ensures (k, a) in WriteAll(mode, tb, order, t).checks
       <==> (k, a) in tb.checks || (k in order && (k, a) in WriteChecks(mode, tb, k, t))
    decreases |order|
  {
    if order != [] {
      var before, key := order[..|order| - 1], order[|order| - 1];
      WriteAllChecks(mode, tb, before, t, k, a);
      WriteAllTables(mode, tb, before, t, key);
      MemberOfPrefix(order, k);
    }
  }

  /** Key `k` after the read loop has dealt with it. */
  ghost predicate ReadOnce(tb: Tables, tb': Tables, k: Key, t: TxnId) {
    k in tb'.holders && tb'.holders[k] == (if k in tb.holders then tb.holders[k] else {}) + {t}
  }

  lemma {:induction false} ReadAllTables(tb: Tables, order: seq<Key>, t: TxnId, k: Key)
    requires Distinct(order)
    ensures var tb' := ReadAll(tb, order, t);
            tb'.last == tb.last && if k in order then ReadOnce(tb, tb', k, t) else SameKey(tb, tb', k)
    decreases |order|
  {
    if order != [] {
      ReadAllTables(tb, order[..|order| - 1], t, k);
      MemberOfPrefix(order, k);
    }
  }

  lemma {:induction false} ReadAllChecks(tb: Tables, order: seq<Key>, t: TxnId, k: Key, a: TxnId)
    requires Distinct(order)
    ensures (k, a) in ReadAll(tb, order, t).checks
       <==> (k, a) in tb.checks || (k in order && (k, a) in ReadChecks(tb, k, t))
    decreases |order|
  {
    if order != [] {
      var before, key := order[..|order| - 1], order[|order| - 1];
      ReadAllChecks(tb, before, t, k, a);
      ReadAllTables(tb, before, t, key);
      MemberOfPrefix(order, k);
    }
  }

  // ---------- what the tables mean ----------

  /** `r` is a reader of `k` that no later writer has followed yet. */
  ghost predicate ReaderSince(txns: seq<Txn>, t: nat, k: Key, r: TxnId) {
    r < t && Reads(txns, r, k) && NoWriterIn(txns, k, r + 1, t)
  }

  /** An entry says that the key has been read at some time, not that it has a reader now. */
  ghost predicate TablesOf(txns: seq<Txn>, t: nat, tb: Tables) {
    && (forall k: Key :: k in tb.holders <==> !NoReaderIn(txns, k, 0, t))
    && (forall k: Key, r: TxnId :: Holds(tb.holders, k, r) <==> ReaderSince(txns, t, k, r))
    && (forall k: Key, w: TxnId :: LastIs(tb.last, k, w) <==> LastWriter(txns, 0, t, k, w))
  }

  /** The tables after both loops, in terms of those before. */
  lemma BothLoopsTables(mode: Mode, txns: seq<Txn>, t: TxnId, tb: Tables, writeOrder: seq<Key>, readOrder: seq<Key>, k: Key)
    requires t < |txns|
    requires Enumerates(readOrder, txns[t].readset) && Enumerates(writeOrder, txns[t].writeset)
    ensures var tb' := ReadAll(WriteAll(mode, tb, writeOrder, t), readOrder, t);
            && (k in tb'.holders <==> k in tb.holders || Reads(txns, t, k))
            && (forall r: TxnId :: Holds(tb'.holders, k, r)
                  <==> (Holds(tb.holders, k, r) && !Writes(txns, t, k)) || (r == t && Reads(txns, t, k)))
            && (forall w: TxnId :: LastIs(tb'.last, k, w)
                  <==> if Writes(txns, t, k) then w == t else LastIs(tb.last, k, w))
  {
    WriteAllTables(mode, tb, writeOrder, t, k);
    ReadAllTables(WriteAll(mode, tb, writeOrder, t), readOrder, t, k);
  }

  /** The same three facts about arrival order. */
  lemma MeaningAdvances(txns: seq<Txn>, t: TxnId, k: Key)
    requires t < |txns|
    ensures !NoReaderIn(txns, k, 0, t + 1) <==> !NoReaderIn(txns, k, 0, t) || Reads(txns, t, k)
    ensures forall r: TxnId :: ReaderSince(txns, t + 1, k, r)
                  <==> (ReaderSince(txns, t, k, r) && !Writes(txns, t, k)) || (r == t && Reads(txns, t, k))
    ensures forall w: TxnId :: LastWriter(txns, 0, t + 1, k, w)
                  <==> if Writes(txns, t, k) then w == t else LastWriter(txns, 0, t, k, w)
  {
    var n := t + 1;
    forall w: TxnId ensures LastWriter(txns, 0, n, k, w)
                       <==> if Writes(txns, t, k) then w == t else LastWriter(txns, 0, t, k, w) {
      var next := w + 1;
      assert w < t ==> (NoWriterIn(txns, k, next, n) <==> NoWriterIn(txns, k, next, t) && !Writes(txns, t, k));
    }
  }

  lemma TablesAdvance(mode: Mode, txns: seq<Txn>, t: TxnId, tb: Tables, writeOrder: seq<Key>, readOrder: seq<Key>)
    requires t < |txns| && TablesOf(txns, t, tb)
    requires Enumerates(readOrder, txns[t].readset) && Enumerates(writeOrder, txns[t].writeset)
    ensures TablesOf(txns, t + 1, ReadAll(WriteAll(mode, tb, writeOrder, t), readOrder, t))
  {
    var tb', n := ReadAll(WriteAll(mode, tb, writeOrder, t), readOrder, t), t + 1;
    forall k: Key ensures k in tb'.holders <==> !NoReaderIn(txns, k, 0, n) {
      BothLoopsTables(mode, txns, t, tb, writeOrder, readOrder, k);
      MeaningAdvances(txns, t, k);
    }
    forall k: Key, r: TxnId ensures Holds(tb'.holders, k, r) <==> ReaderSince(txns, n, k, r) {
      BothLoopsTables(mode, txns, t, tb, writeOrder, readOrder, k);
      MeaningAdvances(txns, t, k);
    }
    forall k: Key, w: TxnId ensures LastIs(tb'.last, k, w) <==> LastWriter(txns, 0, n, k, w) {
      BothLoopsTables(mode, txns, t, tb, writeOrder, readOrder, k);
      MeaningAdvances(txns, t, k);
    }
  }
}
