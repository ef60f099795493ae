/**
 The serial scheduler, and the two pieces of code that every scheduler shares:
 reading a footprint before the logic runs, and applying a write buffer.
 */
module SerialScheduler {
  import opened Transactions

  class Storage {
    var data: Store

    constructor (data: Store)
      ensures this.data == data
    {
      this.data := data;
    }

    method Read(key: Key) returns (found: bool, result: Value)
      ensures found <==> key in data
      ensures found ==> result == data[key]
    {
      found, result := key in data, 0;
      if found { result := data[key]; }
    }

    method Write(key: Key, value: Value)
      modifies this
      ensures data == old(data)[key := value]
    {
      data := data[key := value];
    }
  }

  /** Reads add to what was read before; a key in both declared sets is read twice. */
  method ReadKeys(storage: Storage, keys: set<Key>, before: Store) returns (seen: Store)
    ensures seen == before + Snapshot(storage.data, keys)
  {
    seen := before;
    var rest := keys;
    while rest != {}
      invariant rest <= keys && seen == before + Snapshot(storage.data, keys - rest)
      decreases rest
    {
      var key :| key in rest;
      var found, value := storage.Read(key);
      if found { seen := seen[key := value]; }
      rest := rest - {key};
    }
    assert keys - rest == keys;
  }

  method ExecuteTxn(storage: Storage, txn: Txn) returns (seen: Store, outcome: Outcome)
    ensures seen == Snapshot(storage.data, txn.Footprint()) && outcome == txn.logic(seen)
  {
    seen := ReadKeys(storage, txn.readset, map[]);
    seen := ReadKeys(storage, txn.writeset, seen);
    assert seen == Snapshot(storage.data, txn.Footprint());
    outcome := txn.logic(seen);
  }

  method ApplyWrites(storage: Storage, writes: Store)
    modifies storage
    ensures storage.data == old(storage.data) + writes
  {
    var rest := writes.Keys;
    while rest != {}
      invariant rest <= writes.Keys
      invariant storage.data == old(storage.data) + Snapshot(writes, writes.Keys - rest)
      decreases rest
    {
      var key :| key in rest;
      storage.Write(key, writes[key]);
      rest := rest - {key};
    }
    assert Snapshot(writes, writes.Keys - rest) == writes;
  }

  /** Pop a request, execute it, apply its writes if it votes to commit, hand the result back. */
  method RunSerial(storage: Storage, requests: seq<Txn>) returns (results: seq<Result>)
    modifies storage
    ensures storage.data == SerialStore(old(storage.data), requests, |requests|)
    ensures |results| == |requests|
    ensures forall t | 0 <= t < |requests| :: results[t] == SerialResult(old(storage.data), requests, t)
    ensures Explained(old(storage.data), requests, results)
    ensures storage.data == Overridden(old(storage.data), requests, results, |requests|)
  {
    results := [];
    ghost var init := storage.data;
    for t := 0 to |requests|
      invariant storage.data == SerialStore(init, requests, t)
      invariant |results| == t
      invariant forall u | 0 <= u < t :: results[u] == SerialResult(init, requests, u)
    {
      var seen, outcome := ExecuteTxn(storage, requests[t]);
      if outcome.commit {
        ApplyWrites(storage, outcome.writes);
      }
      assert storage.data == SerialStore(init, requests, t + 1);
      results := results + [Result(t, outcome.commit, seen)];
    }
    ResultsExplained(init, requests, results);
  }
}
