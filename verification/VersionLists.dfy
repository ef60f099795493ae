/** Multi-version storage: for every key a list of versions, newest id first, and the log it stands for. */
module VersionLists {
  import opened Transactions

  // The meaning is a log of the operations so far.  A read at timestamp `ts` is to return,
  // among the values put under that key with an id of at most `ts`, the last one put with
  // the largest such id.  The list finds it by looking at its front part only, whatever the
  // order in which ids arrived.

  datatype Version = Version(value: Value, id: int, maxRead: int)

  type Versions = seq<Version>

  /** Ids do not increase from front to back. */
  ghost predicate Sorted(vs: Versions) {
    forall i, j | 0 <= i < j < |vs| :: vs[i].id >= vs[j].id
  }

  /** The version that a read at `ts` is served from: the first one not newer. */
  ghost function FirstAtMost(vs: Versions, ts: int): nat {
    if vs == [] || vs[0].id <= ts then 0 else 1 + FirstAtMost(vs[1..], ts)
  }

  /** `v` goes behind the versions with a larger id. */
  ghost function Inserted(vs: Versions, v: Version): Versions {
    if vs == [] || vs[0].id <= v.id then [v] + vs else [vs[0]] + Inserted(vs[1..], v)
  }

  ghost function Marked(vs: Versions, ts: int): Versions {
    var i := FirstAtMost(vs, ts);
    if i < |vs| then vs[i := vs[i].(maxRead := ts)] else vs
  }

  datatype Found = Nothing | Found(value: Value, id: int)

  ghost function Served(vs: Versions, ts: int): Found {
    var i := FirstAtMost(vs, ts);
    if i < |vs| then Found(vs[i].value, vs[i].id) else Nothing
  }

  lemma {:induction false} FirstAtMostIsFirst(vs: Versions, ts: int)
    ensures var i := FirstAtMost(vs, ts);
            && i <= |vs| && (forall j | 0 <= j < i :: vs[j].id > ts) && (i < |vs| ==> vs[i].id <= ts)
    decreases |vs|
  {
    if vs != [] && vs[0].id > ts {
      FirstAtMostIsFirst(vs[1..], ts);
      var i := FirstAtMost(vs[1..], ts);
      forall j | 0 <= j < 1 + i ensures vs[j].id > ts {
        if j > 0 { assert vs[1..][j - 1].id > ts; }
      }
    }
  }

  lemma {:induction false} FirstAtMostUnique(vs: Versions, ts: int, i: nat)
    requires i <= |vs| && (forall j | 0 <= j < i :: vs[j].id > ts) && (i < |vs| ==> vs[i].id <= ts)
    ensures FirstAtMost(vs, ts) == i
  {
    FirstAtMostIsFirst(vs, ts);
  }

  /** The place of insertion is the place a read at the same id looks at. */
  lemma {:induction false} InsertedAt(vs: Versions, v: Version)
    ensures var i := FirstAtMost(vs, v.id);
            i <= |vs| && Inserted(vs, v) == vs[..i] + [v] + vs[i..]
    decreases |vs|
  {
    FirstAtMostIsFirst(vs, v.id);
    if vs != [] && vs[0].id > v.id {
      InsertedAt(vs[1..], v);
      var i := FirstAtMost(vs[1..], v.id);
      assert vs[..1 + i] == [vs[0]] + vs[1..][..i];
      assert vs[1 + i..] == vs[1..][i..];
    }
  }

  lemma InsertedSorted(vs: Versions, v: Version)
    requires Sorted(vs)
    ensures Sorted(Inserted(vs, v))
  {
    InsertedAt(vs, v);
    FirstAtMostIsFirst(vs, v.id);
  }

  /** Insertion decides reads between the new id and the next larger one, and no others. */
  lemma InsertedServes(vs: Versions, v: Version, ts: int)
    requires Sorted(vs)
    ensures var before, after := Served(vs, ts), Served(Inserted(vs, v), ts);
            if v.id <= ts && (before.Nothing? || before.id <= v.id) then after == Found(v.value, v.id)
            else after == before
  {
    InsertedAt(vs, v);
    FirstAtMostIsFirst(vs, v.id);
    FirstAtMostIsFirst(vs, ts);
    var i, p := FirstAtMost(vs, ts), FirstAtMost(vs, v.id);
    var vs' := vs[..p] + [v] + vs[p..];
    assert Inserted(vs, v) == vs';
    if v.id <= ts && (i == |vs| || vs[i].id <= v.id) {
      FirstAtMostUnique(vs', ts, p);
    } else if v.id > ts {
      FirstAtMostUnique(vs', ts, i + 1);
    } else {
      FirstAtMostUnique(vs', ts, i);
    }
  }

  /** A read leaves every later read as it was. */
  lemma MarkedServes(vs: Versions, ts: int, other: int)
    ensures |Marked(vs, ts)| == |vs|
    ensures forall i | 0 <= i < |vs| :: Marked(vs, ts)[i].id == vs[i].id && Marked(vs, ts)[i].value == vs[i].value
    ensures Served(Marked(vs, ts), other) == Served(vs, other)
  {
    FirstAtMostIsFirst(vs, other);
    FirstAtMostUnique(Marked(vs, ts), other, FirstAtMost(vs, other));
  }

  // ---------- the operations on the storage ----------

  type Data = map<Key, Versions>

  ghost function VersionsOf(data: Data, k: Key): Versions {
    if k in data then data[k] else []
  }

  ghost function DataAfterRead(data: Data, k: Key, ts: int): Data {
    if k in data then data[k := Marked(data[k], ts)] else data
  }

  ghost function DataAfterWrite(data: Data, k: Key, value: Value, id: int): Data {
    data[k := Inserted(VersionsOf(data, k), Version(value, id, 0))]
  }

  /** The check before a commit: nobody has put a version newer than `id`. */
  ghost predicate KeyIsSafe(data: Data, k: Key, id: int) {
    VersionsOf(data, k) != [] && data[k][0].id <= id
  }

  /** Position `i` holds the first version not newer than `ts`; in a sorted list no such version has a larger id. */
  ghost predicate ServedAt(vs: Versions, ts: int, i: int) {
    && 0 <= i < |vs| && vs[i].id <= ts && (forall j | 0 <= j < i :: vs[j].id > ts)
    && (Sorted(vs) ==> forall j | 0 <= j < |vs| && vs[j].id <= ts :: vs[j].id <= vs[i].id)
  }

  ghost predicate OtherKeysSame(before: Data, after: Data, k: Key) {
    forall x: Key | x != k :: VersionsOf(after, x) == VersionsOf(before, x) && (x in after <==> x in before)
  }

  /** A read gives the value of the version that serves it and marks that version with its timestamp, and no other. */
  ghost predicate ReadDoes(before: Data, k: Key, ts: int, found: bool, result: Value, after: Data) {
    var vs := VersionsOf(before, k);
    && OtherKeysSame(before, after, k)
    && if found then
         exists i :: ServedAt(vs, ts, i) && result == vs[i].value && k in after
                     && after[k] == vs[i := Version(vs[i].value, vs[i].id, ts)]
       else
         after == before && forall v | v in vs :: v.id > ts
  }

  /** A write adds one unmarked version, behind all larger ids and before all that are not. */
  ghost predicate WriteDoes(before: Data, k: Key, value: Value, id: int, after: Data) {
    var vs := VersionsOf(before, k);
    && OtherKeysSame(before, after, k) && k in after
    && exists p: nat ::
         && p <= |vs| && after[k] == vs[..p] + [Version(value, id, 0)] + vs[p..]
         && (forall j | 0 <= j < p :: vs[j].id > id)
         && (p < |vs| ==> vs[p].id <= id)
  }

  lemma ReadAsSpecified(data: Data, k: Key, ts: int)
    ensures var found := Served(VersionsOf(data, k), ts);
            ReadDoes(data, k, ts, found.Found?, if found.Found? then found.value else 0, DataAfterRead(data, k, ts))
  {
    var vs := VersionsOf(data, k);
    var i := FirstAtMost(vs, ts);
    FirstAtMostIsFirst(vs, ts);
    if i < |vs| {
      assert ServedAt(vs, ts, i);
    } else {
      assert DataAfterRead(data, k, ts) == data;
    }
  }

  lemma WriteAsSpecified(data: Data, k: Key, value: Value, id: int)
    ensures WriteDoes(data, k, value, id, DataAfterWrite(data, k, value, id))
  {
    InsertedAt(VersionsOf(data, k), Version(value, id, 0));
    FirstAtMostIsFirst(VersionsOf(data, k), id);
  }

  class MVCCStorage {
    var data: Data

    constructor ()
      ensures data == map[]
    {
      data := map[];
    }

    method Read(key: Key, ts: int) returns (found: bool, result: Value)
      modifies this
      ensures data == DataAfterRead(old(data), key, ts)
      ensures found <==> Served(VersionsOf(old(data), key), ts).Found?
      ensures found ==> result == Served(VersionsOf(old(data), key), ts).value
      ensures ReadDoes(old(data), key, ts, found, result, data)
    {
      found, result := false, 0;
      ReadAsSpecified(data, key, ts);
      if key !in data { return; }
      var versions, i := data[key], 0;
      while i < |versions|
        invariant 0 <= i <= |versions| && data == old(data)
        invariant forall j | 0 <= j < i :: versions[j].id > ts
      {
        if versions[i].id <= ts {
          FirstAtMostUnique(versions, ts, i);
          data := data[key := versions[i := versions[i].(maxRead := ts)]];
          return true, versions[i].value;
        }
        i := i + 1;
      }
      FirstAtMostUnique(versions, ts, |versions|);
      assert data[key := versions] == data;
    }

    method CheckKey(key: Key, id: int) returns (safe: bool)
      ensures safe == KeyIsSafe(data, key, id)
      ensures Sorted(VersionsOf(data, key)) ==>
                (safe <==> key in data && data[key] != [] && forall v | v in data[key] :: v.id <= id)
    {
      safe := key in data && data[key] != [] && id >= data[key][0].id;
    }

    method Write(key: Key, value: Value, id: int)
      modifies this
      ensures data == DataAfterWrite(old(data), key, value, id)
      ensures WriteDoes(old(data), key, value, id, data)
    {
      WriteAsSpecified(data, key, value, id);
      if key !in data {
        data := data[key := []];
      }
      var versions, i := data[key], 0;
      while i < |versions| && versions[i].id > id
        invariant 0 <= i <= |versions|
        invariant forall j | 0 <= j < i :: versions[j].id > id
      {
        i := i + 1;
      }
      FirstAtMostUnique(versions, id, i);
      InsertedAt(versions, Version(value, id, 0));
      data := data[key := versions[..i] + [Version(value, id, 0)] + versions[i..]];
    }
  }

  // ---------- the log ----------

  datatype Op = Put(key: Key, value: Value, id: int) | Get(key: Key, ts: int)

  /** The lists after a log of operations on an empty storage. */
  ghost function Replay(log: seq<Op>): Data {
    if log == [] then map[]
    else
      var data := Replay(log[..|log| - 1]);
      match log[|log| - 1]
      case Put(key, value, id) => DataAfterWrite(data, key, value, id)
      case Get(key, ts) => DataAfterRead(data, key, ts)
  }

  /** Entry `i` puts a version of `k` that a read at `ts` may see. */
  ghost predicate Candidate(log: seq<Op>, k: Key, ts: int, i: int) {
    0 <= i < |log| && log[i].Put? && log[i].key == k && log[i].id <= ts
  }

  /** ... and no other candidate has a larger id, or the same id and a later place in the log. */
  ghost predicate Latest(log: seq<Op>, k: Key, ts: int, i: int) {
    && Candidate(log, k, ts, i)
    && forall j | Candidate(log, k, ts, j) :: log[j].id < log[i].id || (log[j].id == log[i].id && j <= i)
  }

  /** The answer the log gives, without any list. */
  ghost predicate Answers(log: seq<Op>, k: Key, ts: int, found: Found) {
    match found
    case Nothing => forall i :: !Candidate(log, k, ts, i)
    case Found(value, id) => exists i :: Latest(log, k, ts, i) && log[i].value == value && log[i].id == id
  }

  lemma {:induction false} ReplaySorted(log: seq<Op>, k: Key)
    ensures Sorted(VersionsOf(Replay(log), k))
    decreases |log|
  {
    if log != [] {
      var before, op := log[..|log| - 1], log[|log| - 1];
      ReplaySorted(before, k);
      var vs := VersionsOf(Replay(before), k);
      if op.Put? {
        InsertedSorted(vs, Version(op.value, op.id, 0));
      } else {
        MarkedServes(vs, op.ts, 0);
      }
    }
  }

  /** A put of another key, or a get, does not change the answer. */
  lemma AnswerStays(log: seq<Op>, op: Op, k: Key, ts: int, found: Found)
    requires op.Put? ==> op.key != k || op.id > ts
    requires Answers(log, k, ts, found)
    ensures Answers(log + [op], k, ts, found)
  {
    var log' := log + [op];
    assert forall i :: Candidate(log', k, ts, i) <==> Candidate(log, k, ts, i);
    if found.Found? {
      var i :| Latest(log, k, ts, i) && log[i].value == found.value && log[i].id == found.id;
      assert Latest(log', k, ts, i);
    }
  }

  /** A put that a read at `ts` may see wins over an older answer, and loses against a newer one. */
  lemma AnswerMoves(log: seq<Op>, op: Op, k: Key, ts: int, found: Found)
    requires op.Put? && op.key == k && op.id <= ts
    requires Answers(log, k, ts, found)
    ensures Answers(log + [op], k, ts, if found.Nothing? || found.id <= op.id then Found(op.value, op.id) else found)
  {
    var log' := log + [op];
    assert forall i :: Candidate(log', k, ts, i) <==> Candidate(log, k, ts, i) || i == |log|;
    if found.Found? {
      var i :| Latest(log, k, ts, i) && log[i].value == found.value && log[i].id == found.id;
      if found.id > op.id {
        assert Latest(log', k, ts, i);
      } else {
        assert Latest(log', k, ts, |log|);
      }
    } else {
      assert Latest(log', k, ts, |log|);
    }
  }

  /** What the list serves is what the log answers, for ids in any order and repeated. */
  lemma {:induction false} ServesTheLog(log: seq<Op>, k: Key, ts: int)
    ensures Answers(log, k, ts, Served(VersionsOf(Replay(log), k), ts))
    decreases |log|
  {
    if log != [] {
      var before, op := log[..|log| - 1], log[|log| - 1];
      var vs := VersionsOf(Replay(before), k);
      ServesTheLog(before, k, ts);
      ReplaySorted(before, k);
      assert log == before + [op];
      if op.Put? && op.key == k {
        InsertedServes(vs, Version(op.value, op.id, 0), ts);
        if op.id <= ts {
          AnswerMoves(before, op, k, ts, Served(vs, ts));
        } else {
          AnswerStays(before, op, k, ts, Served(vs, ts));
        }
      } else {
        if op.Get? { MarkedServes(VersionsOf(Replay(before), op.key), op.ts, ts); }
        AnswerStays(before, op, k, ts, Served(vs, ts));
      }
    }
  }

  /** There is only one answer, so the list is determined by the log as far as reads can tell. */
  lemma OneAnswer(log: seq<Op>, k: Key, ts: int, x: Found, y: Found)
    requires Answers(log, k, ts, x) && Answers(log, k, ts, y)
    ensures x == y
  {
    if x.Found? && y.Found? {
      var i :| Latest(log, k, ts, i) && log[i].value == x.value && log[i].id == x.id;
      var j :| Latest(log, k, ts, j) && log[j].value == y.value && log[j].id == y.id;
      assert i == j;
    }
  }
}
