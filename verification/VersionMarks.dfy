/** The read mark of a version, in terms of the log of operations. */
module VersionMarks {
  import opened Transactions
  import opened VersionLists

  // ---------- versions and the puts they come from ----------

  /** The log entries that put the versions of `k`, in the order of the list. */
  ghost function Place(log: seq<Op>, k: Key): seq<nat> {
    if log == [] then []
    else
      var front, op := log[..|log| - 1], log[|log| - 1];
      var place, i := Place(front, k), PlaceOf(front, k, op);
      if op.Put? && op.key == k && i <= |place| then place[..i] + [|front|] + place[i..] else place
  }

  ghost function PlaceOf(front: seq<Op>, k: Key, op: Op): nat {
    if op.Put? then FirstAtMost(VersionsOf(Replay(front), k), op.id) else 0
  }

  ghost predicate PutsKey(log: seq<Op>, p: nat, k: Key) {
    p < |log| && log[p].Put? && log[p].key == k
  }

  /** The timestamps of the gets that were served from entry `p`, in log order. */
  ghost function Readers(log: seq<Op>, p: nat): seq<int>
    requires p < |log| && log[p].Put?
    decreases |log|
  {
    if |log| == p + 1 then []
    else
      var front, op := log[..|log| - 1], log[|log| - 1];
      if op.Get? && op.key == log[p].key && Latest(front, op.key, op.ts, p)
      then Readers(front, p) + [op.ts] else Readers(front, p)
  }

  /** The last of them, and zero if there was none. */
  ghost function MarkOf(log: seq<Op>, p: nat): int
    requires p < |log| && log[p].Put?
  {
    var readers := Readers(log, p);
    if readers == [] then 0 else readers[|readers| - 1]
  }

  ghost predicate ComesFrom(log: seq<Op>, v: Version, p: nat) {
    p < |log| && log[p].Put? && v == Version(log[p].value, log[p].id, MarkOf(log, p))
  }

  /** `p` stands before `q`: a larger id, or the same id put later. */
  ghost predicate Ahead(log: seq<Op>, p: nat, q: nat) {
    p < |log| && q < |log| && log[p].Put? && log[q].Put?
    && (log[p].id > log[q].id || (log[p].id == log[q].id && p > q))
  }

  /** The list of `k` holds one version for each put of `k`, with its value, its id and its last reader. */
  ghost predicate Tells(log: seq<Op>, k: Key) {
    var vs, place := VersionsOf(Replay(log), k), Place(log, k);
    && |place| == |vs|
    && (forall i | 0 <= i < |vs| :: PutsKey(log, place[i], k) && ComesFrom(log, vs[i], place[i]))
    && (forall i, j | 0 <= i < j < |vs| :: Ahead(log, place[i], place[j]))
    && (forall p: nat | PutsKey(log, p, k) :: p in place)
  }

  lemma LongerLog(front: seq<Op>, op: Op, p: nat)
    requires p < |front| && front[p].Put?
    ensures Readers(front + [op], p)
         == if op.Get? && op.key == front[p].key && Latest(front, op.key, op.ts, p) then Readers(front, p) + [op.ts]
            else Readers(front, p)
  {
    assert (front + [op])[..|front|] == front;
  }

  /** The version that serves a get is that of the latest candidate, and of no other entry. */
  lemma ServedIsLatest(front: seq<Op>, k: Key, ts: int, j: nat)
    requires Tells(front, k) && j < |Place(front, k)|
    ensures Latest(front, k, ts, Place(front, k)[j]) <==> FirstAtMost(VersionsOf(Replay(front), k), ts) == j
  {
    var vs, place := VersionsOf(Replay(front), k), Place(front, k);
    var i := FirstAtMost(vs, ts);
    FirstAtMostIsFirst(vs, ts);
    if i == j {
      forall q | Candidate(front, k, ts, q)
        ensures front[q].id < front[place[i]].id || (front[q].id == front[place[i]].id && q <= place[i])
      {
        assert PutsKey(front, q, k);
        var n :| 0 <= n < |place| && place[n] == q;
        assert ComesFrom(front, vs[n], place[n]);
      }
      assert Latest(front, k, ts, place[i]);
    } else if Latest(front, k, ts, place[j]) {
      assert ComesFrom(front, vs[j], place[j]);
      assert i < j && Ahead(front, place[i], place[j]) && ComesFrom(front, vs[i], place[i]);
      assert Candidate(front, k, ts, place[i]);
    }
  }

  /** What a put makes of the entries. */
  lemma PlacePut(front: seq<Op>, op: Op, k: Key)
    requires Tells(front, k) && op.Put? && op.key == k
    ensures var vs, place := VersionsOf(Replay(front), k), Place(front, k);
            var i := FirstAtMost(vs, op.id);
            && i <= |place|
            && Place(front + [op], k) == place[..i] + [|front|] + place[i..]
            && VersionsOf(Replay(front + [op]), k) == vs[..i] + [Version(op.value, op.id, 0)] + vs[i..]
  {
    assert (front + [op])[..|front|] == front;
    InsertedAt(VersionsOf(Replay(front), k), Version(op.value, op.id, 0));
  }

  lemma EntryOf(log: seq<Op>, k: Key, n: nat)
    requires Tells(log, k) && n < |Place(log, k)|
    ensures PutsKey(log, Place(log, k)[n], k) && ComesFrom(log, VersionsOf(Replay(log), k)[n], Place(log, k)[n])
  {
  }

  lemma ListedAt(log: seq<Op>, k: Key, p: nat) returns (n: nat)
    requires Tells(log, k) && PutsKey(log, p, k)
    ensures n < |Place(log, k)| && Place(log, k)[n] == p
  {
    n :| 0 <= n < |Place(log, k)| && Place(log, k)[n] == p;
  }

  /** An entry that does not serve the new operation keeps its version. */
  lemma StillFrom(front: seq<Op>, op: Op, k: Key, n: nat)
    requires Tells(front, k) && n < |Place(front, k)|
    requires op.Get? && op.key == k ==> FirstAtMost(VersionsOf(Replay(front), k), op.ts) != n
    ensures ComesFrom(front + [op], VersionsOf(Replay(front), k)[n], Place(front, k)[n])
  {
    EntryOf(front, k, n);
    LongerLog(front, op, Place(front, k)[n]);
    if op.Get? && op.key == k { ServedIsLatest(front, k, op.ts, n); }
  }

  lemma PutFrom(front: seq<Op>, op: Op, k: Key, n: nat)
    requires Tells(front, k) && op.Put? && op.key == k && n < |VersionsOf(Replay(front + [op]), k)|
    ensures |Place(front + [op], k)| == |VersionsOf(Replay(front + [op]), k)|
    ensures PutsKey(front + [op], Place(front + [op], k)[n], k)
    ensures ComesFrom(front + [op], VersionsOf(Replay(front + [op]), k)[n], Place(front + [op], k)[n])
  {
    PlacePut(front, op, k);
    var i := FirstAtMost(VersionsOf(Replay(front), k), op.id);
    if n < i {
      StillFrom(front, op, k, n);
      assert PutsKey(front, Place(front, k)[n], k);
    } else if n > i {
      StillFrom(front, op, k, n - 1);
      assert PutsKey(front, Place(front, k)[n - 1], k);
    }
  }

  lemma PutListed(front: seq<Op>, op: Op, k: Key, p: nat)
    requires Tells(front, k) && op.Put? && op.key == k && PutsKey(front + [op], p, k)
    ensures p in Place(front + [op], k)
  {
    PlacePut(front, op, k);
    var place, i := Place(front, k), FirstAtMost(VersionsOf(Replay(front), k), op.id);
    if p < |front| {
      var n := ListedAt(front, k, p);
      assert Place(front + [op], k)[if n < i then n else n + 1] == p;
    } else {
      assert Place(front + [op], k)[i] == p;
    }
  }

  lemma TellsPut(front: seq<Op>, op: Op, k: Key)
    requires Tells(front, k) && op.Put? && op.key == k
    ensures Tells(front + [op], k)
  {
    var log := front + [op];
    PlacePut(front, op, k);
    forall n | 0 <= n < |VersionsOf(Replay(log), k)|
      ensures PutsKey(log, Place(log, k)[n], k) && ComesFrom(log, VersionsOf(Replay(log), k)[n], Place(log, k)[n])
    {
      PutFrom(front, op, k, n);
    }
    forall a, b | 0 <= a < b < |Place(log, k)| ensures Ahead(log, Place(log, k)[a], Place(log, k)[b]) {
      PutAhead(front, op, k, a, b);
    }
    forall p: nat | PutsKey(log, p, k) ensures p in Place(log, k) { PutListed(front, op, k, p); }
  }

  lemma PutAhead(front: seq<Op>, op: Op, k: Key, a: nat, b: nat)
    requires Tells(front, k) && op.Put? && op.key == k
    requires var place, i := Place(front, k), FirstAtMost(VersionsOf(Replay(front), k), op.id);
             i <= |place| && a < b < |place| + 1
    ensures var place, i := Place(front, k), FirstAtMost(VersionsOf(Replay(front), k), op.id);
            var place' := place[..i] + [|front|] + place[i..];
            Ahead(front + [op], place'[a], place'[b])
  {
    var vs, place := VersionsOf(Replay(front), k), Place(front, k);
    var i := FirstAtMost(vs, op.id);
    FirstAtMostIsFirst(vs, op.id);
    var x, y := if a < i then a else a - 1, if b < i then b else b - 1;
    if a != i { assert ComesFrom(front, vs[x], place[x]); }
    if b != i { assert ComesFrom(front, vs[y], place[y]); }
    if a != i && b != i {
      assert Ahead(front, place[x], place[y]);
    } else if a == i && i < y {
      assert Ahead(front, place[i], place[y]);
      assert ComesFrom(front, vs[i], place[i]);
    }
  }

  /** A get of the key changes the mark of the version that serves it, in list and log alike. */
  lemma GetFrom(front: seq<Op>, op: Op, k: Key, n: nat)
    requires Tells(front, k) && op.Get? && op.key == k && n < |Place(front, k)|
    ensures |VersionsOf(Replay(front + [op]), k)| == |Place(front, k)|
    ensures ComesFrom(front + [op], VersionsOf(Replay(front + [op]), k)[n], Place(front, k)[n])
  {
    assert (front + [op])[..|front|] == front;
    var vs, p := VersionsOf(Replay(front), k), Place(front, k)[n];
    assert VersionsOf(Replay(front + [op]), k) == Marked(vs, op.ts);
    assert PutsKey(front, p, k) && ComesFrom(front, vs[n], p);
    if FirstAtMost(vs, op.ts) == n {
      LongerLog(front, op, p);
      ServedIsLatest(front, k, op.ts, n);
    } else {
      StillFrom(front, op, k, n);
    }
  }

  lemma GetPlaces(front: seq<Op>, op: Op, k: Key)
    requires op.Get? || op.key != k
    ensures Place(front + [op], k) == Place(front, k)
    ensures op.key != k ==> VersionsOf(Replay(front + [op]), k) == VersionsOf(Replay(front), k)
    ensures forall p: nat | PutsKey(front + [op], p, k) :: PutsKey(front, p, k)
  {
    assert (front + [op])[..|front|] == front;
  }

  lemma TellsElse(front: seq<Op>, op: Op, k: Key)
    requires Tells(front, k) && (op.Get? || op.key != k)
    ensures Tells(front + [op], k)
  {
    var log, place := front + [op], Place(front, k);
    GetPlaces(front, op, k);
    forall n | 0 <= n < |place|
      ensures |VersionsOf(Replay(log), k)| == |place|
      ensures PutsKey(log, place[n], k) && ComesFrom(log, VersionsOf(Replay(log), k)[n], place[n])
    {
      assert PutsKey(front, place[n], k);
      if op.key == k { GetFrom(front, op, k, n); } else { StillFrom(front, op, k, n); }
    }
    forall a, b | 0 <= a < b < |place| ensures Ahead(log, place[a], place[b]) {
      assert Ahead(front, place[a], place[b]);
    }
    if op.key == k { SameLength(front, op, k); }
  }

  lemma SameLength(front: seq<Op>, op: Op, k: Key)
    requires op.Get? && op.key == k
    ensures |VersionsOf(Replay(front + [op]), k)| == |VersionsOf(Replay(front), k)|
  {
    assert (front + [op])[..|front|] == front;
  }

  lemma {:induction false} LogTells(log: seq<Op>, k: Key)
    ensures Tells(log, k)
    decreases |log|
  {
    if log != [] {
      var front, op := log[..|log| - 1], log[|log| - 1];
      LogTells(front, k);
      assert log == front + [op];
      if op.Put? && op.key == k {
        TellsPut(front, op, k);
      } else {
        TellsElse(front, op, k);
      }
    }
  }

  // ---------- what the mark says ----------

  /** After any operations, the version of a put is marked with the last get it has served, and with zero before that. */
  lemma MarkIsLastReader(log: seq<Op>, k: Key, p: nat) returns (i: nat)
    requires PutsKey(log, p, k)
    ensures i < |VersionsOf(Replay(log), k)|
    ensures VersionsOf(Replay(log), k)[i] == Version(log[p].value, log[p].id, MarkOf(log, p))
  {
    LogTells(log, k);
    var place := Place(log, k);
    i :| 0 <= i < |place| && place[i] == p;
    assert ComesFrom(log, VersionsOf(Replay(log), k)[i], p);
  }

  ghost predicate IsLargestReader(readers: seq<int>, mark: int) {
    (readers == [] ==> mark == 0) && (readers != [] ==> mark in readers) && forall r | r in readers :: r <= mark
  }

  /** The stored mark names the largest reader exactly when that one came last. */
  lemma MarkIsLargestIff(log: seq<Op>, k: Key, p: nat) returns (i: nat)
    requires PutsKey(log, p, k)
    ensures i < |VersionsOf(Replay(log), k)|
    ensures var v, readers := VersionsOf(Replay(log), k)[i], Readers(log, p);
            && v.value == log[p].value && v.id == log[p].id
            && (IsLargestReader(readers, v.maxRead) <==> forall j | 0 <= j < |readers| :: readers[j] <= readers[|readers| - 1])
  {
    i := MarkIsLastReader(log, k, p);
    var readers := Readers(log, p);
    if IsLargestReader(readers, MarkOf(log, p)) {
      forall j | 0 <= j < |readers| ensures readers[j] <= readers[|readers| - 1] {
        assert readers[j] in readers;
      }
    }
  }
}
