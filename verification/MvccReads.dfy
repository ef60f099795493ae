/**
 What multi-version reads return: at the moment of the read, the last version
 written under the key with an id of at most the reader's.
 */
module MvccReads {
  import opened Transactions
  import opened VersionLists
  import opened MvccProtocol
  import opened MvccInvariant
  import opened MvccCorrectness

  // ---------- the lists are the history ----------

  /** The versions of `k` that the writes so far leave, newest first. */
  ghost function History(c: Config, puts: seq<WrittenVersion>, k: Key): seq<(Value, int)>
    requires k in c.init
  {
    if puts == [] then [(c.init[k], 0)]
    else
      var front, last := puts[..|puts| - 1], puts[|puts| - 1];
      if last.key == k then [(last.value, last.id)] + History(c, front, k) else History(c, front, k)
  }

  ghost function Pairs(vs: Versions): seq<(Value, int)> {
    seq(|vs|, i requires 0 <= i < |vs| => (vs[i].value, vs[i].id))
  }

  ghost predicate ListsAreHistory(c: Config, s: State) {
    forall k | k in c.init :: Pairs(VersionsOf(s.data, k)) == History(c, s.puts, k)
  }

  lemma PairsAfter(c: Config, s: State, act: Action, k: Key)
    requires Shaped(c, s) && PhasesConsistent(c, s) && SafeConsistent(c, s) && CanDo(c, s, act) && k in c.init
    requires Pairs(VersionsOf(s.data, k)) == History(c, s.puts, k)
    ensures Pairs(VersionsOf(Next(c, s, act).data, k)) == History(c, Next(c, s, act).puts, k)
  {
    var s' := Next(c, s, act);
    match act
    case Read(t, key) =>
      MarkedServes(VersionsOf(s.data, key), s.ids[t], 0);
      assert Pairs(VersionsOf(s'.data, k)) == Pairs(VersionsOf(s.data, k));
    case Apply(t, key) =>
      ApplyAtFront(c, s, t, key);
      assert s'.puts[..|s'.puts| - 1] == s.puts;
      if key == k {
        assert Pairs(VersionsOf(s'.data, k)) == [(s.phase[t].unapplied[k], s.ids[t])] + Pairs(VersionsOf(s.data, k));
      }
    case _ =>
  }

  // ---------- what a read is to return ----------

  /** The value of the last write under `k` with an id of at most `id`, and the initial value when there is none. */
  ghost function ValueAt(c: Config, puts: seq<WrittenVersion>, k: Key, id: int): Value
    requires k in c.init
  {
    if puts == [] then c.init[k]
    else
      var last := puts[|puts| - 1];
      if last.key == k && last.id <= id then last.value else ValueAt(c, puts[..|puts| - 1], k, id)
  }

  lemma {:induction false} HistoryAt(c: Config, puts: seq<WrittenVersion>, k: Key, id: int, i: nat)
    requires k in c.init && i < |History(c, puts, k)| && History(c, puts, k)[i].1 <= id
    requires forall j | 0 <= j < i :: History(c, puts, k)[j].1 > id
    ensures History(c, puts, k)[i].0 == ValueAt(c, puts, k, id)
    decreases |puts|
  {
    if puts != [] {
      var front, last := puts[..|puts| - 1], puts[|puts| - 1];
      assert last.key == k ==> History(c, puts, k)[0] == (last.value, last.id);
      if last.key == k && last.id > id {
        assert i > 0;
        forall j | 0 <= j < i - 1 ensures History(c, front, k)[j].1 > id {
          assert History(c, puts, k)[j + 1].1 > id;
        }
        HistoryAt(c, front, k, id, i - 1);
      } else if last.key != k {
        HistoryAt(c, front, k, id, i);
      }
    }
  }

  lemma ServedIsValueAt(c: Config, s: State, t: TxnId, k: Key)
    requires Consistent(c, s) && ListsAreHistory(c, s) && CanDo(c, s, Read(t, k))
    ensures var found := Served(VersionsOf(s.data, k), s.ids[t]);
            found.Found? && found.value == ValueAt(c, s.puts, k, s.ids[t])
  {
    var vs := VersionsOf(s.data, k);
    var i := FirstAtMost(vs, s.ids[t]);
    ReadFinds(c, s, t, k);
    FirstAtMostIsFirst(vs, s.ids[t]);
    assert forall j | 0 <= j < |vs| :: Pairs(vs)[j] == (vs[j].value, vs[j].id);
    HistoryAt(c, s.puts, k, s.ids[t], i);
  }

  // ---------- the log of reads ----------

  ghost predicate Explains(c: Config, s: State, g: ServedRead) {
    && g.key in c.init && g.after <= |s.puts| && 0 < g.id < s.nextId
    && g.value == ValueAt(c, s.puts[..g.after], g.key, g.id)
  }

  /** Entry `i` is the read of `k` by the current attempt of `t`. */
  ghost predicate IsReadOf(s: State, i: int, t: TxnId, k: Key) {
    && 0 <= i < |s.gets| && t < |s.ids|
    && s.gets[i].t == t && s.gets[i].key == k && s.gets[i].id == s.ids[t]
  }

  ghost predicate HasReadOf(s: State, t: TxnId, k: Key, value: Value) {
    exists i :: IsReadOf(s, i, t, k) && s.gets[i].value == value
  }

  /** What an attempt has seen is what was recorded for it, key by key, each key once. */
  ghost predicate GetsConsistent(c: Config, s: State)
    requires Shaped(c, s)
  {
    && (forall i | 0 <= i < |s.gets| :: Explains(c, s, s.gets[i]))
    && (forall t: TxnId, k: Key | t < |c.txns| && HasSeen(s.phase[t]) && k in s.phase[t].seen ::
          HasReadOf(s, t, k, s.phase[t].seen[k]))
    && (forall i, t: TxnId, k: Key | IsReadOf(s, i, t, k) && InUse(s, t) :: HasSeen(s.phase[t]) && k in s.phase[t].seen)
    && (forall i, j, t: TxnId, k: Key | IsReadOf(s, i, t, k) && IsReadOf(s, j, t, k) && InUse(s, t) :: i == j)
  }

  ghost predicate ReadsInvariant(c: Config, s: State) {
    Consistent(c, s) && ListsAreHistory(c, s) && GetsConsistent(c, s)
  }

  lemma ExplainsKept(c: Config, s: State, act: Action, g: ServedRead)
    requires CanDo(c, s, act) && Explains(c, s, g)
    ensures Explains(c, Next(c, s, act), g)
  {
    var s' := Next(c, s, act);
    assert s'.puts[..g.after] == s.puts[..g.after];
  }

  /** What one read does. */
  lemma ReadStep(c: Config, s: State, t: TxnId, k: Key)
    requires ReadsInvariant(c, s) && CanDo(c, s, Read(t, k))
    ensures var s', v := Next(c, s, Read(t, k)), ValueAt(c, s.puts, k, s.ids[t]);
            && s'.phase[t].Reading? && s'.phase[t].seen == s.phase[t].seen[k := v]
            && s'.gets == s.gets + [ServedRead(t, k, v, s.ids[t], |s.puts|)]
            && k !in s.phase[t].seen
  {
    ServedIsValueAt(c, s, t, k);
    assert PhaseConsistent(c, t, s.phase[t]);
    assert s.phase[t].seen.Keys == ReadSoFar(c.txns[t], s.phase[t]);
  }

  lemma OthersReadNothing(c: Config, s: State, act: Action, t: TxnId)
    requires Shaped(c, s) && CanDo(c, s, act) && t < |c.txns|
    requires !(act.Read? && act.t == t)
    ensures var s' := Next(c, s, act);
            HasSeen(s'.phase[t]) && !(act.Begin? && act.t == t) ==>
              HasSeen(s.phase[t]) && s'.phase[t].seen == s.phase[t].seen && s'.ids[t] == s.ids[t]
    ensures act.Begin? && act.t == t ==> Next(c, s, act).phase[t].seen == map[]
    ensures !act.Read? ==> Next(c, s, act).gets == s.gets
  {
  }

  lemma SeenIsRecorded(c: Config, s: State, act: Action, t: TxnId, k: Key)
    requires ReadsInvariant(c, s) && CanDo(c, s, act) && t < |c.txns|
    requires HasSeen(Next(c, s, act).phase[t]) && k in Next(c, s, act).phase[t].seen
    ensures HasReadOf(Next(c, s, act), t, k, Next(c, s, act).phase[t].seen[k])
  {
    var s' := Next(c, s, act);
    if act.Read? { ReadStep(c, s, act.t, act.k); }
    if act.Read? && act.t == t && act.k == k {
      assert IsReadOf(s', |s.gets|, t, k);
    } else {
      if !(act.Read? && act.t == t) { OthersReadNothing(c, s, act, t); }
      var i :| IsReadOf(s, i, t, k) && s.gets[i].value == s.phase[t].seen[k];
      assert s'.gets[i] == s.gets[i];
      assert IsReadOf(s', i, t, k);
    }
  }

  /** A recorded read of the current attempt was recorded before, or is the one made now. */
  lemma RecordedBefore(c: Config, s: State, act: Action, i: int, t: TxnId, k: Key)
    requires ReadsInvariant(c, s) && CanDo(c, s, act)
    requires IsReadOf(Next(c, s, act), i, t, k) && InUse(Next(c, s, act), t)
    ensures if i < |s.gets| then IsReadOf(s, i, t, k) && InUse(s, t) && !(GetsId(act) && act.t == t)
            else act == Read(t, k) && i == |s.gets|
  {
    var s' := Next(c, s, act);
    if act.Read? { ReadStep(c, s, act.t, act.k); }
    if i < |s.gets| {
      assert s'.gets[i] == s.gets[i] && Explains(c, s, s.gets[i]);
      WonAfter(c, s, act, t);
    }
  }

  lemma RecordedIsSeen(c: Config, s: State, act: Action, i: int, t: TxnId, k: Key)
    requires ReadsInvariant(c, s) && CanDo(c, s, act)
    requires IsReadOf(Next(c, s, act), i, t, k) && InUse(Next(c, s, act), t)
    ensures t < |c.txns| && HasSeen(Next(c, s, act).phase[t]) && k in Next(c, s, act).phase[t].seen
  {
    RecordedBefore(c, s, act, i, t, k);
    if act.Read? { ReadStep(c, s, act.t, act.k); }
    if i < |s.gets| { assert HasSeen(s.phase[t]) && k in s.phase[t].seen; }
  }

  lemma RecordedOnce(c: Config, s: State, act: Action, i: int, j: int, t: TxnId, k: Key)
    requires ReadsInvariant(c, s) && CanDo(c, s, act) && InUse(Next(c, s, act), t)
    requires IsReadOf(Next(c, s, act), i, t, k) && IsReadOf(Next(c, s, act), j, t, k)
    ensures i == j
  {
    RecordedBefore(c, s, act, i, t, k);
    RecordedBefore(c, s, act, j, t, k);
    if act == Read(t, k) { ReadStep(c, s, t, k); }
  }

  lemma EachExplained(c: Config, s: State, act: Action, i: nat)
    requires ReadsInvariant(c, s) && CanDo(c, s, act) && i < |Next(c, s, act).gets|
    ensures Explains(c, Next(c, s, act), Next(c, s, act).gets[i])
  {
    var s' := Next(c, s, act);
    if i < |s.gets| {
      assert s'.gets[i] == s.gets[i];
      ExplainsKept(c, s, act, s.gets[i]);
    } else {
      ReadStep(c, s, act.t, act.k);
      assert s'.puts[..|s.puts|] == s.puts && InUse(s, act.t);
    }
  }

  lemma GetsKept(c: Config, s: State, act: Action)
    requires ReadsInvariant(c, s) && CanDo(c, s, act)
    ensures Shaped(c, Next(c, s, act)) && GetsConsistent(c, Next(c, s, act))
  {
    var s' := Next(c, s, act);
    forall i | 0 <= i < |s'.gets| ensures Explains(c, s', s'.gets[i]) {
      EachExplained(c, s, act, i);
    }
    forall t: TxnId, k: Key | t < |c.txns| && HasSeen(s'.phase[t]) && k in s'.phase[t].seen
      ensures HasReadOf(s', t, k, s'.phase[t].seen[k])
    {
      SeenIsRecorded(c, s, act, t, k);
    }
    forall i, t: TxnId, k: Key | IsReadOf(s', i, t, k) && InUse(s', t)
      ensures HasSeen(s'.phase[t]) && k in s'.phase[t].seen
    {
      RecordedIsSeen(c, s, act, i, t, k);
    }
    forall i, j, t: TxnId, k: Key | IsReadOf(s', i, t, k) && IsReadOf(s', j, t, k) && InUse(s', t) ensures i == j {
      RecordedOnce(c, s, act, i, j, t, k);
    }
  }

  lemma InvariantKept(c: Config, s: State, act: Action)
    requires ReadsInvariant(c, s) && CanDo(c, s, act)
    ensures ReadsInvariant(c, Next(c, s, act))
  {
    ConsistentKept(c, s, act);
    GetsKept(c, s, act);
    forall k | k in c.init
      ensures Pairs(VersionsOf(Next(c, s, act).data, k)) == History(c, Next(c, s, act).puts, k)
    {
      PairsAfter(c, s, act, k);
    }
  }

  lemma {:induction false} RunKeeps(c: Config, s: State, acts: seq<Action>, s': State)
    requires ReadsInvariant(c, s) && Leads(c, s, acts, s')
    ensures ReadsInvariant(c, s')
    decreases |acts|
  {
    if acts != [] {
      InvariantKept(c, s, acts[0]);
      RunKeeps(c, Next(c, s, acts[0]), acts[1..], s');
    }
  }

  lemma ReachableInvariant(c: Config, s: State)
    requires ValidConfig(c) && Reachable(c, s)
    ensures ReadsInvariant(c, s)
  {
    var acts :| Leads(c, Start(c), acts, s);
    StartConsistent(c);
    forall k | k in c.init ensures Pairs(VersionsOf(Start(c).data, k)) == History(c, [], k) {}
    RunKeeps(c, Start(c), acts, s);
  }

  // ---------- the results ----------

  ghost predicate NewestUpTo(vs: Versions, id: int, v: Version) {
    v in vs && v.id <= id && forall u | u in vs && u.id <= id :: u.id <= v.id
  }

  /**
   A read takes the newest version with an id of at most the reader's: the last
   one written so far with such an id, and the initial one when there is none.
   It marks that version with the reader's id and leaves all others as they were.
   */
  lemma ReadTakesNewest(c: Config, s: State, t: TxnId, k: Key) returns (v: Version)
    requires ValidConfig(c) && Reachable(c, s) && CanDo(c, s, Read(t, k))
    ensures NewestUpTo(VersionsOf(s.data, k), s.ids[t], v)
    ensures k in c.init && v.value == ValueAt(c, s.puts, k, s.ids[t])
    ensures var p := Next(c, s, Read(t, k)).phase[t];
            p.Reading? && p.seen == s.phase[t].seen[k := v.value] && p.unread == s.phase[t].unread - {k}
    ensures ReadDoes(s.data, k, s.ids[t], true, v.value, Next(c, s, Read(t, k)).data)
  {
    ReadAsSpecified(s.data, k, s.ids[t]);
    ReachableInvariant(c, s);
    ReadStep(c, s, t, k);
    ServedIsValueAt(c, s, t, k);
    ServedIsNewest(c, s, k, s.ids[t]);
    v := VersionsOf(s.data, k)[FirstAtMost(VersionsOf(s.data, k), s.ids[t])];
  }

  lemma ServedIsNewest(c: Config, s: State, k: Key, id: int)
    requires ListsConsistent(c, s) && k in c.init
    requires Served(VersionsOf(s.data, k), id).Found?
    ensures var vs := VersionsOf(s.data, k);
            FirstAtMost(vs, id) < |vs| && NewestUpTo(vs, id, vs[FirstAtMost(vs, id)])
  {
    var vs := VersionsOf(s.data, k);
    var i := FirstAtMost(vs, id);
    FirstAtMostIsFirst(vs, id);
    assert KeptLine(Line(s, k));
    forall u | u in vs && u.id <= id ensures u.id <= vs[i].id {
      var j :| 0 <= j < |vs| && vs[j] == u;
      assert Line(s, k)[j] == u.id && Line(s, k)[i] == vs[i].id;
    }
  }

  /**
   Over whole runs: for each key it declares, a committed transaction has made
   exactly one read with its final id, and what it has seen is the value last
   written under the key, with an id of at most its own, before that read.
   */
  lemma CommittedReads(c: Config, s: State, t: TxnId, k: Key) returns (i: nat)
    requires ValidConfig(c) && Reachable(c, s) && t in s.results
    requires t < |c.txns| && k in c.txns[t].Footprint()
    ensures t < |s.phase| == |s.ids| && s.phase[t].Committed? && k in s.phase[t].seen && k in c.init
    ensures IsReadOf(s, i, t, k) && forall j | IsReadOf(s, j, t, k) :: j == i
    ensures s.gets[i].after <= |s.puts|
    ensures s.phase[t].seen[k] == s.gets[i].value == ValueAt(c, s.puts[..s.gets[i].after], k, s.ids[t])
  {
    ReachableInvariant(c, s);
    ReadsNothingNewer(c, s, t);
    i :| IsReadOf(s, i, t, k) && s.gets[i].value == s.phase[t].seen[k];
    assert Explains(c, s, s.gets[i]) && InUse(s, t);
  }

  /** A read is recorded with what it has put into `seen`, and with the number of writes before it. */
  lemma ReadIsRecorded(c: Config, s: State, t: TxnId, k: Key)
    requires ValidConfig(c) && Reachable(c, s) && CanDo(c, s, Read(t, k))
    ensures var s' := Next(c, s, Read(t, k));
            && k in s'.phase[t].seen && s'.puts == s.puts
            && s'.gets == s.gets + [ServedRead(t, k, s'.phase[t].seen[k], s.ids[t], |s.puts|)]
  {
    ReachableInvariant(c, s);
    ReadStep(c, s, t, k);
  }
}
