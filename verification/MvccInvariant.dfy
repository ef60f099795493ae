/**
 Every step of the multi-version protocol keeps its invariant.

 Most of it follows from two facts.  A key mutex belongs to whoever is, by its
 place in the program, inside the section that holds it; so between the check
 of a key and the write of that key nobody else can write it.  And an id is
 given out once; so an id that is found in a version list belongs to a
 transaction that has passed its checks, and the id of a transaction that has
 not is found nowhere.  Together they put each written version at the front
 of its list, strictly above all others.  `LineAfter`, `WonAfter` and
 `KeysAfter` say what a step can change at all; the other lemmas take the
 invariant part by part.
 */
module MvccInvariant {
  import opened Transactions
  import opened VersionLists
  import opened Iteration
  import opened MvccProtocol

  lemma StartConsistent(c: Config)
    requires ValidConfig(c)
    ensures Consistent(c, Start(c))
  {
    assert forall k | k in c.init :: Line(Start(c), k) == [0];
    assert forall k: Key | k !in c.init :: Line(Start(c), k) == [];
  }

  // ---------- what one step changes ----------

  /** A version is written at the front, with an id above all others; nothing else changes a list's ids. */
  lemma LineAfter(c: Config, s: State, act: Action, k: Key)
    requires Shaped(c, s) && PhasesConsistent(c, s) && SafeConsistent(c, s) && CanDo(c, s, act)
    ensures Line(Next(c, s, act), k) == if act.Apply? && act.k == k then [s.ids[act.t]] + Line(s, k) else Line(s, k)
    ensures act.Apply? && act.k == k ==> Line(s, k) != [] && Line(s, k)[0] < s.ids[act.t]
  {
    match act
    case Read(t, key) => MarkedServes(VersionsOf(s.data, key), s.ids[t], 0);
    case Apply(t, key) => ApplyAtFront(c, s, t, key);
    case _ =>
  }

  lemma ApplyAtFront(c: Config, s: State, t: TxnId, k: Key)
    requires Shaped(c, s) && PhasesConsistent(c, s) && SafeConsistent(c, s) && CanDo(c, s, Apply(t, k))
    ensures Next(c, s, Apply(t, k)).data
         == s.data[k := [Version(s.phase[t].unapplied[k], s.ids[t], 0)] + VersionsOf(s.data, k)]
    ensures Line(s, k) != [] && Line(s, k)[0] < s.ids[t]
  {
    assert PhaseConsistent(c, t, s.phase[t]) && MayWrite(s, t, k);
    var vs := VersionsOf(s.data, k);
    assert Line(s, k)[0] == vs[0].id && Line(s, k)[0] in Line(s, k);
  }

  lemma KeysAfter(c: Config, s: State, act: Action)
    requires Shaped(c, s) && PhasesConsistent(c, s) && SafeConsistent(c, s) && CanDo(c, s, act)
    ensures Next(c, s, act).data.Keys == s.data.Keys
  {
    if act.Apply? {
      assert PhaseConsistent(c, act.t, s.phase[act.t]) && MayWrite(s, act.t, act.k);
      assert Line(s, act.k) != [];
    }
  }

  lemma WonAfter(c: Config, s: State, act: Action, t: TxnId)
    requires Shaped(c, s) && CanDo(c, s, act)
    ensures var s' := Next(c, s, act);
            && (Won(s', t) <==> Won(s, t) || act == Pass(t))
            && (InUse(s', t) <==> InUse(s, t) || act == Submit(t))
            && (t < |s.ids| && !(GetsId(act) && act.t == t) ==> s'.ids[t] == s.ids[t])
            && (Won(s, t) ==> !(GetsId(act) && act.t == t))
  {
  }

  lemma StillWritten(c: Config, s: State, act: Action, id: int, t: TxnId)
    requires Consistent(c, s) && CanDo(c, s, act) && WrittenBy(s, id, t)
    ensures WrittenBy(Next(c, s, act), id, t)
  {
    WonAfter(c, s, act, t);
  }

  /** An id that has not won appears in no list. */
  lemma UnwonUnwritten(c: Config, s: State, t: TxnId, k: Key)
    requires Consistent(c, s) && InUse(s, t) && !Won(s, t)
    ensures s.ids[t] !in Line(s, k)
  {
    forall u: TxnId ensures !WrittenBy(s, s.ids[t], u) {
      assert Won(s, u) ==> InUse(s, u);
    }
  }

  // ---------- locks and phases ----------

  lemma LocksKept(c: Config, s: State, act: Action)
    requires Consistent(c, s) && CanDo(c, s, act)
    ensures Shaped(c, Next(c, s, act)) && LocksConsistent(c, Next(c, s, act))
  {
    var s' := Next(c, s, act);
    forall k: Key, t: TxnId | t < |c.txns| ensures OwnedBy(s', k, t) <==> k in HeldBy(c, s', t) {
      assert OwnedBy(s, k, t) <==> k in HeldBy(c, s, t);
      OwnerAfter(c, s, act, k, t);
    }
  }

  lemma OwnerAfter(c: Config, s: State, act: Action, k: Key, t: TxnId)
    requires Shaped(c, s) && LocksConsistent(c, s) && PhasesConsistent(c, s) && CanDo(c, s, act) && t < |c.txns|
    requires OwnedBy(s, k, t) <==> k in HeldBy(c, s, t)
    ensures OwnedBy(Next(c, s, act), k, t) <==> k in HeldBy(c, Next(c, s, act), t)
  {
    assert PhaseConsistent(c, act.t, s.phase[act.t]);
    if act.Unlock? { assert OwnedBy(s, act.k, act.t); }
  }

  lemma PhasesKept(c: Config, s: State, act: Action)
    requires Consistent(c, s) && CanDo(c, s, act)
    ensures PhasesConsistent(c, Next(c, s, act))
  {
    var s' := Next(c, s, act);
    assert PhaseConsistent(c, act.t, s.phase[act.t]);
    assert BufferDeclared(c.txns[act.t]);
    forall t: TxnId | t < |c.txns| ensures PhaseConsistent(c, t, s'.phase[t]) {
      assert PhaseConsistent(c, t, s.phase[t]);
    }
  }

  lemma IdsKept(c: Config, s: State, act: Action)
    requires Consistent(c, s) && CanDo(c, s, act)
    ensures IdsConsistent(c, Next(c, s, act))
  {
    var s' := Next(c, s, act);
    forall t: TxnId | InUse(s', t) ensures 0 < s'.ids[t] < s'.nextId {
      WonAfter(c, s, act, t);
    }
    forall t: TxnId, u: TxnId | InUse(s', t) && InUse(s', u) && s'.ids[t] == s'.ids[u] ensures t == u {
      WonAfter(c, s, act, t);
      WonAfter(c, s, act, u);
      assert InUse(s, t) && InUse(s, u) && s.ids[t] == s.ids[u] ==> t == u;
    }
  }

  // ---------- version lists ----------

  lemma NewFrontKept(ids: seq<int>, id: int)
    requires KeptLine(ids)
    ensures ids[0] < id ==> KeptLine([id] + ids)
  {
  }

  lemma ListsKept(c: Config, s: State, act: Action)
    requires Consistent(c, s) && CanDo(c, s, act)
    ensures ListsConsistent(c, Next(c, s, act))
  {
    var s' := Next(c, s, act);
    KeysAfter(c, s, act);
    forall k | k in c.init ensures KeptLine(Line(s', k)) {
      LineAfter(c, s, act, k);
      assert KeptLine(Line(s, k));
      if act.Apply? { NewFrontKept(Line(s, k), s.ids[act.t]); }
    }
  }

  lemma WritersKept(c: Config, s: State, act: Action)
    requires Consistent(c, s) && CanDo(c, s, act)
    ensures WritersConsistent(c, Next(c, s, act))
  {
    var s' := Next(c, s, act);
    forall k: Key, id: int | id in Line(s', k) ensures id == 0 || exists t :: WrittenBy(s', id, t) {
      LineAfter(c, s, act, k);
      if id in Line(s, k) {
        if id != 0 {
          var t :| WrittenBy(s, id, t);
          StillWritten(c, s, act, id, t);
        }
      } else {
        assert WrittenBy(s', id, act.t);
      }
    }
  }

  lemma PutStays(c: Config, s: State, act: Action, k: Key, value: Value, id: int)
    requires CanDo(c, s, act) && IsPut(s, k, value, id)
    ensures IsPut(Next(c, s, act), k, value, id)
  {
    var i :| 0 <= i < |s.puts| && s.puts[i].key == k && s.puts[i].value == value && s.puts[i].id == id;
    assert Next(c, s, act).puts[i] == s.puts[i];
  }

  lemma VersionAfter(c: Config, s: State, act: Action, k: Key, i: nat)
    requires Shaped(c, s) && PhasesConsistent(c, s) && SafeConsistent(c, s) && CanDo(c, s, act)
    requires VersionsConsistent(c, s) && i < |VersionsOf(Next(c, s, act).data, k)|
    ensures var s' := Next(c, s, act);
            var v := VersionsOf(s'.data, k)[i];
            IsInitial(c, k, v) || IsPut(s', k, v.value, v.id)
  {
    var s' := Next(c, s, act);
    var before, v := VersionsOf(s.data, k), VersionsOf(s'.data, k)[i];
    if act.Read? { MarkedServes(VersionsOf(s.data, act.k), s.ids[act.t], 0); }
    if act.Apply? { ApplyAtFront(c, s, act.t, act.k); }
    if act.Apply? && act.k == k && i == 0 {
      assert s'.puts[|s.puts|] == NewVersion(s, act);
    } else {
      var j := if act.Apply? && act.k == k then i - 1 else i;
      assert before[j].value == v.value && before[j].id == v.id;
      if !IsInitial(c, k, before[j]) { PutStays(c, s, act, k, v.value, v.id); }
    }
  }

  lemma VersionsKept(c: Config, s: State, act: Action)
    requires Consistent(c, s) && CanDo(c, s, act)
    ensures VersionsConsistent(c, Next(c, s, act))
  {
    var s' := Next(c, s, act);
    forall k: Key, i: nat | i < |VersionsOf(s'.data, k)|
      ensures var v := VersionsOf(s'.data, k)[i]; IsInitial(c, k, v) || IsPut(s', k, v.value, v.id)
    {
      VersionAfter(c, s, act, k, i);
    }
  }

  lemma OneWriterAtATime(c: Config, s: State, t: TxnId, u: TxnId, k: Key)
    requires Consistent(c, s) && t < |c.txns| && u < |c.txns|
    requires k in c.txns[t].writeset && MayWrite(s, t, k) && CanDo(c, s, Apply(u, k))
    ensures u == t
  {
    assert PhaseConsistent(c, u, s.phase[u]);
    assert OwnedBy(s, k, t) && OwnedBy(s, k, u);
  }

  /** What `t` has checked and not yet written stays checked, whoever moves. */
  lemma SafeStays(c: Config, s: State, act: Action, t: TxnId, k: Key)
    requires Consistent(c, s) && CanDo(c, s, act)
    requires t < |c.txns| && k in c.txns[t].writeset && MayWrite(Next(c, s, act), t, k)
    ensures var s' := Next(c, s, act);
            Line(s', k) != [] && Line(s', k)[0] <= s'.ids[t] && s'.ids[t] !in Line(s', k)
  {
    LineAfter(c, s, act, k);
    WonAfter(c, s, act, t);
    MayWriteAfter(c, s, act, t, k);
    if MayWrite(s, t, k) {
      if act.Apply? && act.k == k { OneWriterAtATime(c, s, t, act.t, k); }
    } else {
      UnwonUnwritten(c, s, t, k);
    }
  }

  /** Only a passed check lets `t` write a key, and its write ends it. */
  lemma MayWriteAfter(c: Config, s: State, act: Action, t: TxnId, k: Key)
    requires Shaped(c, s) && PhasesConsistent(c, s) && CanDo(c, s, act) && t < |c.txns| && k in c.txns[t].writeset
    requires MayWrite(Next(c, s, act), t, k)
    ensures MayWrite(s, t, k) || (act == Check(t, k) && KeyIsSafe(s.data, k, s.ids[t]))
    ensures act != Apply(t, k) && !(GetsId(act) && act.t == t)
  {
    assert PhaseConsistent(c, t, s.phase[t]);
  }

  lemma SafeKept(c: Config, s: State, act: Action)
    requires Consistent(c, s) && CanDo(c, s, act)
    ensures SafeConsistent(c, Next(c, s, act))
  {
    var s' := Next(c, s, act);
    forall t: TxnId, k: Key | t < |c.txns| && k in c.txns[t].writeset && MayWrite(s', t, k)
      ensures Line(s', k) != [] && Line(s', k)[0] <= s'.ids[t] && s'.ids[t] !in Line(s', k)
    {
      SafeStays(c, s, act, t, k);
    }
  }

  lemma HistoryKept(c: Config, s: State, act: Action)
    requires Consistent(c, s) && CanDo(c, s, act)
    ensures HistoryConsistent(Next(c, s, act))
  {
    var s' := Next(c, s, act);
    forall i | 0 <= i < |s'.puts|
      ensures WrittenBy(s', s'.puts[i].id, s'.puts[i].t)
      ensures Line(s', s'.puts[i].key) != [] && s'.puts[i].id <= Line(s', s'.puts[i].key)[0]
    {
      var put := s'.puts[i];
      LineAfter(c, s, act, put.key);
      if i < |s.puts| {
        assert put == s.puts[i];
        StillWritten(c, s, act, put.id, put.t);
      } else {
        StillWritten(c, s, act, put.id, put.t);
      }
    }
    forall i, j | 0 <= i < j < |s'.puts| && s'.puts[i].key == s'.puts[j].key
      ensures s'.puts[i].id < s'.puts[j].id
    {
      assert s'.puts[i] == s.puts[i];
      if j == |s.puts| {
        LineAfter(c, s, act, act.k);
      } else {
        assert s'.puts[j] == s.puts[j];
      }
    }
  }

  // ---------- buffers and reads ----------

  lemma SeenAfter(c: Config, s: State, act: Action, t: TxnId)
    requires Shaped(c, s) && CanDo(c, s, act) && t < |c.txns|
    ensures var s' := Next(c, s, act);
            Won(s, t) ==> Won(s', t) && s'.phase[t].seen == s.phase[t].seen
  {
  }

  lemma PutsStayBuffered(c: Config, s: State, act: Action, i: nat)
    requires Consistent(c, s) && CanDo(c, s, act) && i < |Next(c, s, act).puts|
    ensures var s' := Next(c, s, act);
            var put := s'.puts[i];
            && Won(s', put.t) && put.t < |c.txns|
            && put.key in Buffer(c, put.t, s'.phase[put.t].seen)
            && put.value == Buffer(c, put.t, s'.phase[put.t].seen)[put.key]
  {
    var s' := Next(c, s, act);
    var put := s'.puts[i];
    if i < |s.puts| { assert put == s.puts[i]; }
    assert PhaseConsistent(c, act.t, s.phase[act.t]);
    WonAfter(c, s, act, put.t);
    SeenAfter(c, s, act, put.t);
  }

  lemma WrittenAfter(c: Config, s: State, act: Action, t: TxnId, k: Key)
    requires CanDo(c, s, act)
    ensures HasWritten(Next(c, s, act), t, k) <==> HasWritten(s, t, k) || act == Apply(t, k)
  {
    var puts, puts' := s.puts, Next(c, s, act).puts;
    assert forall i | 0 <= i < |puts| :: puts'[i] == puts[i];
    if act == Apply(t, k) { assert puts'[|puts|].t == t && puts'[|puts|].key == k; }
  }

  lemma ThroughAfter(c: Config, s: State, act: Action, t: TxnId, k: Key)
    requires Shaped(c, s) && CanDo(c, s, act) && t < |c.txns|
    requires Won(Next(c, s, act), t) && k in Buffer(c, t, Next(c, s, act).phase[t].seen)
    ensures Through(Next(c, s, act), t, k) <==> Through(s, t, k) || act == Apply(t, k)
  {
  }

  lemma BuffersKept(c: Config, s: State, act: Action)
    requires Consistent(c, s) && CanDo(c, s, act)
    ensures BuffersConsistent(c, Next(c, s, act))
  {
    var s' := Next(c, s, act);
    forall i | 0 <= i < |s'.puts|
      ensures var put := s'.puts[i];
              && Won(s', put.t) && put.t < |c.txns|
              && put.key in Buffer(c, put.t, s'.phase[put.t].seen)
              && put.value == Buffer(c, put.t, s'.phase[put.t].seen)[put.key]
    {
      PutsStayBuffered(c, s, act, i);
    }
    forall t: TxnId, k: Key | t < |c.txns| && Won(s', t) && k in Buffer(c, t, s'.phase[t].seen)
      ensures HasWritten(s', t, k) <==> Through(s', t, k)
    {
      WonAfter(c, s, act, t);
      SeenAfter(c, s, act, t);
      WrittenAfter(c, s, act, t, k);
      ThroughAfter(c, s, act, t, k);
      if !Won(s, t) { UnwonHasNotWritten(c, s, t, k); }
    }
  }

  lemma UnwonHasNotWritten(c: Config, s: State, t: TxnId, k: Key)
    requires Consistent(c, s) && !Won(s, t)
    ensures !HasWritten(s, t, k)
  {
  }

  lemma VersionStays(c: Config, s: State, act: Action, k: Key, value: Value, id: int)
    requires Shaped(c, s) && PhasesConsistent(c, s) && SafeConsistent(c, s) && CanDo(c, s, act)
    requires VersionServes(s, k, value, id)
    ensures VersionServes(Next(c, s, act), k, value, id)
  {
    var vs, vs' := VersionsOf(s.data, k), VersionsOf(Next(c, s, act).data, k);
    var i :| 0 <= i < |vs| && vs[i].value == value && vs[i].id <= id;
    match act
    case Read(t, key) =>
      MarkedServes(VersionsOf(s.data, key), s.ids[t], 0);
      assert vs'[i].value == value && vs'[i].id <= id;
    case Apply(t, key) =>
      ApplyAtFront(c, s, t, key);
      assert vs'[if key == k then i + 1 else i] == vs[i];
    case _ =>
  }

  /** A read finds a version. */
  lemma ReadFinds(c: Config, s: State, t: TxnId, k: Key)
    requires Shaped(c, s) && IdsConsistent(c, s) && ListsConsistent(c, s) && CanDo(c, s, Read(t, k))
    ensures var found := Served(VersionsOf(s.data, k), s.ids[t]);
            found.Found? && VersionServes(s, k, found.value, s.ids[t])
  {
    var vs := VersionsOf(s.data, k);
    FirstAtMostIsFirst(vs, s.ids[t]);
    assert KeptLine(Line(s, k)) && InUse(s, t);
    assert Line(s, k)[|vs| - 1] == vs[|vs| - 1].id;
  }

  lemma SeenIsServed(c: Config, s: State, act: Action, t: TxnId, k: Key)
    requires Consistent(c, s) && CanDo(c, s, act) && t < |c.txns|
    requires HasSeen(Next(c, s, act).phase[t]) && k in Next(c, s, act).phase[t].seen
    ensures VersionServes(s, k, Next(c, s, act).phase[t].seen[k], Next(c, s, act).ids[t])
  {
    if act.Read? { ReadFinds(c, s, act.t, act.k); }
  }

  lemma SeenKeys(c: Config, s: State, act: Action, t: TxnId)
    requires Shaped(c, s) && PhasesConsistent(c, s) && ReadsConsistent(c, s) && CanDo(c, s, act) && t < |c.txns|
    requires act.Read? ==> Served(VersionsOf(s.data, act.k), s.ids[act.t]).Found?
    requires HasSeen(Next(c, s, act).phase[t])
    ensures var p := Next(c, s, act).phase[t];
            p.seen.Keys == ReadSoFar(c.txns[t], p) && p.seen.Keys <= c.init.Keys
  {
    assert PhaseConsistent(c, t, s.phase[t]);
  }

  lemma ReadsKept(c: Config, s: State, act: Action)
    requires Consistent(c, s) && CanDo(c, s, act)
    ensures ReadsConsistent(c, Next(c, s, act))
  {
    var s' := Next(c, s, act);
    if act.Read? { ReadFinds(c, s, act.t, act.k); }
    forall t: TxnId, k: Key | t < |c.txns| && HasSeen(s'.phase[t]) && k in s'.phase[t].seen
      ensures VersionServes(s', k, s'.phase[t].seen[k], s'.ids[t])
    {
      SeenIsServed(c, s, act, t, k);
      VersionStays(c, s, act, k, s'.phase[t].seen[k], s'.ids[t]);
    }
    forall t: TxnId | t < |c.txns| && HasSeen(s'.phase[t])
      ensures s'.phase[t].seen.Keys == ReadSoFar(c.txns[t], s'.phase[t]) && s'.phase[t].seen.Keys <= c.init.Keys
    {
      SeenKeys(c, s, act, t);
    }
  }

  // ---------- failures and results ----------

  lemma BeatenStays(c: Config, s: State, act: Action, t: TxnId)
    requires Consistent(c, s) && CanDo(c, s, act)
    requires Beaten(s, t) && !(GetsId(act) && act.t == t)
    ensures Beaten(Next(c, s, act), t)
  {
    var u: TxnId :| u < |s.ids| && Won(s, u) && s.ids[u] > s.ids[t];
    WonAfter(c, s, act, t);
    WonAfter(c, s, act, u);
  }

  /** Whoever has done with reading has found all keys it declares. */
  lemma DeclaredKeysExist(c: Config, s: State, t: TxnId)
    requires Shaped(c, s) && ReadsConsistent(c, s)
    requires t < |c.txns| && HasSeen(s.phase[t]) && (s.phase[t].Reading? ==> s.phase[t].unread == {})
    ensures c.txns[t].Footprint() <= c.init.Keys
  {
    assert s.phase[t].seen.Keys == ReadSoFar(c.txns[t], s.phase[t]) == c.txns[t].Footprint();
  }

  /** A check fails only under a version of a larger id, whose writer has passed its checks. */
  lemma FailedCheckIsBeaten(c: Config, s: State, t: TxnId, k: Key)
    requires Consistent(c, s) && CanDo(c, s, Check(t, k)) && !KeyIsSafe(s.data, k, s.ids[t])
    ensures Beaten(s, t)
  {
    DeclaredKeysExist(c, s, t);
    assert PhaseConsistent(c, t, s.phase[t]);
    assert KeptLine(Line(s, k));
    var id := Line(s, k)[0];
    assert id == s.data[k][0].id && id in Line(s, k) && InUse(s, t) && 0 < s.ids[t];
    var u :| WrittenBy(s, id, u);
  }

  lemma FailuresKept(c: Config, s: State, act: Action)
    requires Consistent(c, s) && CanDo(c, s, act)
    ensures FailuresConsistent(c, Next(c, s, act))
  {
    var s' := Next(c, s, act);
    forall t: TxnId | t < |c.txns| && s'.phase[t].Unlocking? && !s'.phase[t].passed ensures Beaten(s', t) {
      if !(s.phase[t].Unlocking? && !s.phase[t].passed) {
        assert act.Check? && act.t == t;
        FailedCheckIsBeaten(c, s, t, act.k);
      }
      BeatenStays(c, s, act, t);
    }
  }

  lemma ResultsKept(c: Config, s: State, act: Action)
    requires Consistent(c, s) && CanDo(c, s, act)
    ensures ResultsConsistent(c, Next(c, s, act))
  {
    var s' := Next(c, s, act);
    if act.Commit? { AppendDistinct(s.results, act.t); }
    forall t: TxnId ensures t in s'.results <==> t < |c.txns| && s'.phase[t].Committed? {
      assert t in s.results <==> t < |c.txns| && s.phase[t].Committed?;
    }
  }

  lemma ConsistentKept(c: Config, s: State, act: Action)
    requires Consistent(c, s) && CanDo(c, s, act)
    ensures Consistent(c, Next(c, s, act))
  {
    LocksKept(c, s, act);
    PhasesKept(c, s, act);
    IdsKept(c, s, act);
    ListsKept(c, s, act);
    WritersKept(c, s, act);
    VersionsKept(c, s, act);
    SafeKept(c, s, act);
    HistoryKept(c, s, act);
    BuffersKept(c, s, act);
    ReadsKept(c, s, act);
    FailuresKept(c, s, act);
    ResultsKept(c, s, act);
  }
}
