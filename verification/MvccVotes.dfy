/**
 What a vote to abort is worth under multi-version storage.

 The commit path never looks at the vote, so a transaction that votes to abort
 is committed with whatever it has buffered.
 */
module MvccVotes {
  import opened Transactions
  import opened VersionLists
  import opened MvccProtocol
  import opened MvccInvariant
  import opened MvccCorrectness

  /** The vote of the attempt that `t` is in, on what it has read. */
  ghost predicate VotesCommit(c: Config, s: State, t: TxnId) {
    t < |c.txns| && t < |s.phase| && HasSeen(s.phase[t]) && c.txns[t].logic(s.phase[t].seen).commit
  }

  /** In every run, each version that has been written is of a transaction that votes to commit. */
  ghost predicate AbortsLeaveNothing(c: Config) {
    forall s: State, i | Reachable(c, s) && 0 <= i < |s.puts| :: VotesCommit(c, s, s.puts[i].t)
  }

  /** No logic buffers a write on reads on which it votes to abort. */
  ghost predicate AbortsBufferNothing(txns: seq<Txn>) {
    forall t: TxnId, seen: Store | t < |txns| && seen.Keys == txns[t].Footprint() && !txns[t].logic(seen).commit ::
      txns[t].logic(seen).writes == map[]
  }

  /** If aborting logics buffer nothing, aborts leave nothing, from any store. */
  lemma NothingBufferedNothingLeft(c: Config)
    requires ValidConfig(c) && AbortsBufferNothing(c.txns)
    ensures AbortsLeaveNothing(c)
  {
    forall s: State, i | Reachable(c, s) && 0 <= i < |s.puts| ensures VotesCommit(c, s, s.puts[i].t) {
      ReachableConsistent(c, s);
      var put := s.puts[i];
      assert put.key in Buffer(c, put.t, s.phase[put.t].seen);
      DeclaredKeysExist(c, s, put.t);
      assert s.phase[put.t].seen.Keys == ReadSoFar(c.txns[put.t], s.phase[put.t]) == c.txns[put.t].Footprint();
    }
  }

  // ---------- one transaction on its own ----------

  /** Only `t` has been submitted, and it has written nothing yet. */
  ghost predicate Solo(c: Config, s: State, t: TxnId) {
    && Shaped(c, s) && t < |c.txns| && !s.faulted && s.puts == []
    && (forall u: TxnId | u < |c.txns| && u != t :: s.phase[u].Outside?)
    && !s.phase[t].Unlocking? && !s.phase[t].Committed?
    && (s.phase[t].Applying? ==> s.phase[t].unapplied == Buffer(c, t, s.phase[t].seen))
  }

  lemma SoloOwnsAll(c: Config, s: State, t: TxnId, k: Key)
    requires Consistent(c, s) && Solo(c, s, t) && k !in HeldBy(c, s, t)
    ensures k !in s.owner
  {
    if k in s.owner { assert OwnedBy(s, k, s.owner[k]); }
  }

  /** Without any writes, only initial versions are there. */
  lemma OnlyInitial(c: Config, s: State, k: Key)
    requires Consistent(c, s) && s.puts == [] && k in c.init
    ensures VersionsOf(s.data, k) != []
    ensures forall v | v in VersionsOf(s.data, k) :: v.id == 0 && v.value == c.init[k]
  {
    assert KeptLine(Line(s, k));
  }

  lemma SoloStep(c: Config, s: State, t: TxnId) returns (act: Action)
    requires Consistent(c, s) && KeysExist(c) && Solo(c, s, t) && !s.phase[t].Applying?
    ensures CanDo(c, s, act) && Solo(c, Next(c, s, act), t)
  {
    var p, w := s.phase[t], c.txns[t].writeset;
    assert PhaseConsistent(c, t, p);
    if p.Outside? {
      act := Submit(t);
    } else if p.Requested? {
      assert RunningTxns(s) == {};
      act := Begin(t);
    } else if p.Reading? {
      if p.unread == {} {
        act := Run(t);
      } else {
        var k := LeastKey(p.unread);
        assert k in c.txns[t].Footprint();
        SoloOwnsAll(c, s, t, k);
        act := Read(t, k);
      }
    } else if p.Locking? {
      if p.held == w {
        act := BeginCheck(t);
      } else {
        var k := NextKey(c, s, t);
        assert k in c.txns[t].Footprint();
        SoloOwnsAll(c, s, t, k);
        act := Lock(t, k);
      }
    } else {
      act := SoloCheck(c, s, t);
    }
  }

  /** Nobody is newer, so all checks pass. */
  lemma SoloCheck(c: Config, s: State, t: TxnId) returns (act: Action)
    requires Consistent(c, s) && KeysExist(c) && Solo(c, s, t) && s.phase[t].Checking?
    ensures CanDo(c, s, act) && Solo(c, Next(c, s, act), t)
  {
    var p := s.phase[t];
    if p.unchecked == {} {
      act := Pass(t);
    } else {
      var k :| k in p.unchecked;
      assert PhaseConsistent(c, t, p);
      assert k in c.txns[t].Footprint();
      OnlyInitial(c, s, k);
      assert s.data[k][0] in VersionsOf(s.data, k) && InUse(s, t);
      act := Check(t, k);
    }
  }

  lemma {:induction false} SoloRun(c: Config, s: State, t: TxnId) returns (acts: seq<Action>, s': State)
    requires Consistent(c, s) && KeysExist(c) && Solo(c, s, t)
    ensures Leads(c, s, acts, s') && Consistent(c, s') && Solo(c, s', t) && s'.phase[t].Applying?
    decreases TotalRank(c, s)
  {
    if s.phase[t].Applying? {
      acts, s' := [], s;
    } else {
      var act := SoloStep(c, s, t);
      ConsistentKept(c, s, act);
      EveryStepShrinks(c, s, act);
      var rest;
      rest, s' := SoloRun(c, Next(c, s, act), t);
      acts := [act] + rest;
    }
  }

  /** A transaction on its own decides on the initial store. */
  lemma SoloSeesInitial(c: Config, s: State, t: TxnId)
    requires Consistent(c, s) && KeysExist(c) && Solo(c, s, t) && s.phase[t].Applying?
    ensures s.phase[t].seen == Snapshot(c.init, c.txns[t].Footprint())
  {
    var seen := s.phase[t].seen;
    assert ReadSoFar(c.txns[t], s.phase[t]) == c.txns[t].Footprint();
    forall k: Key | k in seen ensures seen[k] == c.init[k] {
      assert VersionServes(s, k, seen[k], s.ids[t]);
      OnlyInitial(c, s, k);
    }
  }

  // ---------- the exact condition ----------

  ghost function AllDeclared(txns: seq<Txn>): set<Key> {
    set t: TxnId, k: Key | t < |txns| && k in txns[t].Footprint() :: k
  }

  /** A store with all declared keys, in which `t` alone reads `seen`. */
  ghost function StoreFor(txns: seq<Txn>, seen: Store): Store {
    (map k | k in AllDeclared(txns) :: 0) + seen
  }

  lemma BufferedAbortIsWritten(txns: seq<Txn>, t: TxnId, seen: Store) returns (c: Config)
    requires t < |txns| && seen.Keys == txns[t].Footprint() && ValidConfig(Config(map[], txns))
    requires !txns[t].logic(seen).commit && txns[t].logic(seen).writes != map[]
    ensures c.txns == txns && KeysExist(c) && ValidConfig(c) && !AbortsLeaveNothing(c)
  {
    c := Config(StoreFor(txns, seen), txns);
    SameValidity(txns, c.init);
    StoreFits(txns, t, seen);
    var acts, s := SoloFromStart(c, t);
    var k :| k in s.phase[t].unapplied;
    ApplyReached(c, acts, s, t, k);
  }

  lemma StoreFits(txns: seq<Txn>, t: TxnId, seen: Store)
    requires t < |txns| && seen.Keys == txns[t].Footprint()
    ensures KeysExist(Config(StoreFor(txns, seen), txns))
    ensures Snapshot(StoreFor(txns, seen), txns[t].Footprint()) == seen
  {
  }

  lemma SoloFromStart(c: Config, t: TxnId) returns (acts: seq<Action>, s: State)
    requires ValidConfig(c) && KeysExist(c) && t < |c.txns|
    ensures Leads(c, Start(c), acts, s) && Solo(c, s, t) && s.phase[t].Applying?
    ensures s.phase[t].seen == Snapshot(c.init, c.txns[t].Footprint())
  {
    StartConsistent(c);
    acts, s := SoloRun(c, Start(c), t);
    SoloSeesInitial(c, s, t);
  }

  lemma ApplyReached(c: Config, acts: seq<Action>, s: State, t: TxnId, k: Key)
    requires Leads(c, Start(c), acts, s) && CanDo(c, s, Apply(t, k))
    requires !c.txns[t].logic(s.phase[t].seen).commit
    ensures !AbortsLeaveNothing(c)
  {
    var s' := Next(c, s, Apply(t, k));
    LeadsFurther(c, Start(c), acts, s, Apply(t, k));
    assert Reachable(c, s');
    var i := |s.puts|;
    assert s'.puts[i].t == t && s'.phase[t].seen == s.phase[t].seen;
    assert !VotesCommit(c, s', s'.puts[i].t);
  }

  lemma {:induction false} LeadsFurther(c: Config, s: State, acts: seq<Action>, s': State, act: Action)
    requires Leads(c, s, acts, s') && CanDo(c, s', act)
    ensures Leads(c, s, acts + [act], Next(c, s', act))
    decreases |acts|
  {
    if acts == [] {
      assert Leads(c, Next(c, s, act), [act][1..], Next(c, s', act));
      assert acts + [act] == [act];
    } else {
      LeadsFurther(c, Next(c, s, acts[0]), acts[1..], s', act);
      assert (acts + [act])[1..] == acts[1..] + [act];
    }
  }

  /**
   Over all initial stores with the declared keys, aborted votes leave no
   version in any run exactly when no logic buffers a write on reads on which
   it votes to abort.
   */
  lemma AbortsLeaveNothingIff(txns: seq<Txn>)
    requires ValidConfig(Config(map[], txns))
    ensures (forall init: Store | KeysExist(Config(init, txns)) :: AbortsLeaveNothing(Config(init, txns)))
       <==> AbortsBufferNothing(txns)
  {
    if AbortsBufferNothing(txns) {
      forall init: Store | KeysExist(Config(init, txns)) ensures AbortsLeaveNothing(Config(init, txns)) {
        SameValidity(txns, init);
        NothingBufferedNothingLeft(Config(init, txns));
      }
    } else {
      var t: TxnId, seen: Store :| t < |txns| && seen.Keys == txns[t].Footprint() && !txns[t].logic(seen).commit
        && txns[t].logic(seen).writes != map[];
      var c := BufferedAbortIsWritten(txns, t, seen);
      assert c == Config(c.init, txns);
    }
  }

  lemma SameValidity(txns: seq<Txn>, init: Store)
    requires ValidConfig(Config(map[], txns))
    ensures ValidConfig(Config(init, txns))
  {
    forall u: TxnId | u < |txns| ensures BufferDeclared(txns[u]) {
      assert BufferDeclared(Config(map[], txns).txns[u]);
    }
  }

  // ---------- an input that shows it ----------

  ghost function Constant(o: Outcome): Store -> Outcome {
    _ => o
  }

  /** One transaction that buffers nine under `k` and votes to abort. */
  ghost function BufferThenAbort(k: Key): Config {
    Config(map[k := 0], [Txn({}, {k}, Constant(Outcome(false, map[k := 9])))])
  }

  lemma BufferThenAbortRuns(k: Key) returns (s: State)
    ensures var c := BufferThenAbort(k);
            ValidConfig(c) && Reachable(c, s) && Complete(c, s)
  {
    var c := BufferThenAbort(k);
    assert BufferDeclared(c.txns[0]);
    assert KeysExist(c);
    AllCommitIff(c);
    s :| Reachable(c, s) && Complete(c, s);
  }

  lemma BufferThenAbortSerially(k: Key)
    ensures var c := BufferThenAbort(k); SerialStore(c.init, c.txns, 1) == c.init
  {
    var c := BufferThenAbort(k);
    assert SerialStore(c.init, c.txns, 0) == c.init;
    assert c.txns[0].Effects(Snapshot(c.init, c.txns[0].Footprint())) == map[];
  }

  /** It is handed back as committed, with the version written; the serial run leaves the store alone. */
  lemma AbortedBufferIsCommitted(k: Key) returns (s: State)
    ensures var c := BufferThenAbort(k);
            && ValidConfig(c) && Reachable(c, s) && Complete(c, s)
            && |s.phase| == 1 && s.phase[0].Committed? && !VotesCommit(c, s, 0)
            && (exists i :: 0 <= i < |s.puts| && s.puts[i].t == 0 && s.puts[i].key == k && s.puts[i].value == 9)
            && SerialStore(c.init, c.txns, 1) == c.init
  {
    s := BufferThenAbortRuns(k);
    BufferThenAbortSerially(k);
    assert 0 in s.results;
    CommitIsAtomic(BufferThenAbort(k), s, 0, k);
  }
}
