/**
 What the multi-version protocol guarantees: versions of a key in commit order,
 no deadlock, a bound on restarts, and which runs fault and which commit.
 */
module MvccCorrectness {
  import opened Transactions
  import opened VersionLists
  import opened Iteration
  import opened Measures
  import opened MvccProtocol
  import opened MvccInvariant

  lemma {:induction false} RunConsistent(c: Config, s: State, acts: seq<Action>, s': State)
    requires Consistent(c, s) && Leads(c, s, acts, s')
    ensures Consistent(c, s')
    decreases |acts|
  {
    if acts != [] {
      ConsistentKept(c, s, acts[0]);
      RunConsistent(c, Next(c, s, acts[0]), acts[1..], s');
    }
  }

  lemma ReachableConsistent(c: Config, s: State)
    requires ValidConfig(c) && Reachable(c, s)
    ensures Consistent(c, s)
  {
    var acts :| Leads(c, Start(c), acts, s);
    StartConsistent(c);
    RunConsistent(c, Start(c), acts, s);
  }

  /** The histories of writes, reads and results are only appended to. */
  lemma {:induction false} HistoriesGrow(c: Config, s: State, acts: seq<Action>, s': State)
    requires Leads(c, s, acts, s')
    ensures s.puts <= s'.puts && s.gets <= s'.gets && s.results <= s'.results
    decreases |acts|
  {
    if acts != [] { HistoriesGrow(c, Next(c, s, acts[0]), acts[1..], s'); }
  }

  // ---------- versions follow commit order ----------

  /**
   In every reachable state the ids of a key fall strictly from front to back,
   and the versions written under it so far have ids in the order of writing,
   each of a transaction that passed its checks with that id.
   */
  lemma VersionsFollowCommits(c: Config, s: State)
    requires ValidConfig(c) && Reachable(c, s)
    ensures forall k: Key | k in s.data :: StrictlyDecreasing(Line(s, k))
    ensures forall i, j | 0 <= i < j < |s.puts| && s.puts[i].key == s.puts[j].key :: s.puts[i].id < s.puts[j].id
    ensures forall i | 0 <= i < |s.puts| :: WrittenBy(s, s.puts[i].id, s.puts[i].t)
  {
    ReachableConsistent(c, s);
  }

  /** A write of the commit phase puts its version in front of all others, and above them. */
  lemma CommitsAtFront(c: Config, s: State, t: TxnId, k: Key)
    requires ValidConfig(c) && Reachable(c, s) && CanDo(c, s, Apply(t, k))
    ensures Next(c, s, Apply(t, k)).data
         == s.data[k := [Version(s.phase[t].unapplied[k], s.ids[t], 0)] + VersionsOf(s.data, k)]
    ensures k in s.data && forall v | v in s.data[k] :: v.id < s.ids[t]
  {
    ReachableConsistent(c, s);
    ApplyAtFront(c, s, t, k);
    forall v | v in s.data[k] ensures v.id < s.ids[t] {
      var i :| 0 <= i < |s.data[k]| && s.data[k][i] == v;
      assert Line(s, k)[i] == v.id && StrictlyDecreasing(Line(s, k));
    }
  }

  /**
   A commit is all or nothing: a transaction that was handed back has put
   exactly its buffer, each key once with its value and the id of the attempt,
   and nobody else's attempt has put anything unless it will commit as well.
   */
  lemma CommitIsAtomic(c: Config, s: State, t: TxnId, k: Key)
    requires ValidConfig(c) && Reachable(c, s) && t in s.results
    ensures t < |c.txns| == |s.phase| == |s.ids| && s.phase[t].Committed?
    ensures var buffer := c.txns[t].logic(s.phase[t].seen).writes;
            if k in buffer then
              exists i :: 0 <= i < |s.puts| && s.puts[i] == WrittenVersion(t, k, buffer[k], s.ids[t])
            else !HasWritten(s, t, k)
    ensures forall i, j | 0 <= i < j < |s.puts| && s.puts[i].t == s.puts[j].t :: s.puts[i].key != s.puts[j].key
    ensures forall i | 0 <= i < |s.puts| :: Won(s, s.puts[i].t)
  {
    ReachableConsistent(c, s);
    if k in Buffer(c, t, s.phase[t].seen) {
      assert Through(s, t, k) && HasWritten(s, t, k);
      var i :| 0 <= i < |s.puts| && s.puts[i].t == t && s.puts[i].key == k;
      assert WrittenBy(s, s.puts[i].id, t);
    }
    forall i, j | 0 <= i < j < |s.puts| && s.puts[i].t == s.puts[j].t ensures s.puts[i].key != s.puts[j].key {
      assert WrittenBy(s, s.puts[i].id, s.puts[i].t) && WrittenBy(s, s.puts[j].id, s.puts[j].t);
    }
  }

  /** What a transaction decides on comes from versions no newer than itself, for every key it declares. */
  lemma ReadsNothingNewer(c: Config, s: State, t: TxnId)
    requires ValidConfig(c) && Reachable(c, s) && t in s.results
    ensures t < |c.txns| == |s.phase| == |s.ids| && s.phase[t].Committed?
    ensures s.phase[t].seen.Keys == c.txns[t].Footprint() <= c.init.Keys
    ensures forall k: Key | k in s.phase[t].seen :: VersionServes(s, k, s.phase[t].seen[k], s.ids[t])
  {
    ReachableConsistent(c, s);
    DeclaredKeysExist(c, s, t);
    assert ReadSoFar(c.txns[t], s.phase[t]) == c.txns[t].Footprint();
  }

  /** Check and write are under one lock: nobody else can write a key that `t` has checked or will still write. */
  lemma CheckedKeysStay(c: Config, s: State, t: TxnId, u: TxnId, k: Key)
    requires ValidConfig(c) && Reachable(c, s) && t != u
    requires t < |c.txns| && k in c.txns[t].writeset && MayWrite(s, t, k)
    ensures !CanDo(c, s, Apply(u, k)) && !CanDo(c, s, Lock(u, k))
  {
    ReachableConsistent(c, s);
    assert OwnedBy(s, k, t);
    if CanDo(c, s, Apply(u, k)) { OneWriterAtATime(c, s, t, u, k); }
  }

  // ---------- no deadlock ----------

  lemma {:induction false} LeastKey(keys: set<Key>) returns (k: Key)
    requires keys != {}
    ensures k in keys && forall x | x in keys :: k <= x
    decreases |keys|
  {
    var some :| some in keys;
    k := some;
    if keys - {some} != {} {
      var rest := LeastKey(keys - {some});
      if rest < k { k := rest; }
    }
    forall x | x in keys ensures k <= x {
      assert x == some || x in keys - {some};
    }
  }

  /** Write keys are locked in ascending order: whoever waits for a key holds none above it. */
  lemma AscendingWaits(c: Config, s: State, t: TxnId, k: Key)
    requires Consistent(c, s) && t < |c.txns| && s.phase[t].Locking?
    requires NextToLock(c.txns[t].writeset, s.phase[t].held, k)
    ensures forall x | x in HeldBy(c, s, t) :: x < k
  {
    assert PhaseConsistent(c, t, s.phase[t]);
    forall x | x in HeldBy(c, s, t) ensures x < k {
      assert x in s.phase[t].held && x != k;
    }
  }

  lemma NextKey(c: Config, s: State, t: TxnId) returns (k: Key)
    requires Consistent(c, s) && t < |c.txns| && s.phase[t].Locking? && s.phase[t].held != c.txns[t].writeset
    ensures NextToLock(c.txns[t].writeset, s.phase[t].held, k)
  {
    var w, held := c.txns[t].writeset, s.phase[t].held;
    assert PhaseConsistent(c, t, s.phase[t]);
    assert held <= w;
    var some :| some in w && some !in held;
    assert some in w - held;
    k := LeastKey(w - held);
    forall x | x in w && x < k ensures x in held {
      assert x !in w - held;
    }
  }

  ghost function LockedFrom(s: State, k: Key): set<Key> {
    set x | x in s.owner && x >= k
  }

  /** The owner of a locked key, or an owner further up, can move. */
  lemma {:induction false} OwnerCanMove(c: Config, s: State, k: Key) returns (act: Action)
    requires Consistent(c, s) && !s.faulted && k in s.owner
    ensures CanDo(c, s, act)
    decreases LockedFrom(s, k)
  {
    var t := s.owner[k];
    assert OwnedBy(s, k, t) && k in HeldBy(c, s, t);
    var p := s.phase[t];
    if p.Locking? && p.held != c.txns[t].writeset {
      var next := NextKey(c, s, t);
      AscendingWaits(c, s, t, next);
      if next in s.owner {
        assert k in LockedFrom(s, k) && LockedFrom(s, next) <= LockedFrom(s, k);
        act := OwnerCanMove(c, s, next);
      } else {
        DeclaredKeysExist(c, s, t);
        act := Lock(t, next);
      }
    } else {
      act := MoveWithoutLock(c, s, t);
    }
  }

  /** A transaction that needs no further mutex can move. */
  lemma MoveWithoutLock(c: Config, s: State, t: TxnId) returns (act: Action)
    requires Consistent(c, s) && !s.faulted && t < |c.txns|
    requires match s.phase[t]
             case Locking(_, held) => held == c.txns[t].writeset
             case Checking(_, _) => true
             case Applying(_, _) => true
             case Unlocking(_, _, _) => true
             case _ => false
    ensures CanDo(c, s, act)
  {
    var p := s.phase[t];
    if p.Locking? {
      act := BeginCheck(t);
    } else if p.Checking? {
      if p.unchecked == {} { act := Pass(t); } else { var x :| x in p.unchecked; act := Check(t, x); }
    } else if p.Applying? {
      if p.unapplied == map[] { act := EndApply(t); } else { var x :| x in p.unapplied; act := Apply(t, x); }
    } else if p.locked == {} {
      act := if p.passed then Commit(t) else Restart(t);
    } else {
      var x :| x in p.locked;
      act := Unlock(t, x);
    }
  }

  lemma RunningCanMove(c: Config, s: State, t: TxnId) returns (act: Action)
    requires Consistent(c, s) && !s.faulted && t < |c.txns| && Running(s.phase[t])
    ensures CanDo(c, s, act)
  {
    var p := s.phase[t];
    if p.Reading? {
      if p.unread == {} {
        act := Run(t);
      } else {
        var k := LeastKey(p.unread);
        if k !in Mutexes(c) {
          act := Fault(t, k);
        } else if k in s.owner {
          act := OwnerCanMove(c, s, k);
        } else {
          act := Read(t, k);
        }
      }
    } else if p.Locking? && p.held != c.txns[t].writeset {
      var k := NextKey(c, s, t);
      DeclaredKeysExist(c, s, t);
      if k in s.owner { act := OwnerCanMove(c, s, k); } else { act := Lock(t, k); }
    } else {
      act := MoveWithoutLock(c, s, t);
    }
  }

  ghost predicate Complete(c: Config, s: State) {
    forall t: TxnId | t < |c.txns| :: t in s.results
  }

  /** No deadlock, whatever the transactions declare: short of a fault and of completion some step is possible. */
  lemma NeverStuck(c: Config, s: State) returns (act: Action)
    requires Consistent(c, s) && !s.faulted && !Complete(c, s)
    ensures CanDo(c, s, act)
  {
    if t: TxnId :| t < |c.txns| && Running(s.phase[t]) {
      act := RunningCanMove(c, s, t);
    } else {
      var t: TxnId :| t < |c.txns| && t !in s.results;
      assert RunningTxns(s) == {};
      act := if s.phase[t].Outside? then Submit(t) else Begin(t);
    }
  }

  // ---------- restarts ----------

  ghost function Unwon(s: State): set<TxnId> {
    set t: TxnId | t < |s.phase| && !Won(s, t)
  }

  /** How often `t` can still be made to restart. */
  ghost function Threats(s: State, t: TxnId): nat {
    |Unwon(s) - {t}| + if Beaten(s, t) then 1 else 0
  }

  lemma UnwonAfter(c: Config, s: State, act: Action)
    requires Consistent(c, s) && CanDo(c, s, act)
    ensures Unwon(Next(c, s, act)) == if act.Pass? then Unwon(s) - {act.t} else Unwon(s)
    ensures act.Pass? ==> act.t in Unwon(s)
  {
    var s' := Next(c, s, act);
    forall t: TxnId ensures Won(s', t) <==> Won(s, t) || act == Pass(t) { WonAfter(c, s, act, t); }
  }

  lemma BeatenAfter(c: Config, s: State, act: Action, t: TxnId)
    requires Consistent(c, s) && CanDo(c, s, act) && Beaten(Next(c, s, act), t)
    ensures Beaten(s, t) || act.Pass?
    ensures !(act.Pass? && act.t == t) || Beaten(s, t)
    ensures !(GetsId(act) && act.t == t)
  {
    var s' := Next(c, s, act);
    var u: TxnId :| u < |s'.ids| && Won(s', u) && s'.ids[u] > s'.ids[t];
    WonAfter(c, s, act, t);
    WonAfter(c, s, act, u);
  }

  /** Threats never grow, and each restart costs one. */
  lemma ThreatsDrop(c: Config, s: State, act: Action, t: TxnId)
    requires Consistent(c, s) && CanDo(c, s, act)
    ensures Threats(Next(c, s, act), t) + (if act == Restart(t) then 1 else 0) <= Threats(s, t)
  {
    OthersUnwon(c, s, act, t);
    if Beaten(Next(c, s, act), t) { BeatenAfter(c, s, act, t); }
  }

  lemma OthersUnwon(c: Config, s: State, act: Action, t: TxnId)
    requires Consistent(c, s) && CanDo(c, s, act)
    ensures |Unwon(Next(c, s, act)) - {t}| + (if act.Pass? && act.t != t then 1 else 0) == |Unwon(s) - {t}|
  {
    var s' := Next(c, s, act);
    UnwonAfter(c, s, act);
    if act.Pass? && act.t != t {
      assert Unwon(s') - {t} == (Unwon(s) - {t}) - {act.t};
    } else {
      assert Unwon(s') - {t} == Unwon(s) - {t};
    }
  }

  ghost function Restarts(acts: seq<Action>, t: TxnId): nat {
    if acts == [] then 0 else (if acts[0] == Restart(t) then 1 else 0) + Restarts(acts[1..], t)
  }

  lemma {:induction false} RestartsWithin(c: Config, s: State, acts: seq<Action>, s': State, t: TxnId)
    requires Consistent(c, s) && Leads(c, s, acts, s')
    ensures Restarts(acts, t) + Threats(s', t) <= Threats(s, t)
    decreases |acts|
  {
    if acts != [] {
      ConsistentKept(c, s, acts[0]);
      ThreatsDrop(c, s, acts[0], t);
      RestartsWithin(c, Next(c, s, acts[0]), acts[1..], s', t);
    }
  }

  /** No transaction restarts more often than there are other transactions, in any run. */
  lemma RestartsBounded(c: Config, acts: seq<Action>, s: State, t: TxnId)
    requires ValidConfig(c) && Leads(c, Start(c), acts, s)
    requires t < |c.txns|
    ensures Restarts(acts, t) < |c.txns|
  {
    StartConsistent(c);
    RestartsWithin(c, Start(c), acts, s, t);
    BoundedSize(Unwon(Start(c)), |c.txns|);
    assert t in Unwon(Start(c));
  }

  // ---------- termination ----------

  ghost function AttemptCost(txn: Txn): nat {
    |txn.Footprint()| + 3 * |txn.writeset| + 7
  }

  ghost function Stage(txn: Txn, p: Phase): nat {
    var f, w := |txn.Footprint()|, |txn.writeset|;
    match p
    case Outside => f + 3 * w + 6
    case Requested => f + 3 * w + 5
    case Reading(_, unread) => |unread| + 3 * w + 4
    case Locking(_, held) => |txn.writeset - held| + 2 * w + 3
    case Checking(_, unchecked) => |unchecked| + w + 2
    case Applying(_, unapplied) => |unapplied| + w + 3
    case Unlocking(_, locked, passed) => |locked| + (if passed then 2 else 1)
    case Committed(_) => 0
  }

  ghost function Attempts(s: State, t: TxnId): nat {
    if Won(s, t) then 0 else 1 + Threats(s, t)
  }

  ghost function Times(a: nat, m: nat): nat {
    a * m
  }

  ghost function Rank(c: Config, s: State, t: TxnId): nat
    requires t < |c.txns| == |s.phase|
  {
    Times(Attempts(s, t), AttemptCost(c.txns[t])) + Stage(c.txns[t], s.phase[t])
  }

  ghost function TotalRank(c: Config, s: State): nat
    requires |c.txns| == |s.phase|
  {
    Sum(seq(|c.txns|, t requires 0 <= t < |c.txns| => Rank(c, s, t))) + if s.faulted then 0 else 1
  }

  lemma Scaled(a: nat, b: nat, m: nat)
    requires a <= b
    ensures Times(a, m) <= Times(b, m) && (a < b ==> Times(a, m) + m <= Times(b, m))
  {
    if a < b { assert (a + 1) * m <= b * m; }
  }

  lemma AttemptsDrop(c: Config, s: State, act: Action, t: TxnId)
    requires Consistent(c, s) && CanDo(c, s, act)
    ensures Attempts(Next(c, s, act), t) <= Attempts(s, t)
    ensures act == Restart(t) || act == Pass(t) ==> Attempts(Next(c, s, act), t) < Attempts(s, t)
  {
    WonAfter(c, s, act, t);
    ThreatsDrop(c, s, act, t);
  }

  ghost predicate StageFalls(c: Config, s: State, act: Action)
    requires CanDo(c, s, act)
  {
    Stage(c.txns[act.t], NextPhase(c, s, act)) < Stage(c.txns[act.t], s.phase[act.t])
  }

  lemma EarlyStageFalls(c: Config, s: State, act: Action)
    requires CanDo(c, s, act) && (act.Submit? || act.Begin?)
    ensures StageFalls(c, s, act)
  {
  }

  lemma ReadStageFalls(c: Config, s: State, act: Action)
    requires CanDo(c, s, act) && (act.Read? || act.Run?)
    ensures StageFalls(c, s, act)
  {
    var w := c.txns[act.t].writeset;
    assert w - {} == w;
  }

  lemma LockStageFalls(c: Config, s: State, act: Action)
    requires CanDo(c, s, act) && (act.Lock? || act.BeginCheck?)
    ensures StageFalls(c, s, act)
  {
    var w, held := c.txns[act.t].writeset, s.phase[act.t].held;
    if act.Lock? {
      assert w - (held + {act.k}) == (w - held) - {act.k};
    } else {
      assert w - held == {};
    }
  }

  lemma CheckStageFalls(c: Config, s: State, act: Action)
    requires CanDo(c, s, act) && act.Check?
    ensures StageFalls(c, s, act)
  {
  }

  lemma WriteStageFalls(c: Config, s: State, act: Action)
    requires CanDo(c, s, act) && (act.Apply? || act.EndApply?)
    ensures StageFalls(c, s, act)
  {
    if act.Apply? {
      RemovalShrinks(s.phase[act.t].unapplied, act.k);
    }
  }

  lemma UnlockStageFalls(c: Config, s: State, act: Action)
    requires CanDo(c, s, act) && (act.Unlock? || act.Commit?)
    ensures StageFalls(c, s, act)
  {
  }

  /** Inside one attempt the stage goes down. */
  lemma StageDrops(c: Config, s: State, act: Action)
    requires CanDo(c, s, act) && !act.Restart? && !act.Pass? && !act.Fault?
    ensures StageFalls(c, s, act)
  {
    if act.Submit? || act.Begin? {
      EarlyStageFalls(c, s, act);
    } else if act.Read? || act.Run? {
      ReadStageFalls(c, s, act);
    } else if act.Check? {
      CheckStageFalls(c, s, act);
    } else if act.Lock? || act.BeginCheck? {
      LockStageFalls(c, s, act);
    } else if act.Unlock? || act.Commit? {
      UnlockStageFalls(c, s, act);
    } else {
      WriteStageFalls(c, s, act);
    }
  }

  lemma ActorRankDrops(c: Config, s: State, act: Action)
    requires Consistent(c, s) && CanDo(c, s, act) && !act.Fault?
    ensures |Next(c, s, act).phase| == |c.txns|
    ensures Rank(c, Next(c, s, act), act.t) < Rank(c, s, act.t)
  {
    var s', t, txn := Next(c, s, act), act.t, c.txns[act.t];
    AttemptsDrop(c, s, act, t);
    Scaled(Attempts(s', t), Attempts(s, t), AttemptCost(txn));
    if act.Pass? {
      assert BufferDeclared(txn);
      KeysWithin(Buffer(c, t, s.phase[t].seen), txn.writeset);
    } else if !act.Restart? {
      StageDrops(c, s, act);
    }
  }

  lemma OtherRanksNotAbove(c: Config, s: State, act: Action, t: TxnId)
    requires Consistent(c, s) && CanDo(c, s, act)
    requires t < |c.txns| && t != act.t
    ensures |Next(c, s, act).phase| == |c.txns|
    ensures Rank(c, Next(c, s, act), t) <= Rank(c, s, t)
  {
    AttemptsDrop(c, s, act, t);
    Scaled(Attempts(Next(c, s, act), t), Attempts(s, t), AttemptCost(c.txns[t]));
  }

  /** No livelock either: every step makes the work that can still be ahead smaller. */
  lemma EveryStepShrinks(c: Config, s: State, act: Action)
    requires Consistent(c, s) && CanDo(c, s, act)
    ensures |Next(c, s, act).phase| == |c.txns| && TotalRank(c, Next(c, s, act)) < TotalRank(c, s)
  {
    forall t: TxnId | t < |c.txns| && t != act.t
      ensures Rank(c, Next(c, s, act), t) <= Rank(c, s, t)
    {
      OtherRanksNotAbove(c, s, act, t);
    }
    if act.Fault? {
      FaultKeepsRanks(c, s, act);
    } else {
      ActorRankDrops(c, s, act);
      SumDrops(seq(|c.txns|, t requires 0 <= t < |c.txns| => Rank(c, s, t)),
               seq(|c.txns|, t requires 0 <= t < |c.txns| => Rank(c, Next(c, s, act), t)), act.t);
    }
  }

  lemma FaultKeepsRanks(c: Config, s: State, act: Action)
    requires CanDo(c, s, act) && act.Fault?
    ensures Next(c, s, act) == s.(faulted := true)
    ensures TotalRank(c, Next(c, s, act)) < TotalRank(c, s)
  {
    var s' := Next(c, s, act);
    assert s'.phase == s.phase;
    assert s' == s.(faulted := true);
    forall t: TxnId | t < |c.txns| ensures Rank(c, s', t) == Rank(c, s, t) {
      assert Unwon(s') == Unwon(s);
    }
    assert seq(|c.txns|, t requires 0 <= t < |c.txns| => Rank(c, s, t))
        == seq(|c.txns|, t requires 0 <= t < |c.txns| => Rank(c, s', t));
  }

  lemma {:induction false} RunToEnd(c: Config, s: State) returns (acts: seq<Action>, s': State)
    requires Consistent(c, s)
    ensures Leads(c, s, acts, s') && Consistent(c, s') && (Complete(c, s') || s'.faulted)
    decreases TotalRank(c, s)
  {
    if Complete(c, s) || s.faulted {
      acts, s' := [], s;
    } else {
      var act := NeverStuck(c, s);
      ConsistentKept(c, s, act);
      EveryStepShrinks(c, s, act);
      var rest;
      rest, s' := RunToEnd(c, Next(c, s, act));
      acts := [act] + rest;
    }
  }

  // ---------- faults ----------

  /** All keys that transactions declare were loaded initially, and so have a mutex. */
  ghost predicate KeysExist(c: Config) {
    forall t: TxnId | t < |c.txns| :: c.txns[t].Footprint() <= Mutexes(c)
  }

  /** A transaction that declares a key without a mutex never gets past its reads. */
  lemma AbsentKeyNeverCommits(c: Config, s: State, t: TxnId)
    requires ValidConfig(c) && Reachable(c, s) && t < |c.txns|
    requires !(c.txns[t].Footprint() <= Mutexes(c))
    ensures t !in s.results && t < |s.phase| && (HasSeen(s.phase[t]) ==> s.phase[t].Reading?)
  {
    ReachableConsistent(c, s);
    if HasSeen(s.phase[t]) && !s.phase[t].Reading? { DeclaredKeysExist(c, s, t); }
  }

  lemma CompleteMeansKeysExist(c: Config, s: State)
    requires Consistent(c, s) && Complete(c, s)
    ensures KeysExist(c)
  {
    forall t: TxnId | t < |c.txns| ensures c.txns[t].Footprint() <= Mutexes(c) {
      assert t in s.results;
      DeclaredKeysExist(c, s, t);
    }
  }

  lemma FaultMeansKeyAbsent(c: Config, s: State)
    requires Consistent(c, s) && s.faulted
    ensures !KeysExist(c)
  {
    var t: TxnId, k: Key :| t < |c.txns| && Wants(c.txns[t], s.phase[t], k) && k !in Mutexes(c);
    assert PhaseConsistent(c, t, s.phase[t]);
    assert k in c.txns[t].Footprint();
  }

  /** Some run faults exactly when some transaction declares a key without a mutex. */
  lemma FaultsIff(c: Config)
    requires ValidConfig(c)
    ensures !KeysExist(c) <==> exists s :: Reachable(c, s) && s.faulted
  {
    StartConsistent(c);
    if !KeysExist(c) {
      var acts, s := RunToEnd(c, Start(c));
      assert Reachable(c, s);
      if Complete(c, s) { CompleteMeansKeysExist(c, s); }
    }
    if s :| Reachable(c, s) && s.faulted {
      ReachableConsistent(c, s);
      FaultMeansKeyAbsent(c, s);
    }
  }

  /** All transactions can commit exactly when all keys they declare, to read or to write, have a mutex. */
  lemma AllCommitIff(c: Config)
    requires ValidConfig(c)
    ensures KeysExist(c) <==> exists s :: Reachable(c, s) && Complete(c, s)
  {
    StartConsistent(c);
    if KeysExist(c) {
      var acts, s := RunToEnd(c, Start(c));
      assert Reachable(c, s);
      if s.faulted { FaultMeansKeyAbsent(c, s); }
    }
    if s :| Reachable(c, s) && Complete(c, s) {
      ReachableConsistent(c, s);
      CompleteMeansKeysExist(c, s);
    }
  }

  /**
   How runs end: with the keys there, a state without a possible step has
   committed everything and none has faulted; without them, every run that
   stops has faulted.
   */
  lemma HowRunsEnd(c: Config, s: State)
    requires ValidConfig(c) && Reachable(c, s)
    ensures (forall act :: !CanDo(c, s, act)) ==> if KeysExist(c) then Complete(c, s) else s.faulted
    ensures KeysExist(c) ==> !s.faulted
    ensures exists acts, s' :: Leads(c, s, acts, s') && if KeysExist(c) then Complete(c, s') else s'.faulted
  {
    ReachableConsistent(c, s);
    if s.faulted { FaultMeansKeyAbsent(c, s); }
    if Complete(c, s) { CompleteMeansKeysExist(c, s); }
    if !s.faulted && !Complete(c, s) {
      var act := NeverStuck(c, s);
    }
    var acts, s' := RunToEnd(c, s);
    if s'.faulted { FaultMeansKeyAbsent(c, s'); }
    if Complete(c, s') { CompleteMeansKeysExist(c, s'); }
  }
}
