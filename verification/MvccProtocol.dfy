/**
 Transactions over multi-version storage.

 A transaction reads its footprint key by key at its own id, runs, locks its
 write keys in ascending order, checks that none of them has a newer version,
 and then applies its writes or restarts with a fresh id.  Locks are per key;
 only a key of the initial store has one, and locking any other key faults.
 */
module MvccProtocol {
  import opened Transactions
  import opened VersionLists
  import opened Iteration

  const THREAD_COUNT: nat := 8

  datatype Config = Config(init: Store, txns: seq<Txn>)

  /** The buffer is applied whatever the vote; a write outside the writeset stops the process. */
  ghost predicate BufferDeclared(txn: Txn) {
    forall seen: Store :: txn.logic(seen).writes.Keys <= txn.writeset
  }

  ghost predicate ValidConfig(c: Config) {
    forall t: TxnId | t < |c.txns| :: BufferDeclared(c.txns[t])
  }

  datatype Phase =
    | Outside                                      // not submitted
    | Requested                                    // has an id, waits for a thread
    | Reading(seen: Store, unread: set<Key>)
    | Locking(seen: Store, held: set<Key>)         // the logic has run on `seen`
    | Checking(seen: Store, unchecked: set<Key>)
    | Applying(seen: Store, unapplied: Store)
    | Unlocking(seen: Store, locked: set<Key>, passed: bool)
    | Committed(seen: Store)

  datatype State = State(
    data: Data,
    owner: map<Key, TxnId>,     // the key mutexes that are locked
    ids: seq<int>,              // unique_id_
    nextId: int,
    phase: seq<Phase>,
    puts: seq<WrittenVersion>,  // all versions written so far, in time order
    gets: seq<ServedRead>,      // all reads so far, in time order
    results: seq<TxnId>,
    faulted: bool)              // the process has stopped at a null mutex

  datatype WrittenVersion = WrittenVersion(t: TxnId, key: Key, value: Value, id: int)

  /** A read by the attempt of `t` with this id, made after so many versions had been written. */
  datatype ServedRead = ServedRead(t: TxnId, key: Key, value: Value, id: int, after: nat)

  datatype Action =
    | Submit(t: TxnId)
    | Begin(t: TxnId)            // the thread pool takes it up
    | Read(t: TxnId, k: Key)     // lock, read, unlock
    | Run(t: TxnId)
    | Lock(t: TxnId, k: Key)
    | BeginCheck(t: TxnId)
    | Check(t: TxnId, k: Key)
    | Pass(t: TxnId)
    | Apply(t: TxnId, k: Key)
    | EndApply(t: TxnId)
    | Unlock(t: TxnId, k: Key)
    | Commit(t: TxnId)
    | Restart(t: TxnId)
    | Fault(t: TxnId, k: Key)    // lock a key that has no mutex

  ghost function Start(c: Config): State {
    State(map k | k in c.init :: [Version(c.init[k], 0, 0)], map[], seq(|c.txns|, _ => 0), 1,
          seq(|c.txns|, _ => Outside), [], [], [], false)
  }

  ghost predicate Running(p: Phase) {
    !p.Outside? && !p.Requested? && !p.Committed?
  }

  ghost function RunningTxns(s: State): set<TxnId> {
    set t: TxnId | t < |s.phase| && Running(s.phase[t])
  }

  /** The key mutexes: the initial load creates one for each key it writes, and nothing else does. */
  ghost function Mutexes(c: Config): set<Key> {
    c.init.Keys
  }

  /** `k` is the least key not read yet. */
  ghost predicate NextToRead(unread: set<Key>, k: Key) {
    k in unread && forall x | x in unread :: k <= x
  }

  /** `k` is the least write key not locked yet. */
  ghost predicate NextToLock(writeset: set<Key>, held: set<Key>, k: Key) {
    k in writeset && k !in held && forall x | x in writeset && x < k :: x in held
  }

  /** The key whose mutex the transaction asks for next. */
  ghost predicate Wants(txn: Txn, p: Phase, k: Key) {
    (p.Reading? && NextToRead(p.unread, k)) || (p.Locking? && NextToLock(txn.writeset, p.held, k))
  }

  ghost predicate CanDo(c: Config, s: State, act: Action) {
    && !s.faulted
    && |s.phase| == |c.txns| == |s.ids|
    && act.t < |c.txns|
    && var p, txn := s.phase[act.t], c.txns[act.t];
       match act
       case Submit(_) => p.Outside?
       case Begin(_) => p.Requested? && |RunningTxns(s)| < THREAD_COUNT
       case Read(_, k) => p.Reading? && Wants(txn, p, k) && k in Mutexes(c) && k !in s.owner
       case Run(_) => p.Reading? && p.unread == {}
       case Lock(_, k) => p.Locking? && Wants(txn, p, k) && k in Mutexes(c) && k !in s.owner
       case BeginCheck(_) => p.Locking? && p.held == txn.writeset
       case Check(_, k) => p.Checking? && k in p.unchecked
       case Pass(_) => p.Checking? && p.unchecked == {}
       case Apply(_, k) => p.Applying? && k in p.unapplied
       case EndApply(_) => p.Applying? && p.unapplied == map[]
       case Unlock(_, k) => p.Unlocking? && k in p.locked
       case Commit(_) => p.Unlocking? && p.locked == {} && p.passed
       case Restart(_) => p.Unlocking? && p.locked == {} && !p.passed
       case Fault(_, k) => Wants(txn, p, k) && k !in Mutexes(c)
  }

  /** What the logic writes after reading `seen`; the vote is not consulted. */
  ghost function Buffer(c: Config, t: TxnId, seen: Store): Store
    requires t < |c.txns|
  {
    c.txns[t].logic(seen).writes
  }

  ghost function NextPhase(c: Config, s: State, act: Action): Phase
    requires CanDo(c, s, act)
  {
    var p, txn := s.phase[act.t], c.txns[act.t];
    match act
    case Submit(_) => Requested
    case Begin(_) => Reading(map[], txn.Footprint())
    case Read(_, k) =>
      var found := Served(VersionsOf(s.data, k), s.ids[act.t]);
      Reading(if found.Found? then p.seen[k := found.value] else p.seen, p.unread - {k})
    case Run(_) => Locking(p.seen, {})
    case Lock(_, k) => Locking(p.seen, p.held + {k})
    case BeginCheck(_) => Checking(p.seen, txn.writeset)
    case Check(_, k) =>
      if KeyIsSafe(s.data, k, s.ids[act.t]) then Checking(p.seen, p.unchecked - {k})
      else Unlocking(p.seen, txn.writeset, false)
    case Pass(_) => Applying(p.seen, Buffer(c, act.t, p.seen))
    case Apply(_, k) => Applying(p.seen, p.unapplied - {k})
    case EndApply(_) => Unlocking(p.seen, txn.writeset, true)
    case Unlock(_, k) => Unlocking(p.seen, p.locked - {k}, p.passed)
    case Commit(_) => Committed(p.seen)
    case Restart(_) => Requested
    case Fault(_, _) => p
  }

  ghost function NextData(s: State, act: Action): Data
    requires act.t < |s.phase| == |s.ids|
    requires act.Apply? ==> s.phase[act.t].Applying? && act.k in s.phase[act.t].unapplied
  {
    match act
    case Read(t, k) => DataAfterRead(s.data, k, s.ids[t])
    case Apply(t, k) => DataAfterWrite(s.data, k, s.phase[t].unapplied[k], s.ids[t])
    case _ => s.data
  }

  ghost function NextOwner(s: State, act: Action): map<Key, TxnId> {
    match act
    case Lock(t, k) => s.owner[k := t]
    case Unlock(_, k) => s.owner - {k}
    case _ => s.owner
  }

  ghost function NewVersion(s: State, act: Action): WrittenVersion
    requires act.Apply? && act.t < |s.phase| == |s.ids|
    requires s.phase[act.t].Applying? && act.k in s.phase[act.t].unapplied
  {
    WrittenVersion(act.t, act.k, s.phase[act.t].unapplied[act.k], s.ids[act.t])
  }

  ghost function NextGets(s: State, act: Action): seq<ServedRead>
    requires act.t < |s.ids|
  {
    if act.Read? then
      var found := Served(VersionsOf(s.data, act.k), s.ids[act.t]);
      if found.Found? then s.gets + [ServedRead(act.t, act.k, found.value, s.ids[act.t], |s.puts|)] else s.gets
    else s.gets
  }

  ghost predicate GetsId(act: Action) {
    act.Submit? || act.Restart?
  }

  ghost function Next(c: Config, s: State, act: Action): State
    requires CanDo(c, s, act)
  {
    State(NextData(s, act), NextOwner(s, act),
          if GetsId(act) then s.ids[act.t := s.nextId] else s.ids,
          if GetsId(act) then s.nextId + 1 else s.nextId,
          s.phase[act.t := NextPhase(c, s, act)],
          if act.Apply? then s.puts + [NewVersion(s, act)] else s.puts,
          NextGets(s, act),
          if act.Commit? then s.results + [act.t] else s.results,
          act.Fault?)
  }

  ghost predicate Leads(c: Config, s: State, acts: seq<Action>, s': State)
    decreases |acts|
  {
    if acts == [] then s == s'
    else CanDo(c, s, acts[0]) && Leads(c, Next(c, s, acts[0]), acts[1..], s')
  }

  ghost predicate Reachable(c: Config, s: State) {
    exists acts :: Leads(c, Start(c), acts, s)
  }

  // ---------- what every step keeps ----------

  /** The version ids of a key, front first. */
  ghost function Line(s: State, k: Key): seq<int> {
    var vs := VersionsOf(s.data, k);
    seq(|vs|, i requires 0 <= i < |vs| => vs[i].id)
  }

  ghost predicate StrictlyDecreasing(xs: seq<int>) {
    forall i, j | 0 <= i < j < |xs| :: xs[i] > xs[j]
  }

  ghost predicate InUse(s: State, t: TxnId) {
    t < |s.phase| && !s.phase[t].Outside?
  }

  /** The attempt has passed its checks and will commit. */
  ghost predicate Won(s: State, t: TxnId) {
    t < |s.phase| && match s.phase[t]
                     case Applying(_, _) => true
                     case Unlocking(_, _, passed) => passed
                     case Committed(_) => true
                     case _ => false
  }

  /** The keys whose mutex `t` holds, by its place in the program. */
  ghost function HeldBy(c: Config, s: State, t: TxnId): set<Key>
    requires t < |c.txns| == |s.phase|
  {
    match s.phase[t]
    case Locking(_, held) => held
    case Checking(_, _) => c.txns[t].writeset
    case Applying(_, _) => c.txns[t].writeset
    case Unlocking(_, locked, _) => locked
    case _ => {}
  }

  ghost predicate OwnedBy(s: State, k: Key, t: TxnId) {
    k in s.owner && s.owner[k] == t
  }

  ghost predicate Shaped(c: Config, s: State) {
    |s.phase| == |c.txns| == |s.ids|
  }

  ghost predicate LocksConsistent(c: Config, s: State)
    requires Shaped(c, s)
  {
    && (forall k | k in s.owner :: s.owner[k] < |c.txns|)
    && (forall k: Key, t: TxnId | t < |c.txns| :: OwnedBy(s, k, t) <==> k in HeldBy(c, s, t))
  }

  /** Locks are a lower part of the write keys; buffers and check lists stay inside them. */
  ghost predicate PhaseConsistent(c: Config, t: TxnId, p: Phase)
    requires t < |c.txns|
  {
    var w := c.txns[t].writeset;
    match p
    case Reading(_, unread) => unread <= c.txns[t].Footprint()
    case Locking(_, held) => held <= w && forall x, y | x in held && y in w && y < x :: y in held
    case Checking(_, unchecked) => unchecked <= w
    case Applying(seen, unapplied) =>
      var buffer := Buffer(c, t, seen);
      unapplied.Keys <= buffer.Keys && buffer.Keys <= w && forall k | k in unapplied :: unapplied[k] == buffer[k]
    case Unlocking(_, locked, _) => locked <= w
    case _ => true
  }

  ghost predicate PhasesConsistent(c: Config, s: State)
    requires Shaped(c, s)
  {
    forall t: TxnId | t < |c.txns| :: PhaseConsistent(c, t, s.phase[t])
  }

  /** Ids in use are distinct and below the next one. */
  ghost predicate IdsConsistent(c: Config, s: State)
    requires Shaped(c, s)
  {
    && s.nextId > 0
    && (forall t: TxnId | InUse(s, t) :: 0 < s.ids[t] < s.nextId)
    && (forall t: TxnId, u: TxnId | InUse(s, t) && InUse(s, u) && s.ids[t] == s.ids[u] :: t == u)
  }

  ghost predicate KeptLine(ids: seq<int>) {
    ids != [] && ids[|ids| - 1] == 0 && StrictlyDecreasing(ids)
  }

  /** Every key keeps its first version at the back, and ids fall strictly from the front. */
  ghost predicate ListsConsistent(c: Config, s: State) {
    && s.data.Keys == c.init.Keys
    && forall k | k in c.init :: KeptLine(Line(s, k))
  }

  ghost predicate WrittenBy(s: State, id: int, t: TxnId) {
    Won(s, t) && t < |s.ids| && s.ids[t] == id
  }

  /** Versions are the initial one, or written by transactions that passed their checks. */
  ghost predicate WritersConsistent(c: Config, s: State) {
    forall k: Key, id: int | id in Line(s, k) :: id == 0 || exists t :: WrittenBy(s, id, t)
  }

  ghost predicate IsPut(s: State, k: Key, value: Value, id: int) {
    exists i :: 0 <= i < |s.puts| && s.puts[i].key == k && s.puts[i].value == value && s.puts[i].id == id
  }

  ghost predicate IsInitial(c: Config, k: Key, v: Version) {
    k in c.init && v.id == 0 && v.value == c.init[k]
  }

  /** The lists hold the initial versions and what has been written, nothing else. */
  ghost predicate VersionsConsistent(c: Config, s: State) {
    forall k: Key, i: nat | i < |VersionsOf(s.data, k)| ::
      var v := VersionsOf(s.data, k)[i];
      IsInitial(c, k, v) || IsPut(s, k, v.value, v.id)
  }

  /** `t` may still write `k`: it has not done so, and what it has checked stays checked. */
  ghost predicate MayWrite(s: State, t: TxnId, k: Key) {
    t < |s.phase| && match s.phase[t]
                     case Checking(_, unchecked) => k !in unchecked
                     case Applying(_, unapplied) => k in unapplied
                     case _ => false
  }

  ghost predicate SafeConsistent(c: Config, s: State)
    requires Shaped(c, s)
  {
    forall t: TxnId, k: Key | t < |c.txns| && k in c.txns[t].writeset && MayWrite(s, t, k) ::
      Line(s, k) != [] && Line(s, k)[0] <= s.ids[t] && s.ids[t] !in Line(s, k)
  }

  /** What was written last under a key is at its front. */
  ghost predicate HistoryConsistent(s: State) {
    && (forall i | 0 <= i < |s.puts| ::
          WrittenBy(s, s.puts[i].id, s.puts[i].t)
          && Line(s, s.puts[i].key) != [] && s.puts[i].id <= Line(s, s.puts[i].key)[0])
    && (forall i, j | 0 <= i < j < |s.puts| && s.puts[i].key == s.puts[j].key :: s.puts[i].id < s.puts[j].id)
  }

  ghost predicate HasWritten(s: State, t: TxnId, k: Key) {
    exists i :: 0 <= i < |s.puts| && s.puts[i].t == t && s.puts[i].key == k
  }

  /** Passed its checks, and not about to write `k` any more. */
  ghost predicate Through(s: State, t: TxnId, k: Key) {
    Won(s, t) && !(s.phase[t].Applying? && k in s.phase[t].unapplied)
  }

  /** What a transaction has written is its buffer, as far as it has got. */
  ghost predicate BuffersConsistent(c: Config, s: State)
    requires Shaped(c, s)
  {
    && (forall i | 0 <= i < |s.puts| ::
          var put := s.puts[i];
          && Won(s, put.t) && put.t < |c.txns|
          && put.key in Buffer(c, put.t, s.phase[put.t].seen) && put.value == Buffer(c, put.t, s.phase[put.t].seen)[put.key])
    && (forall t: TxnId, k: Key | t < |c.txns| && Won(s, t) && k in Buffer(c, t, s.phase[t].seen) ::
          HasWritten(s, t, k) <==> Through(s, t, k))
  }

  /** A version of `k` no newer than `id` has this value. */
  ghost predicate VersionServes(s: State, k: Key, value: Value, id: int) {
    exists i :: 0 <= i < |VersionsOf(s.data, k)| && VersionsOf(s.data, k)[i].value == value && VersionsOf(s.data, k)[i].id <= id
  }

  ghost predicate HasSeen(p: Phase) {
    !p.Outside? && !p.Requested?
  }

  /** The keys read so far. */
  ghost function ReadSoFar(txn: Txn, p: Phase): set<Key> {
    txn.Footprint() - if p.Reading? then p.unread else {}
  }

  /** What was read comes from versions no newer than the reader, and every key asked for was there. */
  ghost predicate ReadsConsistent(c: Config, s: State)
    requires Shaped(c, s)
  {
    && (forall t: TxnId, k: Key | t < |c.txns| && HasSeen(s.phase[t]) && k in s.phase[t].seen ::
          VersionServes(s, k, s.phase[t].seen[k], s.ids[t]))
    && (forall t: TxnId | t < |c.txns| && HasSeen(s.phase[t]) ::
          s.phase[t].seen.Keys == ReadSoFar(c.txns[t], s.phase[t]) && s.phase[t].seen.Keys <= c.init.Keys)
  }

  /** A transaction with a larger id has passed its checks. */
  ghost predicate Beaten(s: State, t: TxnId) {
    InUse(s, t) && t < |s.ids| && exists u: TxnId :: u < |s.ids| && Won(s, u) && s.ids[u] > s.ids[t]
  }

  /** An attempt fails because it was beaten. */
  ghost predicate FailuresConsistent(c: Config, s: State)
    requires Shaped(c, s)
  {
    forall t: TxnId | t < |c.txns| && s.phase[t].Unlocking? && !s.phase[t].passed :: Beaten(s, t)
  }

  ghost predicate ResultsConsistent(c: Config, s: State)
    requires Shaped(c, s)
  {
    && Distinct(s.results)
    && forall t: TxnId :: t in s.results <==> t < |c.txns| && s.phase[t].Committed?
  }

  /** The process stops only at a key without a mutex. */
  ghost predicate FaultConsistent(c: Config, s: State)
    requires Shaped(c, s)
  {
    s.faulted ==> exists t: TxnId, k: Key :: t < |c.txns| && Wants(c.txns[t], s.phase[t], k) && k !in Mutexes(c)
  }

  ghost predicate Consistent(c: Config, s: State) {
    && ValidConfig(c)
    && Shaped(c, s)
    && LocksConsistent(c, s)
    && PhasesConsistent(c, s)
    && IdsConsistent(c, s)
    && ListsConsistent(c, s)
    && WritersConsistent(c, s)
    && VersionsConsistent(c, s)
    && SafeConsistent(c, s)
    && HistoryConsistent(s)
    && BuffersConsistent(c, s)
    && ReadsConsistent(c, s)
    && FailuresConsistent(c, s)
    && ResultsConsistent(c, s)
    && FaultConsistent(c, s)
  }
}
