/**
 Any number of processes sharing one private key document: each locks, reads,
 writes a temporary file, renames it over the document and unlocks, and any of
 them may be killed between any two steps.
 */
module PrivateFileRuns {
  import opened Wrappers

  /** Key references to encoded keys. A missing document is an empty one. */
  type Keys = map<string, string>

  datatype Op = StoreKey(ref: string, value: string) | DeleteKey(ref: string)

  function Perform(op: Op, keys: Keys): Keys {
    match op
    case StoreKey(ref, value) => keys[ref := value]
    case DeleteKey(ref) => keys - {ref}
  }

  /** Where a process stands inside a transaction. */
  datatype Phase =
    | Idle
    | ReadLocked
    | ReadDone(keys: Keys)
    | Sweeping(todo: set<nat>)
    | WriteLocked(op: Op)
    | Loaded(op: Op, keys: Keys)
    | Writing(op: Op, keys: Keys, temp: nat)
    | Synced(op: Op, keys: Keys, temp: nat)
    | Finished

  predicate Exclusive(ph: Phase) { !ph.Idle? && !ph.ReadLocked? && !ph.ReadDone? }

  predicate Shared(ph: Phase) { ph.ReadLocked? || ph.ReadDone? }

  /** A commit carries the ticket of the lock it was made under. */
  datatype Commit = Commit(op: Op, ticket: nat)

  /** What a finished read returned, and how many commits it had seen. */
  datatype Seen = Seen(keys: Keys, upto: nat)

  /** `temps` holds temporary files: `None` while they are being written. `odd` are
      those names under which something lies that is not plainly a file of this
      user alone: a sweep leaves it. */
  datatype State = State(
    data: Keys, temps: map<nat, Option<Keys>>, odd: set<nat>,
    exclusive: Option<nat>, shared: set<nat>, phases: map<nat, Phase>,
    ticket: nat, commits: seq<Commit>, seen: seq<Seen>)

  function At(s: State, p: nat): Phase { if p in s.phases then s.phases[p] else Idle }

  function Put(s: State, p: nat, ph: Phase): State { s.(phases := s.phases[p := ph]) }

  datatype Step =
    | LockShared(p: nat) | ReadDocument(p: nat) | UnlockShared(p: nat)
    | LockToSweep(p: nat) | RemoveStale(p: nat, temp: nat) | PassOver(p: nat, temp: nat) | GiveUpSweep(p: nat)
    | LockToWrite(p: nat, op: Op)
    | Load(p: nat) | CreateTemp(p: nat, temp: nat) | SyncTemp(p: nat) | Rename(p: nat)
    | SkipWrite(p: nat) | FailWrite(p: nat) | Unlock(p: nat) | Kill(p: nat)

  /** Steps that do not apply where a process stands leave everything as it is. */
  function Next(s: State, step: Step): State {
    match step
    case LockShared(p) =>
      if At(s, p).Idle? && s.exclusive.None? then Put(s, p, ReadLocked).(shared := s.shared + {p}) else s
    case ReadDocument(p) =>
      if At(s, p).ReadLocked? then Put(s, p, ReadDone(s.data)) else s
    case UnlockShared(p) =>
      if At(s, p).ReadDone?
      then Put(s, p, Idle).(shared := s.shared - {p}, seen := s.seen + [Seen(At(s, p).keys, |s.commits|)])
      else s
    case LockToSweep(p) =>
      if At(s, p).Idle? && s.exclusive.None? && s.shared == {}
      then Put(s, p, Sweeping(s.temps.Keys)).(exclusive := Some(p), ticket := s.ticket + 1)
      else s
    case RemoveStale(p, temp) =>
      if At(s, p).Sweeping? && temp in At(s, p).todo && temp !in s.odd
      then Put(s, p, Sweeping(At(s, p).todo - {temp})).(temps := s.temps - {temp})
      else s
    case PassOver(p, temp) =>
      if At(s, p).Sweeping? && temp in s.odd then Put(s, p, Sweeping(At(s, p).todo - {temp})) else s
    case GiveUpSweep(p) =>
      // A file that cannot be removed ends the sweep.
      if At(s, p).Sweeping? then Put(s, p, Finished) else s
    case LockToWrite(p, op) =>
      if At(s, p).Idle? && s.exclusive.None? && s.shared == {}
      then Put(s, p, WriteLocked(op)).(exclusive := Some(p), ticket := s.ticket + 1)
      else s
    case Load(p) =>
      if At(s, p).WriteLocked? then Put(s, p, Loaded(At(s, p).op, s.data)) else s
    case CreateTemp(p, temp) =>
      if At(s, p).Loaded? && temp !in s.temps && temp !in s.odd
      then Put(s, p, Writing(At(s, p).op, At(s, p).keys, temp)).(temps := s.temps[temp := None])
      else s
    case SyncTemp(p) =>
      if At(s, p).Writing?
      then Put(s, p, Synced(At(s, p).op, At(s, p).keys, At(s, p).temp))
             .(temps := s.temps[At(s, p).temp := Some(Perform(At(s, p).op, At(s, p).keys))])
      else s
    case Rename(p) =>
      if At(s, p).Synced? && At(s, p).temp in s.temps && s.temps[At(s, p).temp].Some?
      then Put(s, p, Finished).(data := s.temps[At(s, p).temp].value, temps := s.temps - {At(s, p).temp},
                                commits := s.commits + [Commit(At(s, p).op, s.ticket)])
      else s
    case SkipWrite(p) =>
      if At(s, p).Loaded? && At(s, p).op.DeleteKey? && At(s, p).op.ref !in At(s, p).keys then Put(s, p, Finished) else s
    case FailWrite(p) =>
      (match At(s, p)
       case WriteLocked(_) => Put(s, p, Finished)
       case Loaded(_, _) => Put(s, p, Finished)
       case Writing(_, _, temp) => Put(s, p, Finished).(temps := s.temps - {temp})
       case Synced(_, _, temp) => Put(s, p, Finished).(temps := s.temps - {temp})
       case _ => s)
    case Unlock(p) =>
      if At(s, p).Finished? || (At(s, p).Sweeping? && At(s, p).todo == {})
      then Put(s, p, Idle).(exclusive := None)
      else s
    case Kill(p) =>
      // The system drops the locks of a dead process and leaves its files.
      if Exclusive(At(s, p)) then Put(s, p, Idle).(exclusive := None)
      else Put(s, p, Idle).(shared := s.shared - {p})
  }

  function Run(s: State, steps: seq<Step>): State
    decreases |steps|
  {
    if steps == [] then s else Run(Next(s, steps[0]), steps[1..])
  }

  /** The document after the first operations of a commit history. */
  function Replay(initial: Keys, commits: seq<Commit>): Keys {
    if commits == [] then initial
    else Perform(commits[|commits| - 1].op, Replay(initial, commits[..|commits| - 1]))
  }

  // ----------------------------------------------------------------- invariant

  /** The locks are held by exactly the processes inside transactions. */
  ghost predicate LocksMatch(s: State) {
    && (forall p: nat {:trigger At(s, p)} :: Exclusive(At(s, p)) <==> s.exclusive == Some(p))
    && (forall p: nat {:trigger At(s, p)} :: Shared(At(s, p)) <==> p in s.shared)
    && (s.exclusive.Some? ==> s.shared == {})
  }

  /** What a process has read under its lock is what is there. */
  ghost predicate ReadsAreCurrent(s: State) {
    forall p: nat {:trigger At(s, p)} ::
      match At(s, p)
      case ReadDone(keys) => keys == s.data
      case Sweeping(todo) => todo <= s.temps.Keys <= todo + s.odd
      case Loaded(_, keys) => keys == s.data
      case Writing(_, keys, temp) => keys == s.data && temp in s.temps && temp !in s.odd
      case Synced(op, keys, temp) => keys == s.data && temp in s.temps && temp !in s.odd && s.temps[temp] == Some(Perform(op, keys))
      case _ => true
  }

  ghost predicate ReadsMatch(seen: seq<Seen>, commits: seq<Commit>, initial: Keys) {
    forall i {:trigger seen[i]} :: 0 <= i < |seen| ==>
      seen[i].upto <= |commits| && seen[i].keys == Replay(initial, commits[..seen[i].upto])
  }

  ghost predicate HistoryMatches(s: State, initial: Keys) {
    && s.data == Replay(initial, s.commits)
    && ReadsMatch(s.seen, s.commits, initial)
  }

  /** Commits are in the order in which their locks were granted. */
  ghost predicate InLockOrder(s: State) {
    && (forall i, j :: 0 <= i < j < |s.commits| ==> s.commits[i].ticket < s.commits[j].ticket)
    && (forall i {:trigger s.commits[i]} :: 0 <= i < |s.commits| ==> s.commits[i].ticket <= s.ticket)
    && (forall p: nat {:trigger At(s, p)} :: Exclusive(At(s, p)) && !At(s, p).Finished? ==>
          forall i {:trigger s.commits[i]} :: 0 <= i < |s.commits| ==> s.commits[i].ticket < s.ticket)
  }

  ghost predicate Consistent(s: State, initial: Keys) {
    LocksMatch(s) && ReadsAreCurrent(s) && HistoryMatches(s, initial) && InLockOrder(s)
  }

  // ------------------------------------------------------------- preservation

  lemma OwnLocksMatch(s: State, step: Step)
    requires LocksMatch(s)
    ensures var s', p := Next(s, step), step.p;
            && (Exclusive(At(s', p)) <==> s'.exclusive == Some(p)) && (Shared(At(s', p)) <==> p in s'.shared)
            && (s'.exclusive.Some? ==> s'.shared == {})
  {
    assert Exclusive(At(s, step.p)) <==> s.exclusive == Some(step.p);
    assert Shared(At(s, step.p)) <==> step.p in s.shared;
  }

  /** A step of one process moves no other and touches no other's lock. */
  lemma OthersStay(s: State, step: Step, p: nat)
    requires LocksMatch(s) && p != step.p
    ensures var s' := Next(s, step);
            At(s', p) == At(s, p) && (s'.exclusive == Some(p) <==> s.exclusive == Some(p)) && (p in s'.shared <==> p in s.shared)
  {
    assert Exclusive(At(s, step.p)) <==> s.exclusive == Some(step.p);
  }

  lemma NextKeepsLocks(s: State, step: Step)
    requires LocksMatch(s)
    ensures LocksMatch(Next(s, step))
  {
    var s' := Next(s, step);
    OwnLocksMatch(s, step);
    forall p: nat {:trigger At(s', p)}
      ensures Exclusive(At(s', p)) <==> s'.exclusive == Some(p)
      ensures Shared(At(s', p)) <==> p in s'.shared
    {
      if p != step.p {
        OthersStay(s, step, p);
        assert Exclusive(At(s, p)) <==> s.exclusive == Some(p);
        assert Shared(At(s, p)) <==> p in s.shared;
      }
    }
  }

  lemma NextKeepsReads(s: State, step: Step)
    requires LocksMatch(s) && ReadsAreCurrent(s)
    ensures ReadsAreCurrent(Next(s, step))
  {
    var s' := Next(s, step);
    assert Exclusive(At(s, step.p)) <==> s.exclusive == Some(step.p);
    forall p: nat {:trigger At(s', p)}
      ensures match At(s', p)
              case ReadDone(keys) => keys == s'.data
              case Sweeping(todo) => todo <= s'.temps.Keys <= todo + s'.odd
              case Loaded(_, keys) => keys == s'.data
              case Writing(_, keys, temp) => keys == s'.data && temp in s'.temps && temp !in s'.odd
              case Synced(op, keys, temp) =>
                keys == s'.data && temp in s'.temps && temp !in s'.odd && s'.temps[temp] == Some(Perform(op, keys))
              case _ => true
    {
      assert Exclusive(At(s, p)) <==> s.exclusive == Some(p);
      assert Shared(At(s, p)) <==> p in s.shared;
      if p != step.p { assert At(s', p) == At(s, p); }
    }
  }

  lemma CommitKeepsReads(seen: seq<Seen>, commits: seq<Commit>, initial: Keys, c: Commit)
    requires ReadsMatch(seen, commits, initial)
    ensures ReadsMatch(seen, commits + [c], initial)
  {
    forall i {:trigger seen[i]} | 0 <= i < |seen|
      ensures seen[i].upto <= |commits| && seen[i].keys == Replay(initial, (commits + [c])[..seen[i].upto])
    {
      assert (commits + [c])[..seen[i].upto] == commits[..seen[i].upto];
    }
  }

  lemma ReadIsKept(seen: seq<Seen>, commits: seq<Commit>, initial: Keys, keys: Keys)
    requires ReadsMatch(seen, commits, initial) && keys == Replay(initial, commits)
    ensures ReadsMatch(seen + [Seen(keys, |commits|)], commits, initial)
  {
    assert commits[..|commits|] == commits;
  }

  lemma NextKeepsHistory(s: State, step: Step, initial: Keys)
    requires ReadsAreCurrent(s) && HistoryMatches(s, initial)
    ensures HistoryMatches(Next(s, step), initial)
  {
    var ph := At(s, step.p);
    if step.Rename? && Next(s, step).commits != s.commits {
      var c := Commit(ph.op, s.ticket);
      CommitKeepsReads(s.seen, s.commits, initial, c);
      assert (s.commits + [c])[..|s.commits|] == s.commits;
      assert s.temps[ph.temp] == Some(Perform(ph.op, ph.keys));
    } else if step.UnlockShared? && ph.ReadDone? {
      ReadIsKept(s.seen, s.commits, initial, ph.keys);
    }
  }

  /** Every commit so far was made under an earlier lock than the present one. */
  ghost predicate AllBefore(commits: seq<Commit>, ticket: nat) {
    forall i {:trigger commits[i]} :: 0 <= i < |commits| ==> commits[i].ticket < ticket
  }

  lemma RenameKeepsOrder(s: State, p: nat)
    requires LocksMatch(s) && InLockOrder(s)
    requires At(s, p).Synced? && At(s, p).temp in s.temps && s.temps[At(s, p).temp].Some?
    ensures InLockOrder(Next(s, Rename(p)))
  {
    var s' := Next(s, Rename(p));
    assert AllBefore(s.commits, s.ticket) by { assert Exclusive(At(s, p)) && !At(s, p).Finished?; }
    assert s.exclusive == Some(p) by { assert Exclusive(At(s, p)) <==> s.exclusive == Some(p); }
    forall q: nat {:trigger At(s', q)} ensures !Exclusive(At(s', q)) || At(s', q).Finished? {
      assert Exclusive(At(s, q)) <==> s.exclusive == Some(q);
    }
  }

  lemma NextKeepsOrder(s: State, step: Step)
    requires LocksMatch(s) && InLockOrder(s)
    ensures InLockOrder(Next(s, step))
  {
    var s' := Next(s, step);
    if s'.commits != s.commits {
      RenameKeepsOrder(s, step.p);
    } else {
      assert s'.ticket >= s.ticket;
      forall q: nat {:trigger At(s', q)} | Exclusive(At(s', q)) && !At(s', q).Finished?
        ensures AllBefore(s'.commits, s'.ticket)
      {
        assert Exclusive(At(s, q)) <==> s.exclusive == Some(q);
        if s'.ticket == s.ticket { assert Exclusive(At(s, q)) && !At(s, q).Finished?; }
      }
    }
  }

  lemma NextStaysConsistent(s: State, step: Step, initial: Keys)
    requires Consistent(s, initial)
    ensures Consistent(Next(s, step), initial)
  {
    NextKeepsLocks(s, step);
    NextKeepsReads(s, step);
    NextKeepsHistory(s, step, initial);
    NextKeepsOrder(s, step);
  }

  /** However processes interleave and wherever they are killed, the document is
      the operations that reached their rename, applied in the order in which
      their locks were granted, and every read returned such a document. */
  lemma {:induction false} RunStaysConsistent(s: State, steps: seq<Step>, initial: Keys)
    requires Consistent(s, initial)
    ensures Consistent(Run(s, steps), initial)
    decreases |steps|
  {
    if steps != [] {
      NextStaysConsistent(s, steps[0], initial);
      RunStaysConsistent(Next(s, steps[0]), steps[1..], initial);
    }
  }

  function Fresh(keys: Keys, temps: map<nat, Option<Keys>>, odd: set<nat>): State {
    State(keys, temps, odd, None, {}, map[], 0, [], [])
  }

  /** A first process finds the document and whatever earlier crashes left. */
  lemma FreshIsConsistent(keys: Keys, temps: map<nat, Option<Keys>>, odd: set<nat>)
    ensures Consistent(Fresh(keys, temps, odd), keys)
  {
  }

  // --------------------------------------------------------------------- sweep

  predicate Owns(ph: Phase, temp: nat) { (ph.Writing? || ph.Synced?) && ph.temp == temp }

  /** A sweep removes no temporary file that a live writer will still rename:
      while anybody sweeps, nobody writes. */
  lemma SweepSparesLiveWriters(s: State, initial: Keys, steps: seq<Step>, sweeper: nat, temp: nat, writer: nat)
    requires Consistent(s, initial)
    requires At(Run(s, steps), sweeper).Sweeping? && temp in At(Run(s, steps), sweeper).todo
    ensures !Owns(At(Run(s, steps), writer), temp)
  {
    RunStaysConsistent(s, steps, initial);
    var end := Run(s, steps);
    assert Exclusive(At(end, sweeper)) <==> end.exclusive == Some(sweeper);
    assert Exclusive(At(end, writer)) <==> end.exclusive == Some(writer);
  }

  /** A writer that synced its file always finds it to rename, and the rename
      makes the document exactly its operation applied to what was there. */
  lemma RenameTakesEffect(s: State, initial: Keys, steps: seq<Step>, p: nat)
    requires Consistent(s, initial) && At(Run(s, steps), p).Synced?
    ensures var end := Run(s, steps);
            var end' := Next(end, Rename(p));
            && end'.data == Perform(At(end, p).op, end.data)
            && |end'.commits| == |end.commits| + 1
            && At(end, p).temp !in end'.temps
  {
    RunStaysConsistent(s, steps, initial);
  }

  /** A sweep that comes to its end leaves no temporary file but the odd ones. */
  lemma SweepLeavesOdd(s: State, initial: Keys, steps: seq<Step>, p: nat)
    requires Consistent(s, initial)
    requires At(Run(s, steps), p).Sweeping? && At(Run(s, steps), p).todo == {}
    ensures Run(s, steps).temps.Keys <= Run(s, steps).odd
  {
    RunStaysConsistent(s, steps, initial);
    var end := Run(s, steps);
    assert end.temps.Keys <= At(end, p).todo + end.odd;
  }

  lemma NextSparesOdd(s: State, step: Step, initial: Keys)
    requires Consistent(s, initial)
    ensures Next(s, step).odd == s.odd && s.temps.Keys * s.odd <= Next(s, step).temps.Keys
  {
    assert At(s, step.p).Synced? || At(s, step.p).Writing? ==> At(s, step.p).temp !in s.odd;
  }

  /** Nothing that any process does takes an odd one away. */
  lemma {:induction false} OddStay(s: State, initial: Keys, steps: seq<Step>)
    requires Consistent(s, initial)
    ensures Run(s, steps).odd == s.odd && s.temps.Keys * s.odd <= Run(s, steps).temps.Keys
    decreases |steps|
  {
    if steps != [] {
      NextSparesOdd(s, steps[0], initial);
      NextStaysConsistent(s, steps[0], initial);
      OddStay(Next(s, steps[0]), initial, steps[1..]);
    }
  }
}
