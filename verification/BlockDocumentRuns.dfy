/**
 One block document over its saves and crashes: what is on disk, what is open in
 memory, and what has been acknowledged as saved.
 */
module BlockDocumentRuns {
  import opened Wrappers
  import opened LittleEndian
  import opened UpdateLog

  const UPDATES_COMPACTION_BYTES := 4 * 1024 * 1024

  /** The snapshot file and the file of appended updates; `None` if not there. */
  datatype Disk = Disk(snapshot: Option<seq<byte>>, updates: Option<seq<byte>>)

  /** The open document, and the version its files were last known to hold. */
  datatype Memory = Closed | Open(doc: Ops, saved: Option<Ops>)

  /** `acked` is everything covered by a save that was acknowledged. */
  datatype State = State(disk: Disk, memory: Memory, acked: Ops)

  function Log(d: Disk): seq<byte> {
    match d.updates case None => [] case Some(log) => log
  }

  /** Reading both files: the snapshot must decode, the log is read as far as it goes. */
  function Recover(c: Codec, d: Disk): Option<Ops> {
    match d.snapshot
    case None => None
    case Some(bytes) =>
      (match c.decode(bytes)
       case None => None
       case Some(ops) => Some(ops + Scan(c, Log(d), 0)))
  }

  // --------------------------------------------------------------------- saves

  /** A full snapshot replaces the old one and takes the log with it, unless
      removing the log fails. */
  function FullSave(c: Codec, s: State, removalFails: bool): State
    requires s.memory.Open?
  {
    State(Disk(Some(c.encode(s.memory.doc)), if removalFails then s.disk.updates else None),
          s.memory.(saved := Some(s.memory.doc)), s.memory.doc)
  }

  /** A full save whose write fails after `cut` bytes, if it does: the old snapshot
      is gone, and the document stays open. */
  function SaveOutcome(c: Codec, s: State, removalFails: bool, cut: Option<nat>): State
    requires s.memory.Open?
  {
    if cut.Some? && cut.value <= |c.encode(s.memory.doc)|
    then s.(disk := s.disk.(snapshot := Some(c.encode(s.memory.doc)[..cut.value])))
    else FullSave(c, s, removalFails)
  }

  /** What an incremental save appends: everything since the saved version. */
  function Fresh(s: State): Ops
    requires s.memory.Open? && s.memory.saved.Some?
  {
    s.memory.doc - s.memory.saved.value
  }

  predicate CanAppend(s: State) {
    s.memory.Open? && s.memory.saved.Some? && s.disk.snapshot.Some? && |Log(s.disk)| < UPDATES_COMPACTION_BYTES
  }

  /** There is something to append, and it can be framed. */
  predicate HasAppend(c: Codec, s: State) {
    CanAppend(s) && !(s.memory.doc <= s.memory.saved.value) && |c.encode(Fresh(s))| < U32_LIMIT
  }

  /** What an append adds to the log: one frame, or the part of it that was written
      before the write failed. */
  function Tail(c: Codec, s: State, torn: Option<nat>): seq<byte>
    requires HasAppend(c, s)
  {
    var frame := Frame(c.encode(Fresh(s)));
    if torn.Some? && torn.value < |frame| then frame[..torn.value] else frame
  }

  predicate Tears(c: Codec, s: State, torn: Option<nat>)
    requires HasAppend(c, s)
  {
    torn.Some? && torn.value < |Frame(c.encode(Fresh(s)))|
  }

  function WithTail(c: Codec, s: State, torn: Option<nat>): State
    requires HasAppend(c, s)
  {
    s.(disk := s.disk.(updates := Some(Log(s.disk) + Tail(c, s, torn))))
  }

  /** Appends what is new, or, when it cannot or the append fails, writes a full
      snapshot. */
  function IncrementalSave(c: Codec, s: State, removalFails: bool, torn: Option<nat>, cut: Option<nat>): State
    requires s.memory.Open?
  {
    if HasAppend(c, s) then
      if Tears(c, s, torn) then SaveOutcome(c, WithTail(c, s, torn), removalFails, cut)
      else WithTail(c, s, torn).(memory := s.memory.(saved := Some(s.memory.doc)), acked := s.memory.doc)
    else if CanAppend(s) && s.memory.doc <= s.memory.saved.value then s.(acked := s.memory.doc)
    else SaveOutcome(c, s, removalFails, cut)
  }

  // --------------------------------------------------------------------- steps

  datatype Step =
    | OpenDocument
    | Edit(ops: Ops)
    | SaveFully(removalFails: bool, cut: Option<nat>)
    | SaveIncrementally(removalFails: bool, torn: Option<nat>, cut: Option<nat>)
    | Crash
    /** The append was cut after `k` bytes. */
    | CrashInAppend(k: nat)
    /** The snapshot is written, the log is still there. */
    | CrashBeforeRemoval
    /** The snapshot file was cut after `k` bytes. */
    | CrashInSnapshot(k: nat)

  function Next(c: Codec, s: State, step: Step): State {
    match step
    case OpenDocument =>
      if s.memory.Open? then s
      else if s.disk.snapshot.None? then s.(memory := Open({}, None))
      else
        (match Recover(c, s.disk)
         case None => s
         case Some(ops) => s.(memory := Open(ops, Some(ops))))
    case Edit(ops) => if s.memory.Open? then s.(memory := s.memory.(doc := s.memory.doc + ops)) else s
    case SaveFully(removalFails, cut) => if s.memory.Open? then SaveOutcome(c, s, removalFails, cut) else s
    case SaveIncrementally(removalFails, torn, cut) =>
      if s.memory.Open? then IncrementalSave(c, s, removalFails, torn, cut) else s
    case Crash => s.(memory := Closed)
    case CrashInAppend(k) =>
      if HasAppend(c, s) && Tears(c, s, Some(k)) then WithTail(c, s, Some(k)).(memory := Closed) else s.(memory := Closed)
    case CrashBeforeRemoval =>
      if s.memory.Open? then s.(disk := s.disk.(snapshot := Some(c.encode(s.memory.doc))), memory := Closed) else s
    case CrashInSnapshot(k) =>
      if s.memory.Open? && k <= |c.encode(s.memory.doc)|
      then s.(disk := s.disk.(snapshot := Some(c.encode(s.memory.doc)[..k])), memory := Closed)
      else s.(memory := Closed)
  }

  function Run(c: Codec, s: State, steps: seq<Step>): State
    decreases |steps|
  {
    if steps == [] then s else Run(c, Next(c, s, steps[0]), steps[1..])
  }

  // ----------------------------------------------------------------- invariant

  /** What reopening would find. */
  function Recovered(c: Codec, d: Disk): Ops {
    match Recover(c, d) case None => {} case Some(ops) => ops
  }

  ghost predicate Durable(c: Codec, s: State) {
    && (s.disk.snapshot.Some? ==> Recover(c, s.disk).Some?)
    && (s.disk.snapshot.None? ==> Log(s.disk) == [])
    && s.acked <= Recovered(c, s.disk)
    && (s.memory.Open? ==> Recovered(c, s.disk) <= s.memory.doc)
    && (s.memory.Open? && s.memory.saved.Some? ==> s.memory.saved.value <= Recovered(c, s.disk))
  }

  /** A snapshot is being replaced and its write breaks off before its end. */
  predicate CutsSnapshot(c: Codec, s: State, cut: Option<nat>)
    requires s.memory.Open?
  {
    cut.Some? && cut.value < |c.encode(s.memory.doc)|
  }

  /** The steps that break the promise: a record appended behind a torn tail, when it
      is not in the files anyway, and a snapshot written only in part. */
  predicate Careless(c: Codec, s: State, step: Step) {
    s.memory.Open? &&
    match step
    case SaveFully(_, cut) => CutsSnapshot(c, s, cut)
    case SaveIncrementally(_, torn, cut) =>
      if HasAppend(c, s) then
        if Tears(c, s, torn) then CutsSnapshot(c, s, cut)
        else !Whole(c, Log(s.disk)) && !(s.memory.doc <= Recovered(c, s.disk))
      else !(CanAppend(s) && s.memory.doc <= s.memory.saved.value) && CutsSnapshot(c, s, cut)
    case CrashInSnapshot(k) => k < |c.encode(s.memory.doc)|
    case _ => false
  }

  ghost predicate NeverCareless(c: Codec, s: State, steps: seq<Step>)
    decreases |steps|
  {
    steps != [] ==> !Careless(c, s, steps[0]) && NeverCareless(c, Next(c, s, steps[0]), steps[1..])
  }

  /** Nothing written behind a torn tail happens to complete it to a record. */
  predicate TearsStay(c: Codec, s: State, step: Step) {
    HasAppend(c, s) ==>
    match step
    case SaveIncrementally(_, torn, _) => Whole(c, Log(s.disk)) || StaysTorn(c, Log(s.disk), Tail(c, s, torn))
    case CrashInAppend(k) => Whole(c, Log(s.disk)) || StaysTorn(c, Log(s.disk), Tail(c, s, Some(k)))
    case _ => true
  }

  ghost predicate TearsStayAlong(c: Codec, s: State, steps: seq<Step>)
    decreases |steps|
  {
    steps == [] || (TearsStay(c, s, steps[0]) && TearsStayAlong(c, Next(c, s, steps[0]), steps[1..]))
  }

  ghost predicate AlwaysDurable(c: Codec, s: State, steps: seq<Step>)
    decreases |steps|
  {
    Durable(c, s) && (steps != [] ==> AlwaysDurable(c, Next(c, s, steps[0]), steps[1..]))
  }

  /** The files hold the whole document and nothing else. */
  lemma SnapshotIsDurable(c: Codec, s: State, doc: Ops, log: Option<seq<byte>>, memory: Memory, acked: Ops)
    requires Lawful(c) && Scan(c, Log(Disk(None, log)), 0) <= doc && acked <= doc
    requires memory.Open? ==> memory.doc == doc && (memory.saved.Some? ==> memory.saved.value <= doc)
    ensures Durable(c, State(Disk(Some(c.encode(doc)), log), memory, acked))
    ensures Recover(c, Disk(Some(c.encode(doc)), log)) == Some(doc)
  {
    assert c.decode(c.encode(doc)) == Some(doc);
    assert doc + Scan(c, Log(Disk(None, log)), 0) == doc;
  }

  lemma LogIsCovered(c: Codec, s: State)
    requires Durable(c, s) && s.memory.Open?
    ensures Scan(c, Log(s.disk), 0) <= s.memory.doc
  {
    if s.disk.snapshot.None? {
      assert Log(s.disk) == [];
    }
  }

  lemma FullSaveIsDurable(c: Codec, s: State, removalFails: bool)
    requires Lawful(c) && s.memory.Open? && Scan(c, Log(s.disk), 0) <= s.memory.doc
    ensures Durable(c, FullSave(c, s, removalFails))
    ensures Recovered(c, FullSave(c, s, removalFails).disk) == s.memory.doc
  {
    assert Scan(c, [], 0) == {};
    SnapshotIsDurable(c, s, s.memory.doc, FullSave(c, s, removalFails).disk.updates, FullSave(c, s, removalFails).memory, s.memory.doc);
  }

  /** A snapshot write keeps the promise exactly when nothing of it was cut. */
  lemma SnapshotWriteIff(c: Codec, s: State, k: nat, memory: Memory)
    requires Lawful(c) && s.memory.Open? && k <= |c.encode(s.memory.doc)|
    requires Scan(c, Log(s.disk), 0) <= s.memory.doc && s.acked <= s.memory.doc
    requires s.memory.saved.Some? ==> s.memory.saved.value <= s.memory.doc
    requires memory == s.memory || memory == Closed
    ensures var d := s.disk.(snapshot := Some(c.encode(s.memory.doc)[..k]));
            && (Durable(c, State(d, memory, s.acked)) <==> k == |c.encode(s.memory.doc)|)
            && (Recover(c, d).Some? <==> k == |c.encode(s.memory.doc)|)
  {
    var bytes := c.encode(s.memory.doc);
    if k < |bytes| {
      assert c.decode(bytes[..k]).None?;
    } else {
      assert bytes[..k] == bytes;
      SnapshotIsDurable(c, s, s.memory.doc, s.disk.updates, memory, s.acked);
    }
  }

  lemma SaveIsDurableIff(c: Codec, s: State, removalFails: bool, cut: Option<nat>)
    requires Lawful(c) && s.memory.Open? && Scan(c, Log(s.disk), 0) <= s.memory.doc && s.acked <= s.memory.doc
    requires s.memory.saved.Some? ==> s.memory.saved.value <= s.memory.doc
    ensures Durable(c, SaveOutcome(c, s, removalFails, cut)) <==> !CutsSnapshot(c, s, cut)
  {
    if cut.Some? && cut.value <= |c.encode(s.memory.doc)| {
      SnapshotWriteIff(c, s, cut.value, s.memory);
    } else {
      FullSaveIsDurable(c, s, removalFails);
    }
  }

  /** What an append leaves to be read. */
  lemma TailIsRead(c: Codec, s: State, torn: Option<nat>)
    requires Lawful(c) && HasAppend(c, s)
    requires Whole(c, Log(s.disk)) || StaysTorn(c, Log(s.disk), Tail(c, s, torn))
    ensures Scan(c, Log(WithTail(c, s, torn).disk), 0)
         == if Whole(c, Log(s.disk)) && !Tears(c, s, torn) then Scan(c, Log(s.disk), 0) + Fresh(s) else Scan(c, Log(s.disk), 0)
  {
    if !Whole(c, Log(s.disk)) {
      ScanStuck(c, Log(s.disk), Tail(c, s, torn), 0);
    } else if Tears(c, s, torn) {
      TornRecordIsIgnored(c, Log(s.disk), Fresh(s), torn.value);
    } else {
      WholeRecordIsRead(c, Log(s.disk), Fresh(s));
    }
  }

  lemma RecoverAfterAppend(c: Codec, d: Disk, newOps: Ops)
    requires Lawful(c) && Recover(c, d).Some? && Whole(c, Log(d)) && |c.encode(newOps)| < U32_LIMIT
    ensures var d' := d.(updates := Some(Log(d) + Frame(c.encode(newOps))));
            Recover(c, d') == Some(Recovered(c, d) + newOps) && Whole(c, Log(d'))
  {
    WholeRecordIsRead(c, Log(d), newOps);
    var base := c.decode(d.snapshot.value).value;
    assert base + (Scan(c, Log(d), 0) + newOps) == (base + Scan(c, Log(d), 0)) + newOps;
  }

  /** What reopening finds after an append. */
  lemma AppendRecovers(c: Codec, s: State, torn: Option<nat>)
    requires Lawful(c) && Durable(c, s) && HasAppend(c, s)
    requires Whole(c, Log(s.disk)) || StaysTorn(c, Log(s.disk), Tail(c, s, torn))
    ensures var d := WithTail(c, s, torn).disk;
            && Recover(c, d).Some? && Scan(c, Log(d), 0) <= s.memory.doc
            && Recovered(c, d) == if Whole(c, Log(s.disk)) && !Tears(c, s, torn) then s.memory.doc else Recovered(c, s.disk)
  {
    TailIsRead(c, s, torn);
    LogIsCovered(c, s);
    var base := c.decode(s.disk.snapshot.value).value;
    assert base + (Scan(c, Log(s.disk), 0) + Fresh(s)) == (base + Scan(c, Log(s.disk), 0)) + Fresh(s);
    assert Recovered(c, s.disk) + Fresh(s) == s.memory.doc;
  }

  lemma IncrementalSaveIsDurableIff(c: Codec, s: State, removalFails: bool, torn: Option<nat>, cut: Option<nat>)
    requires Lawful(c) && Durable(c, s) && s.memory.Open? && TearsStay(c, s, SaveIncrementally(removalFails, torn, cut))
    ensures Durable(c, IncrementalSave(c, s, removalFails, torn, cut)) <==> !Careless(c, s, SaveIncrementally(removalFails, torn, cut))
  {
    if HasAppend(c, s) {
      AppendRecovers(c, s, torn);
      if Tears(c, s, torn) { SaveIsDurableIff(c, WithTail(c, s, torn), removalFails, cut); }
    } else if !(CanAppend(s) && s.memory.doc <= s.memory.saved.value) {
      LogIsCovered(c, s);
      SaveIsDurableIff(c, s, removalFails, cut);
    }
  }

  lemma StepStaysDurableIff(c: Codec, s: State, step: Step)
    requires Lawful(c) && Durable(c, s) && TearsStay(c, s, step)
    ensures Durable(c, Next(c, s, step)) <==> !Careless(c, s, step)
  {
    if s.memory.Open? { LogIsCovered(c, s); }
    match step
    case SaveFully(removalFails, cut) => if s.memory.Open? { SaveIsDurableIff(c, s, removalFails, cut); }
    case SaveIncrementally(removalFails, torn, cut) =>
      if s.memory.Open? { IncrementalSaveIsDurableIff(c, s, removalFails, torn, cut); }
    case CrashInAppend(k) => if HasAppend(c, s) { AppendRecovers(c, s, Some(k)); }
    case CrashBeforeRemoval =>
      if s.memory.Open? { SnapshotIsDurable(c, s, s.memory.doc, s.disk.updates, Closed, s.acked); }
    case CrashInSnapshot(k) =>
      if s.memory.Open? && k <= |c.encode(s.memory.doc)| { SnapshotWriteIff(c, s, k, Closed); }
    case _ =>
  }

  /** Over any run of edits, saves, failing writes and crashes, reopening finds
      everything up to the last acknowledged save at every moment exactly when
      nothing new is appended behind a torn tail and no snapshot is written only in
      part. */
  lemma {:induction false} AcknowledgedSurvivesIff(c: Codec, s: State, steps: seq<Step>)
    requires Lawful(c) && Durable(c, s) && TearsStayAlong(c, s, steps)
    ensures AlwaysDurable(c, s, steps) <==> NeverCareless(c, s, steps)
    ensures NeverCareless(c, s, steps) ==> Run(c, s, steps).acked <= Recovered(c, Run(c, s, steps).disk)
    decreases |steps|
  {
    if steps != [] {
      StepStaysDurableIff(c, s, steps[0]);
      if !Careless(c, s, steps[0]) {
        AcknowledgedSurvivesIff(c, Next(c, s, steps[0]), steps[1..]);
      }
    }
  }

  // --------------------------------------------- the two edges of that promise

  /** Cutting the snapshot write keeps the document if and only if nothing of it
      was cut: the snapshot file is not replaced atomically. */
  lemma CutSnapshotIff(c: Codec, s: State, k: nat)
    requires Lawful(c) && Durable(c, s) && s.memory.Open? && k <= |c.encode(s.memory.doc)|
    ensures Recover(c, Next(c, s, CrashInSnapshot(k)).disk).Some? <==> k == |c.encode(s.memory.doc)|
  {
    LogIsCovered(c, s);
    SnapshotWriteIff(c, s, k, Closed);
  }

  /** A full save fails midway and the process lives on: whatever is edited and
      saved incrementally then is acknowledged, and reopening finds nothing; a full
      save that succeeds brings the whole document back. */
  lemma SavesOverCutSnapshotAreLost(c: Codec, s: State, k: nat, more: Ops)
    requires Lawful(c) && Durable(c, s) && s.memory.Open? && k < |c.encode(s.memory.doc)|
    ensures var cut := Next(c, s, SaveFully(false, Some(k)));
            var edited := Next(c, cut, Edit(more));
            var saved := Next(c, edited, SaveIncrementally(false, None, None));
            && cut.memory == s.memory && cut.acked == s.acked && Recover(c, cut.disk).None?
            && (HasAppend(c, edited) ==> saved.acked == s.memory.doc + more && Recover(c, saved.disk).None?)
            && Recovered(c, Next(c, saved, SaveFully(false, None)).disk) == s.memory.doc + more
  {
    LogIsCovered(c, s);
    SnapshotWriteIff(c, s, k, s.memory);
    var edited := Next(c, Next(c, s, SaveFully(false, Some(k))), Edit(more));
    var saved := Next(c, edited, SaveIncrementally(false, None, None));
    assert saved.memory.Open? && saved.memory.doc == s.memory.doc + more;
    assert Scan(c, [], 0) == {};
    SnapshotIsDurable(c, saved, saved.memory.doc, None, saved.memory.(saved := None), {});
  }

  /** An incremental save that has something to append puts it where the reader
      comes to it if and only if the log was whole. */
  lemma SavedRecordIsReachedIff(c: Codec, s: State)
    requires Lawful(c) && Durable(c, s) && HasAppend(c, s)
    ensures var log' := Log(IncrementalSave(c, s, false, None, None).disk);
            Reaches(c, log', 0, |Log(s.disk)|) <==> Whole(c, Log(s.disk))
  {
    AppendedIsReachedIff(c, Log(s.disk), Frame(c.encode(Fresh(s))), 0);
  }

  /** What an acknowledged incremental save promises, that reopening finds the whole
      document, holds exactly when the log was whole or the files had it all
      before; bytes that happen to complete a torn record aside. */
  lemma SavedIsRecoveredIff(c: Codec, s: State)
    requires Lawful(c) && Durable(c, s) && HasAppend(c, s)
    requires Whole(c, Log(s.disk)) || StaysTorn(c, Log(s.disk), Frame(c.encode(Fresh(s))))
    ensures var s' := IncrementalSave(c, s, false, None, None);
            && s'.acked == s.memory.doc
            && (s'.acked <= Recovered(c, s'.disk) <==> Whole(c, Log(s.disk)) || s.memory.doc <= Recovered(c, s.disk))
  {
    AppendRecovers(c, s, None);
  }

  /** Crash while appending `a`, reopen, append `b`, crash, reopen: the save of `b`
      was acknowledged, and `b` is not there. Stated for any codec whose record of
      `a` is not completed by the frame of `b`. */
  lemma AppendAfterTornTailIsLost(c: Codec, base: Ops, a: Ops, b: Ops, k: nat)
    requires Lawful(c) && base != {}
    requires |c.encode(a - base)| < U32_LIMIT && |c.encode(b - base)| < U32_LIMIT
    requires !(a <= base) && !(b <= base) && base <= a && base <= b
    requires 4 <= k < |Frame(c.encode(a - base))| && k < UPDATES_COMPACTION_BYTES
    requires |Frame(c.encode(b - base))| < |Frame(c.encode(a - base))| - k
    ensures var s := State(Disk(Some(c.encode(base)), None), Open(base, Some(base)), base);
            var steps := [Edit(a), CrashInAppend(k), OpenDocument, Edit(b), SaveIncrementally(false, None, None), Crash];
            && Durable(c, s)
            && Run(c, s, steps).acked == b
            && Recovered(c, Run(c, s, steps).disk) == base
            && !(b <= base)
  {
    var s0 := State(Disk(Some(c.encode(base)), None), Open(base, Some(base)), base);
    assert c.decode(c.encode(base)) == Some(base);
    var s1 := Next(c, s0, Edit(a));
    assert base + a == a;
    var frame := Frame(c.encode(a - base));
    var torn := frame[..k];
    var s2 := Next(c, s1, CrashInAppend(k));
    assert [] + torn == torn;
    TornRecordIsIgnored(c, [], a - base, k);
    assert Scan(c, [], 0) == {} && Scan(c, torn, 0) == {};
    assert s1 == State(Disk(Some(c.encode(base)), None), Open(a, Some(base)), base);
    assert Fresh(s1) == a - base && HasAppend(c, s1) && Tears(c, s1, Some(k));
    assert s2.disk == Disk(Some(c.encode(base)), Some(torn));
    assert base + {} == base;
    assert Recover(c, s2.disk) == Some(base);
    var s3 := Next(c, s2, OpenDocument);
    var s4 := Next(c, s3, Edit(b));
    assert base + b == b;
    var log := torn + Frame(c.encode(b - base));
    var s5 := Next(c, s4, SaveIncrementally(false, None, None));
    assert s5.disk.updates == Some(log);
    U32RoundTripIff(|c.encode(a - base)|);
    assert U32At(log, 0) == |c.encode(a - base)| by {
      assert log[0] == frame[0] && log[1] == frame[1] && log[2] == frame[2] && log[3] == frame[3];
      assert frame[0] == U32Bytes(|c.encode(a - base)|)[0] && frame[1] == U32Bytes(|c.encode(a - base)|)[1];
      assert frame[2] == U32Bytes(|c.encode(a - base)|)[2] && frame[3] == U32Bytes(|c.encode(a - base)|)[3];
    }
    assert NextRecord(c, log, 0).None?;
    var s6 := Next(c, s5, Crash);
    RunSix(c, s0, Edit(a), CrashInAppend(k), OpenDocument, Edit(b), SaveIncrementally(false, None, None), Crash);
  }

  lemma RunSix(c: Codec, s: State, p: Step, q: Step, r: Step, t: Step, u: Step, v: Step)
    ensures Run(c, s, [p, q, r, t, u, v])
         == Next(c, Next(c, Next(c, Next(c, Next(c, Next(c, s, p), q), r), t), u), v)
  {
    var steps := [p, q, r, t, u, v];
    assert steps[1..] == [q, r, t, u, v] && [q, r, t, u, v][1..] == [r, t, u, v];
    assert [r, t, u, v][1..] == [t, u, v] && [t, u, v][1..] == [u, v] && [u, v][1..] == [v] && [v][1..] == [];
    var s1 := Next(c, s, p);
    var s2 := Next(c, s1, q);
    var s3 := Next(c, s2, r);
    var s4 := Next(c, s3, t);
    var s5 := Next(c, s4, u);
    var s6 := Next(c, s5, v);
    assert Run(c, s6, []) == s6;
    assert Run(c, s5, [v]) == s6;
    assert Run(c, s4, [u, v]) == s6;
    assert Run(c, s3, [t, u, v]) == s6;
    assert Run(c, s2, [r, t, u, v]) == s6;
    assert Run(c, s1, [q, r, t, u, v]) == s6;
  }

  /** The saved version need not be recent: appending everything since any older
      version that the files already held recovers the same document. */
  lemma StaleVersionAppendsMore(c: Codec, d: Disk, doc: Ops, older: Ops, newer: Ops)
    requires Lawful(c) && Recover(c, d).Some? && Whole(c, Log(d))
    requires older <= newer <= Recovered(c, d) <= doc
    requires |c.encode(doc - older)| < U32_LIMIT && |c.encode(doc - newer)| < U32_LIMIT
    ensures Recover(c, d.(updates := Some(Log(d) + Frame(c.encode(doc - older)))))
         == Recover(c, d.(updates := Some(Log(d) + Frame(c.encode(doc - newer)))))
         == Some(doc)
    ensures doc - newer <= doc - older
  {
    RecoverAfterAppend(c, d, doc - older);
    RecoverAfterAppend(c, d, doc - newer);
    assert Recovered(c, d) + (doc - older) == doc;
    assert Recovered(c, d) + (doc - newer) == doc;
  }

  // --------------------------------------------------------- one codec with bytes

  /** Some bound above every operation. */
  ghost function Bound(ops: Ops): (m: nat)
    ensures forall n :: n in ops ==> n < m
  {
    if ops == {} then 0
    else
      var n :| n in ops;
      var rest := Bound(ops - {n});
      assert forall k :: k in ops ==> k == n || k in ops - {n};
      if n < rest then rest else n + 1
  }

  /** One byte an operation below the bound: whether it is there. */
  ghost function Flags(ops: Ops, m: nat): (flags: seq<byte>)
    ensures |flags| == m && forall i :: 0 <= i < m ==> flags[i] == if i in ops then 1 else 2
  {
    if m == 0 then [] else Flags(ops, m - 1) + [if m - 1 in ops then 1 else 2]
  }

  /** The flags, closed by a zero. */
  ghost function EncodeFlags(ops: Ops): seq<byte> { Flags(ops, Bound(ops)) + [0] }

  function DecodeFlags(bytes: seq<byte>): Option<Ops> {
    if bytes == [] || bytes[|bytes| - 1] != 0 then None else Some(set i | 0 <= i < |bytes| - 1 && bytes[i] == 1)
  }

  ghost function FlagCodec(): Codec { Codec(ops => EncodeFlags(ops), bytes => DecodeFlags(bytes)) }

  lemma FlagCodecIsLawful()
    ensures Lawful(FlagCodec())
  {
    var c := FlagCodec();
    forall ops {:trigger c.encode(ops)} ensures c.decode(c.encode(ops)) == Some(ops) {
      var bytes := EncodeFlags(ops);
      assert forall i :: 0 <= i < |bytes| - 1 ==> bytes[i] == Flags(ops, Bound(ops))[i];
      assert (set i | 0 <= i < |bytes| - 1 && bytes[i] == 1) == ops;
    }
    forall ops, k {:trigger c.encode(ops)[..k]} | 0 <= k < |c.encode(ops)| ensures c.decode(c.encode(ops)[..k]).None? {
      var bytes := EncodeFlags(ops);
      assert bytes == Flags(ops, Bound(ops)) + [0];
      if k > 0 { assert bytes[..k][k - 1] == Flags(ops, Bound(ops))[k - 1]; }
    }
  }

  lemma SingleHasLength(n: nat)
    ensures |EncodeFlags({n})| == n + 2
  {
    assert {n} - {n} == {} && Bound({}) == 0;
    assert Bound({n}) == n + 1;
  }

  /** Document `{0}` saved; saving `{0, 20}` is cut after the length of its record;
      reopened, `{0, 1}` is saved and acknowledged, and reopening finds `{0}`. */
  lemma TornTailExample()
    ensures var c := FlagCodec();
            var s := State(Disk(Some(c.encode({0})), None), Open({0}, Some({0})), {0});
            var steps := [Edit({0, 20}), CrashInAppend(4), OpenDocument, Edit({0, 1}), SaveIncrementally(false, None, None), Crash];
            && Lawful(c) && Durable(c, s)
            && Run(c, s, steps).acked == {0, 1} && Recovered(c, Run(c, s, steps).disk) == {0}
  {
    var c := FlagCodec();
    FlagCodecIsLawful();
    SingleHasLength(20);
    SingleHasLength(1);
    assert {0, 20} - {0} == {20} && {0, 1} - {0} == {1};
    AppendAfterTornTailIsLost(c, {0}, {0, 20}, {0, 1}, 4);
  }
}
