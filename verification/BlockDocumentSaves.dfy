/**
 What opening, saving and dying do to a block document, step by step: what ends up
 in which file, and what is then known to be saved.
 */
module BlockDocumentSaves {
  import opened Wrappers
  import opened LittleEndian
  import opened UpdateLog
  import opened BlockDocumentRuns

  /** Up to four megabytes of updates stand beside a snapshot. */
  predicate HasRoom(d: Disk) { d.updates.None? || |d.updates.value| < 4 * 1024 * 1024 }

  /** A full save that succeeds: the snapshot holds the document, and the updates are
      gone, unless they cannot be removed. */
  predicate SavedInFull(c: Codec, s: State, s': State, removalFails: bool)
    requires s.memory.Open?
  {
    && s'.disk.snapshot == Some(c.encode(s.memory.doc))
    && s'.disk.updates == (if removalFails then s.disk.updates else None)
    && s'.memory == Open(s.memory.doc, Some(s.memory.doc)) && s'.acked == s.memory.doc
  }

  lemma FullSaveComesTo(c: Codec, s: State, removalFails: bool)
    requires s.memory.Open?
    ensures SavedInFull(c, s, Next(c, s, SaveFully(removalFails, None)), removalFails)
  {
  }

  /** One that fails leaves what of the snapshot was written, be it all of it, and
      nothing is acknowledged. */
  lemma BrokenFullSaveComesTo(c: Codec, s: State, removalFails: bool, k: nat)
    requires s.memory.Open? && k <= |c.encode(s.memory.doc)|
    ensures var s' := Next(c, s, SaveFully(removalFails, Some(k)));
            && s'.disk == Disk(Some(c.encode(s.memory.doc)[..k]), s.disk.updates)
            && s'.memory == s.memory && s'.acked == s.acked
  {
  }

  /** What is new since the last save, behind its length in four bytes. */
  function NewRecord(c: Codec, doc: Ops, saved: Ops): seq<byte> {
    var record := c.encode(doc - saved);
    var n := |record|;
    [n % 256, n / 256 % 256, n / 65536 % 256, n / 16777216 % 256] + record
  }

  /** An incremental save of a document with a snapshot and room beside it appends
      what is new since the last save, if anything is, and counts it as saved; any
      other one saves in full. */
  lemma IncrementalSaveComesTo(c: Codec, s: State)
    requires s.memory.Open?
    ensures var s' := Next(c, s, SaveIncrementally(false, None, None));
      if s.disk.snapshot.Some? && s.memory.saved.Some? && HasRoom(s.disk) then
        if s.memory.doc <= s.memory.saved.value then
          s'.disk == s.disk && s'.memory == s.memory && s'.acked == s.memory.doc
        else if |c.encode(s.memory.doc - s.memory.saved.value)| < 0x1_0000_0000 then
          && s'.disk.snapshot == s.disk.snapshot
          && s'.disk.updates
               == Some((if s.disk.updates.Some? then s.disk.updates.value else []) + NewRecord(c, s.memory.doc, s.memory.saved.value))
          && s'.memory == Open(s.memory.doc, Some(s.memory.doc)) && s'.acked == s.memory.doc
        else SavedInFull(c, s, s', false)
      else SavedInFull(c, s, s', false)
  {
  }

  /** An append that breaks off leaves a part of the record, and the document is then
      saved in full. */
  lemma BrokenAppendComesTo(c: Codec, s: State, torn: nat)
    requires s.memory.Open? && s.disk.snapshot.Some? && s.memory.saved.Some? && HasRoom(s.disk)
    requires !(s.memory.doc <= s.memory.saved.value) && |c.encode(s.memory.doc - s.memory.saved.value)| < 0x1_0000_0000
    requires torn < |NewRecord(c, s.memory.doc, s.memory.saved.value)|
    ensures SavedInFull(c, s, Next(c, s, SaveIncrementally(false, Some(torn), None)), false)
    ensures var log := if s.disk.updates.Some? then s.disk.updates.value else [];
            Next(c, s, CrashInAppend(torn)).disk
              == Disk(s.disk.snapshot, Some(log + NewRecord(c, s.memory.doc, s.memory.saved.value)[..torn]))
  {
    assert NewRecord(c, s.memory.doc, s.memory.saved.value) == Frame(c.encode(Fresh(s)));
  }

  /** Nothing is written twice: saving again at once writes nothing, unless the log has
      come to four megabytes, and then the log goes. */
  lemma SavingAgainWritesNothing(c: Codec, s: State)
    requires s.memory.Open?
    ensures var once := Next(c, s, SaveIncrementally(false, None, None));
            var twice := Next(c, once, SaveIncrementally(false, None, None));
            && twice.acked == once.acked && twice.memory == once.memory
            && (if HasRoom(once.disk) then twice.disk == once.disk else twice.disk.updates == None)
  {
    IncrementalSaveComesTo(c, s);
    var once := Next(c, s, SaveIncrementally(false, None, None));
    IncrementalSaveComesTo(c, once);
  }

  /** Whatever dies, nothing is left in memory, and what was acknowledged stays so; the
      files stay, but for the write that was under way. */
  lemma DyingForgets(c: Codec, s: State, step: Step)
    requires step.Crash? || step.CrashInAppend? || step.CrashBeforeRemoval? || step.CrashInSnapshot?
    ensures var s' := Next(c, s, step);
            && s'.memory == Closed && s'.acked == s.acked
            && (step.Crash? ==> s'.disk == s.disk)
            && (step.CrashInAppend? ==> s'.disk.snapshot == s.disk.snapshot)
            && (step.CrashInSnapshot? || step.CrashBeforeRemoval? ==> s'.disk.updates == s.disk.updates)
            && (step.CrashBeforeRemoval? && s.memory.Open? ==> s'.disk.snapshot == Some(c.encode(s.memory.doc)))
            && (step.CrashInSnapshot? && s.memory.Open? && step.k <= |c.encode(s.memory.doc)| ==>
                  s'.disk.snapshot == Some(c.encode(s.memory.doc)[..step.k]))
  {
  }

  /** Opening without files starts an empty document that is not saved; opening a
      snapshot that decodes gives it with the updates that are read behind it; one
      that does not decode is not opened. An open document stays as it is. */
  lemma OpeningComesTo(c: Codec, s: State)
    ensures var s' := Next(c, s, OpenDocument);
            && s'.disk == s.disk && s'.acked == s.acked
            && (s.memory.Open? ==> s' == s)
            && (s.memory.Closed? && s.disk.snapshot.None? ==> s'.memory == Open({}, None))
            && (s.memory.Closed? && s.disk.snapshot.Some? ==>
                  var base := c.decode(s.disk.snapshot.value);
                  if base.None? then s'.memory == Closed
                  else
                    var ops := base.value + Scan(c, if s.disk.updates.Some? then s.disk.updates.value else [], 0);
                    s'.memory == Open(ops, Some(ops)))
  {
  }

  /** An edit changes only what is in memory. */
  lemma EditingComesTo(c: Codec, s: State, ops: Ops)
    ensures var s' := Next(c, s, Edit(ops));
            && s'.disk == s.disk && s'.acked == s.acked
            && s'.memory == if s.memory.Open? then Open(s.memory.doc + ops, s.memory.saved) else Closed
  {
  }
}
