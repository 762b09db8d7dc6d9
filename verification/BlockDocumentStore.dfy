/**
 Saving one block document to its two files, and reading them back.
 */
module BlockDocumentStore {
  import opened Wrappers
  import opened LittleEndian
  import opened UpdateLog
  import opened BlockDocumentRuns

  class BlockDocument {
    /** The bytes of the snapshot file and of the updates file. */
    var snapshot: Option<seq<byte>>
    var updates: Option<seq<byte>>
    /** The open document, if any, and the version its files last matched. */
    var doc: Option<Ops>
    var savedVersion: Option<Ops>
    ghost var acknowledged: Ops
    const codec: Codec

    ghost function View(): State
      reads this
    {
      State(Disk(snapshot, updates), if doc.Some? then Open(doc.value, savedVersion) else Closed, acknowledged)
    }

    ghost predicate Valid()
      reads this
    {
      Lawful(codec) && Durable(codec, View())
    }

    constructor (codec: Codec)
      requires Lawful(codec)
      ensures Valid() && this.codec == codec && View() == State(Disk(None, None), Closed, {})
    {
      this.codec := codec;
      snapshot, updates, doc, savedVersion, acknowledged := None, None, None, None, {};
    }

    /** What is imported up to `offset` lacks only the records from there on. */
    ghost predicate Imported(appended: seq<byte>, offset: int, imported: Ops, base: Ops) {
      0 <= offset <= |appended| && imported + Scan(codec, appended, offset) == base + Scan(codec, appended, 0)
    }

    lemma ImportNext(appended: seq<byte>, offset: nat, imported: Ops, base: Ops, next: nat, record: Ops)
      requires Imported(appended, offset, imported, base) && offset + 4 <= |appended|
      requires next == offset + 4 + U32At(appended, offset) && next <= |appended|
      requires codec.decode(appended[offset + 4..next]) == Some(record)
      ensures Imported(appended, next, imported + record, base)
    {
      assert NextRecord(codec, appended, offset) == Some(next);
      assert Scan(codec, appended, offset) == record + Scan(codec, appended, next);
    }

    /** Imports the snapshot and then every complete appended record, stopping at
        one that is cut short or does not decode. */
    method ImportFiles() returns (ops: Option<Ops>)
      ensures ops == Recover(codec, Disk(snapshot, updates))
    {
      if snapshot.None? {
        return None;
      }
      var base := codec.decode(snapshot.value);
      if base.None? {
        return None;
      }
      if updates.None? {
        assert Scan(codec, [], 0) == {};
        assert base.value + {} == base.value;
        return base;
      }
      var appended := updates.value;
      var imported := base.value;
      var offset := 0;
      while offset + 4 <= |appended|
        invariant 0 <= offset <= |appended|
        invariant Imported(appended, offset, imported, base.value)
        decreases |appended| - offset
      {
        var length := U32At(appended, offset);
        var start := offset + 4;
        if start + length > |appended| {
          break;
        }
        var record := codec.decode(appended[start..start + length]);
        if record.None? {
          break;
        }
        ImportNext(appended, offset, imported, base.value, start + length, record.value);
        imported := imported + record.value;
        offset := start + length;
      }
      assert NextRecord(codec, appended, offset).None?;
      assert imported + {} == imported;
      ops := Some(imported);
    }

    /** Opens the document from its files, or as a new one if it has none. */
    method OpenFiles() returns (ok: bool)
      requires Valid()
      modifies this`doc, this`savedVersion
      ensures Valid()
      ensures View() == Next(codec, old(View()), OpenDocument)
      ensures ok <==> doc.Some?
    {
      if doc.Some? {
        return true;
      }
      if snapshot.None? {
        doc, savedVersion := Some({}), None;
        return true;
      }
      var ops := ImportFiles();
      if ops.None? {
        return false;
      }
      doc, savedVersion := ops, ops;
      ok := true;
    }

    method EditDocument(ops: Ops)
      requires Valid() && doc.Some?
      modifies this`doc
      ensures Valid() && View() == Next(codec, old(View()), Edit(ops))
    {
      StepStaysDurableIff(codec, View(), Edit(ops));
      doc := Some(doc.value + ops);
    }

    /** Writes the whole document and removes the updates it makes redundant. The
        write may break off after `cut` bytes. */
    method Save(removalFails: bool, cut: Option<nat>) returns (ok: bool)
      requires doc.Some?
      modifies this
      ensures View() == SaveOutcome(codec, old(View()), removalFails, cut)
      ensures !ok ==> acknowledged == old(acknowledged) && doc == old(doc)
    {
      var bytes := codec.encode(doc.value);
      if cut.Some? && cut.value <= |bytes| {
        snapshot := Some(bytes[..cut.value]);
        return false;
      }
      snapshot := Some(bytes);
      if !removalFails {
        updates := None;
      }
      savedVersion := doc;
      acknowledged := doc.value;
      ok := true;
    }

    /** Appends the changes since `since`: `None` when they cannot be framed or the
        write breaks off. */
    method AppendUpdates(since: Ops, torn: Option<nat>) returns (appended: Option<bool>)
      requires doc.Some?
      modifies this`updates
      ensures doc.value <= since ==> appended == Some(false)
      ensures !(doc.value <= since) && |codec.encode(doc.value - since)| >= U32_LIMIT ==> appended == None
      ensures appended == Some(false) || |codec.encode(doc.value - since)| >= U32_LIMIT ==> updates == old(updates)
      ensures !(doc.value <= since) && |codec.encode(doc.value - since)| < U32_LIMIT ==>
        var frame := Frame(codec.encode(doc.value - since));
        var tears := torn.Some? && torn.value < |frame|;
        && appended == (if tears then None else Some(true))
        && updates == Some(Log(Disk(snapshot, old(updates))) + (if tears then frame[..torn.value] else frame))
    {
      if doc.value <= since {
        return Some(false);
      }
      var record := codec.encode(doc.value - since);
      if |record| >= U32_LIMIT {
        return None;
      }
      var written := U32Bytes(|record|) + record;
      var file := if updates.Some? then updates.value else [];
      if torn.Some? && torn.value < |written| {
        updates := Some(file + written[..torn.value]);
        return None;
      }
      updates := Some(file + written);
      appended := Some(true);
    }

    /** Appends what changed since the last save, or falls back to a full save. The
        document stays recoverable exactly when the step is not a careless one. */
    method PersistIncrementally(removalFails: bool, torn: Option<nat>, cut: Option<nat>)
      requires Valid() && doc.Some? && TearsStay(codec, View(), SaveIncrementally(removalFails, torn, cut))
      modifies this
      ensures View() == IncrementalSave(codec, old(View()), removalFails, torn, cut)
      ensures Valid() <==> !old(Careless(codec, View(), SaveIncrementally(removalFails, torn, cut)))
    {
      StepStaysDurableIff(codec, View(), SaveIncrementally(removalFails, torn, cut));
      var size := if updates.Some? then |updates.value| else 0;
      if savedVersion.Some? && snapshot.Some? && size < UPDATES_COMPACTION_BYTES {
        var appended := AppendUpdates(savedVersion.value, torn);
        if appended.Some? {
          if appended.value {
            savedVersion := doc;
          }
          acknowledged := doc.value;
          return;
        }
      }
      var _ := Save(removalFails, cut);
    }
  }
}
