/**
 Exporting and importing topics against a database and a cache of documents.

 A cached document is changed in place while its transaction still may fail; a
 failed transaction therefore drops the whole cache.
 */
module LibrarySyncStore {
  import opened Wrappers
  import opened LoroMap
  import opened TopicFacts
  import opened LibrarySync
  import opened LibraryRuns
  import opened LibraryOutcomes
  import L = LibraryFacts

  const DOC_CACHE_LIMIT := 64

  class TopicSync {
    /** What the last committed transaction left in the database. */
    var db: Device
    var cache: map<string, TopicDoc>
    ghost const origins: Origins

    constructor (db: Device, ghost origins: Origins)
      requires InSync(db, origins)
      ensures Valid() && this.db == db && this.origins == origins
    {
      this.db := db;
      this.origins := origins;
      cache := map[];
    }

    /** Rows and documents are in line, and a cached document is the stored one. */
    ghost predicate Valid()
      reads this
    {
      InSync(db, origins) && CacheMatches(db)
    }

    ghost predicate CacheMatches(d: Device)
      reads this
    {
      forall id {:trigger cache[id]} :: id in cache ==> cache[id] == DocOf(d, id)
    }

    /** Keeps at most `DOC_CACHE_LIMIT` documents, giving up some other one. */
    method CachePut(id: string, doc: TopicDoc)
      modifies this`cache
      ensures id in cache && cache[id] == doc
      ensures forall other :: other in cache && other != id ==> other in old(cache) && cache[other] == old(cache)[other]
      ensures |old(cache)| <= DOC_CACHE_LIMIT ==> |cache| <= DOC_CACHE_LIMIT
    {
      if |cache| >= DOC_CACHE_LIMIT && id !in cache {
        if cache.Keys != {} {
          var evict :| evict in cache.Keys;
          var smaller := cache - {evict};
          assert smaller.Keys == cache.Keys - {evict};
          cache := smaller;
        }
      }
      var larger := cache[id := doc];
      assert larger.Keys == cache.Keys + {id};
      cache := larger;
    }

    /** The cached document, or the stored one, or a new one. */
    method FactDoc(tx: Device, id: string) returns (doc: TopicDoc)
      requires CacheMatches(tx)
      modifies this`cache
      ensures doc == DocOf(tx, id) && id in cache && cache[id] == doc
      ensures CacheMatches(tx)
    {
      if id in cache {
        return cache[id];
      }
      doc := if id in tx.topicDocs then tx.topicDocs[id] else {};
      CachePut(id, doc);
    }

    /** The body of an export, inside a transaction that is not committed yet. */
    method ExportInto(tx: Device, id: string) returns (tx': Device)
      requires WellStamped(DocOf(tx, id)) && CacheMatches(tx)
      modifies this`cache
      ensures tx' == ExportTopic(tx, id)
      ensures CacheMatches(tx')
    {
      tx' := tx.(pending := tx.pending - {TopicScope(id)});
      if id in tx.internal || id !in tx.topics {
        return;
      }
      var doc := FactDoc(tx, id);
      var written := Put(doc, Cells(tx.topics[id]), Stamp(tx.clock, tx.peer));
      tx' := tx'.(topicDocs := tx'.topicDocs[id := written], clock := tx'.clock + 1);
      CacheUpdated(tx, tx', id, written);
    }

    /** Changes a cached document in place, together with the transaction's copy. */
    method CacheUpdated(tx: Device, tx': Device, id: string, doc: TopicDoc)
      requires CacheMatches(tx) && tx'.topicDocs == tx.topicDocs[id := doc]
      modifies this`cache
      ensures CacheMatches(tx')
    {
      cache := cache[id := doc];
    }

    /** One pump step: commits, or leaves the database as it was. */
    method Export(id: string, fails: bool) returns (ok: bool)
      requires Valid()
      modifies this
      ensures Valid() && ok == !fails
      ensures db == if fails then old(db) else ExportTopic(old(db), id)
    {
      ExportTopicKeepsSync(db, origins, id);
      DocOfIsSound(db, origins, id);
      var tx := ExportInto(db, id);
      if fails {
        cache := map[];
        return false;
      }
      db := tx;
      ok := true;
    }

    /** What is queued, written into the document of this transaction. */
    method Prepare(id: string) returns (tx: Device)
      requires WellStamped(DocOf(db, id)) && CacheMatches(db)
      modifies this`cache
      ensures tx == BeforeMerge(db, id) && CacheMatches(tx)
    {
      tx := db;
      if TopicScope(id) in tx.pending {
        tx := ExportInto(tx, id);
      }
    }

    /** Joins a remote update: writes what is queued, merges, applies the merged
        document to the rows, takes in the recordings that waited for the topic,
        and commits all of it or nothing. */
    method Apply(id: string, update: TopicDoc, upto: nat, protect: bool, sessions: seq<string>, fails: bool)
      returns (changed: Result<bool, ()>)
      requires Valid()
      requires Admissible(db, origins, SImportTopic(id, update, upto, protect, sessions))
      modifies this
      ensures CacheMatches(db)
      ensures Valid() <==> fails || !old(TakesProfile(db, id, update, protect))
      ensures changed.Ok? <==> !fails
      ensures db == if fails then old(db) else ImportTopicAndWaiting(old(db), id, update, upto, protect, sessions)
      ensures changed.Ok? ==> (changed.value <==> Merged(old(db), id, update) != DocOf(BeforeMerge(old(db), id), id))
      ensures !fails && TopicArrives(old(db), id, update) ==>
        RowsFollow(old(db), db, id, ReadTopic(Merged(old(db), id, update)).value, protect)
    {
      if TopicArrives(db, id, update) { ImportedWithWaitingFollows(db, id, update, upto, protect, sessions); }
      TakeKeepsSyncIff(db, origins, SImportTopic(id, update, upto, protect, sessions));
      ImportTopicSparesLibraryDoc(db, id, update, upto, protect);
      DocOfIsSound(db, origins, id);
      var tx := Prepare(id);
      var doc := FactDoc(tx, id);
      var merged := doc + update;
      cache := cache[id := merged];
      if fails {
        cache := map[];
        return Err(());
      }
      if merged == doc {
        db := tx;
        return Ok(false);
      }
      var next, arrived := MaterializeTopic(tx, id, merged, upto, protect);
      assert next == ImportTopic(db, id, update, upto, protect);
      if arrived {
        next := TakeIn(next, sessions);
      }
      db := next;
      changed := Ok(true);
    }

    /** Applies the stored documents of recordings once more. */
    method TakeIn(tx: Device, sessions: seq<string>) returns (next: Device)
      requires CacheMatches(tx) && WellStamped(tx.libraryDoc)
      ensures next == Rematerialize(tx, sessions) && CacheMatches(next)
    {
      next := tx;
      var i := 0;
      assert sessions[0..] == sessions;
      while i < |sessions|
        invariant 0 <= i <= |sessions| && next.libraryDoc == tx.libraryDoc && next.topicDocs == tx.topicDocs
        invariant Rematerialize(next, sessions[i..]) == Rematerialize(tx, sessions)
      {
        assert sessions[i..][1..] == sessions[i + 1..];
        if sessions[i] in next.recordingDocs {
          MaterializedIs(next, sessions[i], next.recordingDocs[sessions[i]]);
          next := MaterializeRecording(next, sessions[i], next.recordingDocs[sessions[i]]);
        }
        i := i + 1;
      }
    }

    /** Brings one recording's rows into line with its document. */
    method MaterializeRecording(tx: Device, session: string, facts: Option<RecordingFacts>) returns (next: Device)
      requires WellStamped(tx.libraryDoc)
      ensures next == Materialize(tx, session, facts)
    {
      var tombstone: Cell<L.LibraryRow> := Get(tx.libraryDoc, L.PurgedKey(session));
      if tombstone.Row? || facts.None? || session in tx.purging {
        return tx;
      }
      var topic := facts.value.topic;
      var parked := topic.Some? && !NotebookHere(tx, topic.value);
      var speakers := WithSpeakers(tx, session, facts.value);
      var library := tx.library;
      if tx.libraryDoc != {} {
        var there := L.ReadRows(tx.libraryDoc);
        library := L.ApplySessionLinks(library, speakers, there, session);
      }
      next := tx.(recordings := tx.recordings[session := if parked then None else topic],
                  waiting := if parked then tx.waiting[session := topic.value] else tx.waiting - {session},
                  speakers := speakers, library := library,
                  pending := (if library != tx.library then tx.pending + {LibraryScope} else tx.pending) - {RecordingScope(session)});
    }

    /** Saves the merged document and, once its notebook row is there, brings the
        rows into line with it. */
    method MaterializeTopic(tx: Device, id: string, merged: TopicDoc, upto: nat, protect: bool) returns (next: Device, arrived: bool)
      requires WellStamped(merged)
      requires id in cache && cache[id] == merged
      requires forall other {:trigger cache[other]} :: other in cache && other != id ==> cache[other] == DocOf(tx, other)
      ensures CacheMatches(next) && arrived == ReadTopic(merged).Some?
      ensures next == match ReadTopic(merged)
                      case None => Saved(tx, id, merged, upto)
                      case Some(t) => Applied(Saved(tx, id, merged, upto), id, t, protect)
    {
      next := tx.(topicDocs := tx.topicDocs[id := merged], clock := Max(tx.clock, upto));
      var read := ReadRows(merged);
      arrived := read.Some?;
      if arrived {
        var local := Local(next, id);
        var kept := Protected(local, read.value, protect);
        var cleared := next.pending - {TopicScope(id)};
        next := next.(topics := next.topics[id := TopicFacts.ApplyTopic(local, kept)],
                      pending := if kept != read.value then cleared + {TopicScope(id)} else cleared);
      }
    }
  }
}
