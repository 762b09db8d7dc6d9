/**
 One device of a synchronised library: its tables, its documents and the queue
 of changes that its documents do not have yet, moved together by the steps
 that commit them.

 Triggers put every local change of a topic or of the library into the queue in
 the same transaction as the change.
 */
module LibrarySync {
  import opened Wrappers
  import opened LoroMap
  import opened TopicFacts
  import L = LibraryFacts

  datatype Scope = TopicScope(id: string) | LibraryScope | RecordingScope(session: string)

  /** What a recording's document says of where it belongs and who speaks in it. */
  datatype RecordingFacts = RecordingFacts(topic: Option<string>, speakers: set<string>)

  /** `internal` are the notebooks each device has for itself, never exchanged.
      `speakers` maps a speaker to the recording it belongs to. `recordings` maps
      a recording to its topic, and one that is unfiled to none; its document may
      not be readable yet. `waiting` are recordings that arrived before their
      topic, `purging` those with an open deletion job. */
  datatype Device = Device(
    internal: set<string>, peer: nat, clock: nat, pending: set<Scope>,
    topics: map<string, Topic>, topicDocs: map<string, TopicDoc>,
    library: L.Library, speakers: map<string, string>, libraryDoc: L.LibraryDoc,
    recordings: map<string, Option<string>>, recordingDocs: map<string, Option<RecordingFacts>>,
    waiting: map<string, string>, capturing: set<string>, purging: set<string>)

  ghost function DocOf(d: Device, id: string): TopicDoc {
    if id in d.topicDocs then d.topicDocs[id] else {}
  }

  function Max(a: nat, b: nat): nat { if a >= b then a else b }

  // ------------------------------------------------------------------ export

  /** Writes a topic's rows into its document and takes it off the queue. A
      notebook of this device's own is only taken off the queue. */
  ghost function ExportTopic(d: Device, id: string): Device {
    var sent := d.(pending := d.pending - {TopicScope(id)});
    if id in d.internal || id !in d.topics then sent
    else sent.(topicDocs := d.topicDocs[id := WriteTopic(DocOf(d, id), d.topics[id], Stamp(d.clock, d.peer))],
               clock := d.clock + 1)
  }

  ghost function ExportLibrary(d: Device): Device {
    d.(pending := d.pending - {LibraryScope},
       libraryDoc := L.WriteLibrary(d.libraryDoc, d.library, d.speakers.Keys, Stamp(d.clock, d.peer)),
       clock := d.clock + 1)
  }

  /** Neither being captured nor being deleted for good. */
  predicate Exportable(d: Device, session: string) {
    session !in d.capturing && session !in d.purging
  }

  /** A recording that waits for its topic counts as being there already. */
  function FactsOf(d: Device, session: string): RecordingFacts
    requires session in d.recordings
  {
    var topic := if session in d.waiting then Some(d.waiting[session]) else d.recordings[session];
    RecordingFacts(if topic.Some? && topic.value in d.internal then None else topic,
                   set s | s in d.speakers && d.speakers[s] == session)
  }

  /** A recording that is gone leaves a tombstone, if it was ever exchanged; one
      that is still being captured or deleted stays queued. */
  ghost function ExportRecording(d: Device, session: string, at: string): Device {
    var sent := d.(pending := d.pending - {RecordingScope(session)});
    if !Exportable(d, session) then d
    else if session in d.recordings then
      sent.(recordingDocs := d.recordingDocs[session := Some(FactsOf(d, session))])
    else if session in d.recordingDocs then
      sent.(recordingDocs := d.recordingDocs - {session},
            libraryDoc := L.AddTombstone(d.libraryDoc, session, at, Stamp(d.clock, d.peer)), clock := d.clock + 1)
    else sent
  }

  // ------------------------------------------------------------------ import

  /** The owner of a shared topic keeps its own deletion time. */
  function Protected(local: Option<Topic>, t: Topic, protect: bool): Topic {
    if protect && local.Some? && t.notebook.deletedAt != local.value.notebook.deletedAt
    then t.(notebook := t.notebook.(deletedAt := local.value.notebook.deletedAt))
    else t
  }

  function Local(d: Device, id: string): Option<Topic> {
    if id in d.topics then Some(d.topics[id]) else None
  }

  /** What is queued is written into the document before a remote update joins it. */
  ghost function BeforeMerge(d: Device, id: string): Device {
    if TopicScope(id) in d.pending then ExportTopic(d, id) else d
  }

  ghost function Merged(d: Device, id: string, update: TopicDoc): TopicDoc {
    DocOf(BeforeMerge(d, id), id) + update
  }

  function Saved(d: Device, id: string, doc: TopicDoc, upto: nat): Device {
    d.(topicDocs := d.topicDocs[id := doc], clock := Max(d.clock, upto))
  }

  /** The rows follow what the document reads as; a deletion time that was kept is
      queued, so that the document gets it back. */
  function Applied(d: Device, id: string, t: Topic, protect: bool): Device {
    var kept := Protected(Local(d, id), t, protect);
    var cleared := d.pending - {TopicScope(id)};
    d.(topics := d.topics[id := ApplyTopic(Local(d, id), kept)],
       pending := if kept != t then cleared + {TopicScope(id)} else cleared)
  }

  ghost function ImportTopic(d: Device, id: string, update: TopicDoc, upto: nat, protect: bool): Device {
    var ready := BeforeMerge(d, id);
    var doc := Merged(d, id, update);
    if doc == DocOf(ready, id) then ready
    else
      match ReadTopic(doc)
      case None => Saved(ready, id, doc, upto)
      case Some(t) => Applied(Saved(ready, id, doc, upto), id, t, protect)
  }

  ghost function ReadyLibrary(d: Device): Device {
    if LibraryScope in d.pending then ExportLibrary(d) else d
  }

  ghost function Joined(d: Device, doc: L.LibraryDoc, upto: nat): Device {
    d.(libraryDoc := doc, clock := Max(d.clock, upto), pending := d.pending - {LibraryScope},
       library := L.ApplyLibrary(d.library, d.speakers.Keys, L.ReadLibrary(doc)))
  }

  ghost function ImportLibrary(d: Device, update: L.LibraryDoc, upto: nat): Device {
    var ready := ReadyLibrary(d);
    var doc := ready.libraryDoc + update;
    if doc == ready.libraryDoc then ready else Joined(ready, doc, upto)
  }

  predicate NotebookHere(d: Device, id: string) {
    id in d.topics && d.topics[id].notebook.deletedAt.None?
  }

  /** A document with a tombstone, one that cannot be read yet and one whose
      recording is being deleted here bring nothing. */
  ghost predicate Brings(d: Device, session: string, facts: Option<RecordingFacts>) {
    !L.Tombstoned(d.libraryDoc, session) && facts.Some? && session !in d.purging
  }

  function WithSpeakers(d: Device, session: string, facts: RecordingFacts): map<string, string> {
    (map s | s in facts.speakers && s !in d.speakers :: session) + d.speakers
  }

  /** The links of a recording's speakers come from the library document, if there is one. */
  ghost function Relinked(d: Device, session: string, facts: RecordingFacts): L.Library {
    if d.libraryDoc == {} then d.library
    else L.ApplySessionLinks(d.library, WithSpeakers(d, session, facts), L.ReadLibrary(d.libraryDoc), session)
  }

  /** Brings the rows of a recording into line with its document: parked, if its
      topic has not arrived. */
  ghost function Materialize(d: Device, session: string, facts: Option<RecordingFacts>): Device {
    if !Brings(d, session, facts) then d
    else
      var topic := facts.value.topic;
      var parked := topic.Some? && !NotebookHere(d, topic.value);
      var linked := Relinked(d, session, facts.value);
      d.(recordings := d.recordings[session := if parked then None else topic],
         waiting := if parked then d.waiting[session := topic.value] else d.waiting - {session},
         speakers := WithSpeakers(d, session, facts.value), library := linked,
         pending := (if linked != d.library then d.pending + {LibraryScope} else d.pending) - {RecordingScope(session)})
  }

  ghost function ReadyRecording(d: Device, session: string, at: string): Device {
    if RecordingScope(session) in d.pending then ExportRecording(d, session, at) else d
  }

  /** `facts` is what the merged document reads as; an update that brings nothing
      new does no more than the export in front of it. */
  ghost function ImportRecording(d: Device, session: string, facts: Option<RecordingFacts>, at: string): Device {
    var next := Materialize(ReadyRecording(d, session, at), session, facts);
    next.(recordingDocs := next.recordingDocs[session := facts])
  }

  /** The stored documents of recordings, applied once more. */
  ghost function Rematerialize(d: Device, sessions: seq<string>): Device
    decreases |sessions|
  {
    if sessions == [] then d
    else
      var next := if sessions[0] in d.recordingDocs then Materialize(d, sessions[0], d.recordingDocs[sessions[0]]) else d;
      Rematerialize(next, sessions[1..])
  }

  /** The rows of a topic follow its document. */
  ghost predicate TopicArrives(d: Device, id: string, update: TopicDoc) {
    Merged(d, id, update) != DocOf(BeforeMerge(d, id), id) && ReadTopic(Merged(d, id, update)).Some?
  }

  /** A topic that arrives takes in the recordings that waited for it. */
  ghost function ImportTopicAndWaiting(d: Device, id: string, update: TopicDoc, upto: nat, protect: bool,
                                       sessions: seq<string>): Device {
    var next := ImportTopic(d, id, update, upto, protect);
    if TopicArrives(d, id, update) then Rematerialize(next, sessions) else next
  }

  // -------------------------------------------------------------- local edits

  ghost function EditTopic(d: Device, id: string, t: Topic): Device {
    d.(topics := d.topics[id := t], pending := d.pending + {TopicScope(id)})
  }

  ghost function EditLibrary(d: Device, library: L.Library): Device {
    d.(library := library, pending := d.pending + {LibraryScope})
  }

  function Record(d: Device, session: string, topic: Option<string>): Device {
    d.(recordings := d.recordings[session := topic], capturing := d.capturing + {session},
       pending := d.pending + {RecordingScope(session)})
  }

  function FinishCapture(d: Device, session: string): Device {
    d.(capturing := d.capturing - {session}, pending := d.pending + {RecordingScope(session)})
  }

  function EditRecording(d: Device, session: string, topic: Option<string>): Device
    requires session in d.recordings
  {
    d.(recordings := d.recordings[session := topic], pending := d.pending + {RecordingScope(session)})
  }

  function AddSpeaker(d: Device, speaker: string, session: string): Device {
    d.(speakers := d.speakers[speaker := session], pending := d.pending + {RecordingScope(session)})
  }

  /** Deleting a recording for good is a job of several transactions: the first
      one records it, a later one deletes the rows, the last one closes it. */
  function BeginPurge(d: Device, session: string): Device {
    d.(purging := d.purging + {session})
  }

  /** The rows of a recording take its speakers, and so their links, along. That
      it waited for a topic is not forgotten. */
  function PurgeRows(d: Device, session: string): Device {
    var speakers := map s | s in d.speakers && d.speakers[s] != session :: d.speakers[s];
    d.(recordings := d.recordings - {session},
       pending := if session in d.recordings then d.pending + {RecordingScope(session)} else d.pending,
       speakers := speakers,
       library := d.library.(links := map s | s in d.library.links && s in speakers :: d.library.links[s]))
  }

  function EndPurge(d: Device, session: string): Device {
    d.(purging := d.purging - {session})
  }

  /** A recording deleted here because its tombstone arrived has no document left. */
  function Forget(d: Device, session: string): Device {
    d.(recordingDocs := d.recordingDocs - {session}, pending := d.pending - {RecordingScope(session)})
  }

  // -------------------------------------------------------------- invariants

  /** Every topic's immutable part, named once for all devices. */
  type Origins = string -> Origin

  ghost predicate GoodDoc(doc: TopicDoc, clock: nat, origin: Origin) {
    WellStamped(doc) && StampedBelow(doc, clock) && WellFormed(doc, origin)
  }

  lemma GoodDocLater(doc: TopicDoc, clock: nat, later: nat, origin: Origin)
    requires GoodDoc(doc, clock, origin) && clock <= later
    ensures GoodDoc(doc, later, origin)
  {
  }

  ghost predicate LibraryDocSound(d: Device) {
    WellStamped(d.libraryDoc) && StampedBelow(d.libraryDoc, d.clock) && L.WellFormedLibrary(d.libraryDoc)
  }

  ghost predicate DocsSound(d: Device, origins: Origins) {
    && (forall id {:trigger d.topicDocs[id]} :: id in d.topicDocs ==>
          id !in d.internal && GoodDoc(d.topicDocs[id], d.clock, origins(id)))
    && LibraryDocSound(d)
  }

  ghost predicate TablesSound(d: Device, origins: Origins) {
    && (forall id {:trigger d.topics[id]} :: id in d.topics && id !in d.internal ==> Original(d.topics[id], origins(id)))
    && L.ReferencesHold(d.library, d.speakers.Keys)
  }

  /** No document has a tab its topic's rows lack. */
  ghost predicate TabsKnown(d: Device) {
    forall id {:trigger d.topicDocs[id]} :: id in d.topicDocs && id in d.topics ==>
      TabIds(d.topicDocs[id]) <= d.topics[id].tabs.Keys
  }

  /** A document that can be read has rows. */
  ghost predicate HasRows(d: Device, id: string) {
    ReadTopic(DocOf(d, id)).Some? ==> id in d.topics
  }

  ghost predicate DocsHaveRows(d: Device) {
    forall id {:trigger d.topicDocs[id]} :: id in d.topicDocs ==> HasRows(d, id)
  }

  ghost predicate HasDoc(d: Device, id: string) { ReadTopic(DocOf(d, id)).Some? }

  /** What is not queued has been written. */
  ghost predicate RowsHaveDocs(d: Device) {
    forall id {:trigger d.topics[id]} :: id in d.topics && id !in d.internal && TopicScope(id) !in d.pending ==> HasDoc(d, id)
  }

  /** What every step keeps, whether or not rows and documents read the same. */
  ghost predicate Sound(d: Device, origins: Origins) {
    DocsSound(d, origins) && TablesSound(d, origins) && TabsKnown(d) && DocsHaveRows(d) && RowsHaveDocs(d)
  }

  /** The rows and the document of a topic read the same. */
  ghost predicate TopicAgrees(d: Device, id: string) {
    id in d.topics && ReadTopic(DocOf(d, id)) == Some(d.topics[id])
  }

  ghost predicate TopicsAgree(d: Device) {
    forall id {:trigger d.topics[id]} :: id in d.topics && id !in d.internal && TopicScope(id) !in d.pending ==> TopicAgrees(d, id)
  }

  /** The tables show what of the library document can be shown here. */
  ghost predicate LibraryAgrees(d: Device) {
    d.library == L.Shown(L.ReadLibrary(d.libraryDoc), d.speakers.Keys)
  }

  ghost predicate InSync(d: Device, origins: Origins) {
    Sound(d, origins) && TopicsAgree(d) && (LibraryScope !in d.pending ==> LibraryAgrees(d))
  }

  // --------------------------------------------------------- export, one step

  lemma DocOfIsSound(d: Device, origins: Origins, id: string)
    requires DocsSound(d, origins)
    ensures GoodDoc(DocOf(d, id), d.clock, origins(id))
  {
    if id in d.topicDocs { assert GoodDoc(d.topicDocs[id], d.clock, origins(id)); }
  }

  /** A topic's rows written into its document: what the document then is. */
  lemma WrittenTopic(d: Device, origins: Origins, id: string)
    requires Sound(d, origins) && id in d.topics && id !in d.internal
    ensures var doc, doc' := DocOf(d, id), WriteTopic(DocOf(d, id), d.topics[id], Stamp(d.clock, d.peer));
            && GoodDoc(doc', d.clock + 1, origins(id))
            && ReadTopic(doc') == Some(d.topics[id]) && TabIds(doc') == d.topics[id].tabs.Keys && doc <= doc'
  {
    var doc, t, stamp := DocOf(d, id), d.topics[id], Stamp(d.clock, d.peer);
    DocOfIsSound(d, origins, id);
    ReadAfterWrite(doc, Cells(t), stamp, NotebookKey);
    WriteStaysWellFormed(doc, t, stamp, origins(id));
    ReadAfterWriteTopic(doc, t, stamp, origins(id));
    TabIdsAfterWrite(doc, t, stamp);
    if id in d.topicDocs { assert d.topicDocs[id] == doc; }
  }

  lemma ExportedDocIsSound(d: Device, origins: Origins, id: string, other: string)
    requires Sound(d, origins) && id in d.topics && id !in d.internal && other in ExportTopic(d, id).topicDocs
    ensures var d' := ExportTopic(d, id);
            && other !in d'.internal && GoodDoc(d'.topicDocs[other], d'.clock, origins(other))
            && (other in d'.topics ==> TabIds(d'.topicDocs[other]) <= d'.topics[other].tabs.Keys)
  {
    if other == id {
      WrittenTopic(d, origins, id);
    } else {
      GoodDocLater(d.topicDocs[other], d.clock, ExportTopic(d, id).clock, origins(other));
    }
  }

  lemma ExportedDocsAreSound(d: Device, origins: Origins, id: string)
    requires Sound(d, origins) && id in d.topics && id !in d.internal
    ensures DocsSound(ExportTopic(d, id), origins)
  {
    var d' := ExportTopic(d, id);
    assert d'.libraryDoc == d.libraryDoc && d'.clock == d.clock + 1;
    LibraryStampedLater(d.libraryDoc, d.clock, d'.clock);
    forall other {:trigger d'.topicDocs[other]} | other in d'.topicDocs
      ensures other !in d'.internal && GoodDoc(d'.topicDocs[other], d'.clock, origins(other))
    {
      ExportedDocIsSound(d, origins, id, other);
    }
  }

  lemma LibraryStampedLater(doc: L.LibraryDoc, clock: nat, later: nat)
    requires StampedBelow(doc, clock) && clock <= later
    ensures StampedBelow(doc, later)
  {
  }

  lemma ExportedTabsAreKnown(d: Device, origins: Origins, id: string)
    requires Sound(d, origins) && id in d.topics && id !in d.internal
    ensures TabsKnown(ExportTopic(d, id))
  {
    var d' := ExportTopic(d, id);
    forall other {:trigger d'.topicDocs[other]} | other in d'.topicDocs && other in d'.topics
      ensures TabIds(d'.topicDocs[other]) <= d'.topics[other].tabs.Keys
    {
      ExportedDocIsSound(d, origins, id, other);
    }
  }

  lemma ExportedDocsHaveRows(d: Device, id: string)
    requires DocsHaveRows(d)
    ensures DocsHaveRows(ExportTopic(d, id))
  {
    var d' := ExportTopic(d, id);
    if id in d.internal || id !in d.topics {
      SameDocsHaveRows(d, d');
    } else {
      assert HasRows(d', id);
      ExportedElsewhere(d, id);
      OtherDocsHaveRows(d, d', id);
    }
  }

  /** Two devices that may differ in one topic, its document and its place in the queue. */
  ghost predicate SameElsewhereThan(d: Device, d': Device, id: string) {
    && d'.topics - {id} == d.topics - {id} && d'.topicDocs - {id} == d.topicDocs - {id}
    && d'.library == d.library && d'.speakers == d.speakers && d'.libraryDoc == d.libraryDoc && d'.internal == d.internal
    && d'.recordings == d.recordings && d'.recordingDocs == d.recordingDocs && d'.waiting == d.waiting
    && d'.capturing == d.capturing && d'.purging == d.purging
    && d'.clock >= d.clock && d'.pending + {TopicScope(id)} == d.pending + {TopicScope(id)}
  }

  lemma ExportedElsewhere(d: Device, id: string)
    ensures var d' := ExportTopic(d, id);
            SameElsewhereThan(d, d', id) && d'.topics == d.topics && d'.pending == d.pending - {TopicScope(id)}
  {
    if id in d.topics && id !in d.internal {
      UpdatedElsewhere(d.topicDocs, id, ExportTopic(d, id).topicDocs[id]);
    }
  }

  /** After an export a topic's rows and its document read the same. */
  lemma ExportTopicAgrees(d: Device, origins: Origins, id: string)
    requires Sound(d, origins)
    ensures var d' := ExportTopic(d, id);
            && DocsSound(d', origins) && TabsKnown(d')
            && (id in d.topics && id !in d.internal ==> TopicAgrees(d', id))
            && DocOf(d, id) <= DocOf(d', id)
  {
    if id in d.topics && id !in d.internal {
      WrittenTopic(d, origins, id);
      ExportedDocsAreSound(d, origins, id);
      ExportedTabsAreKnown(d, origins, id);
    }
  }

  lemma OtherTopicStillAgrees(d: Device, id: string, other: string)
    requires TopicsAgree(d) && other != id
    requires other in d.topics && other !in d.internal && TopicScope(other) !in ExportTopic(d, id).pending
    ensures TopicAgrees(ExportTopic(d, id), other)
  {
    assert d.topics[other] == ExportTopic(d, id).topics[other];
    ExportedElsewhere(d, id);
    SameElsewhere(d.topicDocs, ExportTopic(d, id).topicDocs, id, other);
    StillAgrees(d, ExportTopic(d, id), other);
  }

  lemma StillAgrees(d: Device, d': Device, id: string)
    requires TopicAgrees(d, id) && DocOf(d', id) == DocOf(d, id)
    requires id in d'.topics && d'.topics[id] == d.topics[id]
    ensures TopicAgrees(d', id)
  {
  }

  lemma StillHasDoc(d: Device, d': Device, id: string)
    requires HasDoc(d, id) && DocOf(d', id) == DocOf(d, id)
    ensures HasDoc(d', id)
  {
  }

  lemma ExportedRowsHaveDocs(d: Device, origins: Origins, id: string)
    requires Sound(d, origins)
    ensures RowsHaveDocs(ExportTopic(d, id))
  {
    ExportTopicAgrees(d, origins, id);
    ExportedElsewhere(d, id);
    var d' := ExportTopic(d, id);
    forall other {:trigger d'.topics[other]} | other in d'.topics && other !in d'.internal && TopicScope(other) !in d'.pending
      ensures HasDoc(d', other)
    {
      assert d'.topics[other] == d.topics[other];
      if other != id {
        SameElsewhere(d.topicDocs, d'.topicDocs, id, other);
        StillHasDoc(d, d', other);
      }
    }
  }

  lemma ExportedTopicsAgree(d: Device, id: string, d': Device)
    requires TopicsAgree(d) && d' == ExportTopic(d, id)
    requires id in d.topics && id !in d.internal ==> TopicAgrees(d', id)
    ensures TopicsAgree(d')
  {
    ExportedElsewhere(d, id);
    forall other {:trigger d'.topics[other]} | other in d'.topics && other !in d'.internal && TopicScope(other) !in d'.pending
      ensures TopicAgrees(d', other)
    {
      if other != id { OtherTopicStillAgrees(d, id, other); }
    }
  }

  lemma ExportTopicStaysSound(d: Device, origins: Origins, id: string)
    requires Sound(d, origins)
    ensures Sound(ExportTopic(d, id), origins)
  {
    ExportTopicAgrees(d, origins, id);
    ExportedDocsHaveRows(d, id);
    ExportedRowsHaveDocs(d, origins, id);
  }

  lemma ExportTopicKeepsSync(d: Device, origins: Origins, id: string)
    requires Sound(d, origins)
    ensures Sound(ExportTopic(d, id), origins) && (InSync(d, origins) ==> InSync(ExportTopic(d, id), origins))
  {
    ExportTopicStaysSound(d, origins, id);
    if InSync(d, origins) {
      ExportTopicAgrees(d, origins, id);
      ExportedElsewhere(d, id);
      ExportedTopicsAgree(d, id, ExportTopic(d, id));
    }
  }

  lemma LibraryWritten(d: Device)
    requires LibraryDocSound(d)
    ensures LibraryDocSound(ExportLibrary(d)) && d.libraryDoc <= ExportLibrary(d).libraryDoc
  {
    var stamp := Stamp(d.clock, d.peer);
    L.WriteLibraryStaysWellFormed(d.libraryDoc, d.library, d.speakers.Keys, stamp);
    ReadAfterWrite(d.libraryDoc, L.LibraryCells(L.ReadLibrary(d.libraryDoc), d.library, d.speakers.Keys), stamp, L.PurgedKey(""));
  }

  lemma ExportLibraryKeepsSync(d: Device, origins: Origins)
    requires Sound(d, origins)
    ensures Sound(ExportLibrary(d), origins) && LibraryAgrees(ExportLibrary(d))
    ensures InSync(d, origins) ==> InSync(ExportLibrary(d), origins)
  {
    L.ReadAfterWriteLibrary(d.libraryDoc, d.library, d.speakers.Keys, Stamp(d.clock, d.peer));
    LibraryWritten(d);
    OthersUntouched(d, ExportLibrary(d), origins);
  }

  lemma SameDocsHaveRows(d: Device, d': Device)
    requires DocsHaveRows(d) && d'.topics == d.topics && d'.topicDocs == d.topicDocs
    ensures DocsHaveRows(d')
  {
    forall id {:trigger d'.topicDocs[id]} | id in d'.topicDocs ensures HasRows(d', id) {
      assert d.topicDocs[id] == DocOf(d, id);
      assert HasRows(d, id);
    }
  }

  /** Steps that leave topics alone leave them sound and in agreement. */
  lemma OthersUntouched(d: Device, d': Device, origins: Origins)
    requires Sound(d, origins) && d'.clock >= d.clock
    requires d'.topics == d.topics && d'.topicDocs == d.topicDocs && d'.internal == d.internal
    requires forall id :: TopicScope(id) in d.pending <==> TopicScope(id) in d'.pending
    requires LibraryDocSound(d')
    ensures DocsSound(d', origins) && TabsKnown(d') && DocsHaveRows(d') && RowsHaveDocs(d')
    ensures TopicsAgree(d) <==> TopicsAgree(d')
  {
    SameDocsHaveRows(d, d');
    forall id {:trigger d'.topicDocs[id]} | id in d'.topicDocs
      ensures id !in d'.internal && GoodDoc(d'.topicDocs[id], d'.clock, origins(id))
    {
      GoodDocLater(d.topicDocs[id], d.clock, d'.clock, origins(id));
    }
    SameRowsHaveDocs(d, d');
    if TopicsAgree(d) { SameTopicsAgree(d, d'); }
    if TopicsAgree(d') { SameTopicsAgree(d', d); }
  }

  lemma SameRowsHaveDocs(d: Device, d': Device)
    requires RowsHaveDocs(d) && d'.topics == d.topics && d'.topicDocs == d.topicDocs && d'.internal == d.internal
    requires forall id :: TopicScope(id) in d.pending <==> TopicScope(id) in d'.pending
    ensures RowsHaveDocs(d')
  {
    forall id {:trigger d'.topics[id]} | id in d'.topics && id !in d'.internal && TopicScope(id) !in d'.pending
      ensures HasDoc(d', id)
    {
      assert d.topics[id] == d'.topics[id];
      StillHasDoc(d, d', id);
    }
  }

  lemma SameTopicsAgree(d: Device, d': Device)
    requires TopicsAgree(d) && d'.topics == d.topics && d'.topicDocs == d.topicDocs && d'.internal == d.internal
    requires forall id :: TopicScope(id) in d.pending <==> TopicScope(id) in d'.pending
    ensures TopicsAgree(d')
  {
    forall id {:trigger d'.topics[id]} | id in d'.topics && id !in d'.internal && TopicScope(id) !in d'.pending
      ensures TopicAgrees(d', id)
    {
      assert d.topics[id] == d'.topics[id];
      StillAgrees(d, d', id);
    }
  }

  // --------------------------------------------------------- import, one step

  /** What any exchange may bring: writes of well-behaved devices, whose stamps
      name them. */
  ghost predicate Mergeable(d: Device, origins: Origins, id: string, update: TopicDoc, upto: nat) {
    && id !in d.internal
    && WellStamped(Merged(d, id, update)) && StampedBelow(update, upto) && WellFormed(update, origins(id))
  }

  /** The merge does not take away a profile that this device has. */
  ghost predicate KeepsProfile(d: Device, id: string, update: TopicDoc) {
    var merged := ReadTopic(Merged(d, id, update));
    merged.Some? && id in d.topics && merged.value.profile.None? ==> d.topics[id].profile.None?
  }

  /** Whatever this device had not exported yet is in the merged document: every
      cell of its rows is there as a write of its own. */
  lemma UnsentEditsSurvive(d: Device, origins: Origins, id: string, update: TopicDoc, key: TopicKey)
    requires DocsSound(d, origins) && TopicScope(id) in d.pending && id in d.topics && id !in d.internal
    requires key in Cells(d.topics[id])
    ensures exists op :: op in Merged(d, id, update) && op.key == key && op.cell == Cells(d.topics[id])[key]
  {
    DocOfIsSound(d, origins, id);
    WrittenCellsAreOps(DocOf(d, id), Cells(d.topics[id]), Stamp(d.clock, d.peer), key);
    var op :| op in WriteTopic(DocOf(d, id), d.topics[id], Stamp(d.clock, d.peer))
           && op.key == key && op.cell == Cells(d.topics[id])[key];
    assert op in Merged(d, id, update);
  }

  /** What an export of the library would write. */
  ghost function Unsent(d: Device): map<L.LibraryKey, Cell<L.LibraryRow>> {
    L.LibraryCells(L.ReadLibrary(d.libraryDoc), d.library, d.speakers.Keys)
  }

  /** A write of a key that no merge takes away. */
  ghost predicate Wrote(doc: L.LibraryDoc, key: L.LibraryKey, cell: Cell<L.LibraryRow>) {
    exists op :: op in doc && op.key == key && op.cell == cell
  }

  lemma LibraryCellIsWritten(d: Device, update: L.LibraryDoc, key: L.LibraryKey)
    requires WellStamped(d.libraryDoc) && LibraryScope in d.pending
    requires key in Unsent(d)
    ensures Wrote(ReadyLibrary(d).libraryDoc + update, key, Unsent(d)[key])
  {
    var there := L.ReadLibrary(d.libraryDoc);
    var cells := L.LibraryCells(there, d.library, d.speakers.Keys);
    var written := L.WriteLibrary(d.libraryDoc, d.library, d.speakers.Keys, Stamp(d.clock, d.peer));
    assert cells[key] == L.CellFor(there, d.library, d.speakers.Keys, key).value;
    if cells[key] == Absent {
      L.ReadLibraryIs(d.libraryDoc);
      assert Op(key, Stamp(d.clock, d.peer), cells[key]) in written;
    } else {
      WrittenCellsAreOps(d.libraryDoc, cells, Stamp(d.clock, d.peer), key);
    }
    var op :| op in written && op.key == key && op.cell == cells[key];
    assert op in ReadyLibrary(d).libraryDoc + update;
  }

  /** An import that leaves the rows a profile which the document has no longer,
      with nothing queued. */
  ghost predicate TakesProfile(d: Device, id: string, update: TopicDoc, protect: bool) {
    && TopicArrives(d, id, update) && !KeepsProfile(d, id, update)
    && Protected(Local(d, id), ReadTopic(Merged(d, id, update)).value, protect) == ReadTopic(Merged(d, id, update)).value
  }

  /** What this device had not exported yet of its people and links is in the
      merged library as writes of its own: those it has, those it deleted, and
      the links it cut. */
  lemma UnsentLibraryEditsSurvive(d: Device, update: L.LibraryDoc)
    requires WellStamped(d.libraryDoc) && LibraryScope in d.pending
    ensures var merged, there, people := ReadyLibrary(d).libraryDoc + update, L.ReadLibrary(d.libraryDoc), d.library.participants;
            && (forall id :: id in people ==> Wrote(merged, L.ParticipantKey(id), Row(L.Text(people[id]))))
            && (forall id :: id in there.participants && id !in people ==> Wrote(merged, L.ParticipantKey(id), Absent))
            && (forall s :: s in d.library.links ==> Wrote(merged, L.LinkKey(s), Row(L.LinkRow(d.library.links[s]))))
            && (forall s :: s in there.links && s !in d.library.links && L.Applicable(people, d.speakers.Keys, s, there.links[s]) ==>
                  Wrote(merged, L.LinkKey(s), Absent))
  {
    var there := L.ReadLibrary(d.libraryDoc);
    forall id | id in d.library.participants || id in there.participants
      ensures Wrote(ReadyLibrary(d).libraryDoc + update, L.ParticipantKey(id),
                    if id in d.library.participants then Row(L.Text(d.library.participants[id])) else Absent)
    {
      PersonKeyIsWritten(there, d.library, d.speakers.Keys, id);
      LibraryCellIsWritten(d, update, L.ParticipantKey(id));
    }
    forall s | s in d.library.links || (s in there.links && L.Applicable(d.library.participants, d.speakers.Keys, s, there.links[s]))
      ensures Wrote(ReadyLibrary(d).libraryDoc + update, L.LinkKey(s),
                    if s in d.library.links then Row(L.LinkRow(d.library.links[s])) else Absent)
    {
      LinkKeyIsWritten(there, d.library, d.speakers.Keys, s);
      LibraryCellIsWritten(d, update, L.LinkKey(s));
    }
  }

  lemma PersonKeyIsWritten(there: L.Library, tables: L.Library, speakers: set<string>, id: string)
    requires id in tables.participants || id in there.participants
    ensures var cells := L.LibraryCells(there, tables, speakers);
            && L.ParticipantKey(id) in cells
            && cells[L.ParticipantKey(id)] == if id in tables.participants then Row(L.Text(tables.participants[id])) else Absent
  {
    assert L.ParticipantKey(id) in L.KeysOf(there, tables);
  }

  lemma LinkKeyIsWritten(there: L.Library, tables: L.Library, speakers: set<string>, s: string)
    requires s in tables.links || (s in there.links && L.Applicable(tables.participants, speakers, s, there.links[s]))
    ensures var cells := L.LibraryCells(there, tables, speakers);
            L.LinkKey(s) in cells && cells[L.LinkKey(s)] == if s in tables.links then Row(L.LinkRow(tables.links[s])) else Absent
  {
    assert L.LinkKey(s) in L.KeysOf(there, tables);
  }

  lemma MergedTabs(doc: TopicDoc, update: TopicDoc)
    ensures TabIds(doc + update) == TabIds(doc) + TabIds(update)
  {
    forall tab | tab in TabIds(doc + update) ensures tab in TabIds(doc) + TabIds(update) {
      var op :| op in doc + update && op.key == TabKey(tab);
      assert op in doc || op in update;
    }
    forall tab | tab in TabIds(doc) + TabIds(update) ensures tab in TabIds(doc + update) {
      if tab in TabIds(update) {
        var op :| op in update && op.key == TabKey(tab);
        assert op in doc + update;
      } else {
        var op :| op in doc && op.key == TabKey(tab);
        assert op in doc + update;
      }
    }
  }

  /** A merge never makes a document that reads unreadable. */
  lemma MergedStillReads(doc: TopicDoc, update: TopicDoc, origin: Origin)
    requires WellStamped(doc + update) && WellFormed(doc, origin) && WellFormed(update, origin) && ReadTopic(doc).Some?
    ensures ReadTopic(doc + update).Some?
  {
    forall op | op in doc ensures op in doc + update {}
    assert WellStamped(doc);
    ReadTopicIs(doc, origin);
    var op :| op in doc && op.key == NotebookKey;
    assert op in doc + update;
    forall op {:trigger op in doc + update} | op in doc + update ensures op in doc || op in update {}
    ReadTopicIs(doc + update, origin);
  }

  lemma ReadyIs(d: Device, id: string)
    ensures var ready := BeforeMerge(d, id);
            && ready.topics == d.topics && ready.library == d.library && ready.speakers == d.speakers && ready.internal == d.internal
            && ready.libraryDoc == d.libraryDoc && ready.pending == d.pending - {TopicScope(id)} && ready.clock >= d.clock
  {
    ExportedElsewhere(d, id);
  }

  lemma ReadyIsSound(d: Device, origins: Origins, id: string)
    requires Sound(d, origins) && id !in d.internal
    ensures Sound(BeforeMerge(d, id), origins)
    ensures id in d.topics ==> HasDoc(BeforeMerge(d, id), id)
  {
    var ready := BeforeMerge(d, id);
    ReadyIs(d, id);
    ExportTopicKeepsSync(d, origins, id);
    if id in d.topics { assert ready.topics[id] == d.topics[id]; }
  }

  lemma MergedIsSound(d: Device, origins: Origins, id: string, update: TopicDoc, upto: nat)
    requires Sound(d, origins) && Mergeable(d, origins, id, update, upto)
    ensures var doc := Merged(d, id, update);
            var ready := BeforeMerge(d, id);
            && Sound(ready, origins)
            && GoodDoc(doc, Max(ready.clock, upto), origins(id))
            && TabIds(doc) == TabIds(DocOf(ready, id)) + TabIds(update)
            && ready.topics == d.topics && ready.library == d.library && ready.speakers == d.speakers && ready.internal == d.internal
            && ready.libraryDoc == d.libraryDoc && ready.pending == d.pending - {TopicScope(id)} && ready.clock >= d.clock
            && (id in d.topics ==> HasDoc(ready, id) && ReadTopic(doc).Some?)
  {
    var ready := BeforeMerge(d, id);
    ReadyIs(d, id);
    ReadyIsSound(d, origins, id);
    DocOfIsSound(ready, origins, id);
    MergedTabs(DocOf(ready, id), update);
    if id in d.topics { MergedStillReads(DocOf(ready, id), update, origins(id)); }
  }

  /** A device in sync knows no tab that the merged document lacks. */
  lemma MergedAgrees(d: Device, origins: Origins, id: string, update: TopicDoc, upto: nat)
    requires InSync(d, origins) && Mergeable(d, origins, id, update, upto)
    ensures InSync(BeforeMerge(d, id), origins)
    ensures id in d.topics ==> d.topics[id].tabs.Keys <= TabIds(Merged(d, id, update))
  {
    var ready := BeforeMerge(d, id);
    MergedIsSound(d, origins, id, update, upto);
    ExportTopicKeepsSync(d, origins, id);
    ExportTopicAgrees(d, origins, id);
    if id in d.topics {
      assert TopicAgrees(ready, id) by { assert ready.topics[id] == d.topics[id]; }
      DocOfIsSound(ready, origins, id);
      ReadTopicIs(DocOf(ready, id), origins(id));
    }
  }

  /** Rows that have no tab the document lacks follow it, but for a profile it
      does not name. */
  lemma AppliedAgreesIff(d: Device, origin: Origin, id: string, t: Topic, protect: bool)
    requires ReadTopic(DocOf(d, id)) == Some(t) && Original(t, origin) && TabIds(DocOf(d, id)) <= t.tabs.Keys
    requires id in d.topics ==> Original(d.topics[id], origin) && d.topics[id].tabs.Keys <= t.tabs.Keys
    ensures var d', kept := Applied(d, id, t, protect), Protected(Local(d, id), t, protect);
            && (TopicScope(id) in d'.pending <==> kept != t)
            && (kept == t ==> (TopicAgrees(d', id) <==> (id in d.topics && t.profile.None? ==> d.topics[id].profile.None?)))
            && (kept != t ==> id in d.topics && d'.topics[id].notebook.deletedAt == d.topics[id].notebook.deletedAt)
            && Original(d'.topics[id], origin) && TabIds(DocOf(d', id)) <= d'.topics[id].tabs.Keys
  {
    var kept := Protected(Local(d, id), t, protect);
    if id in d.topics { ApplyTopicAgreesIff(d.topics[id], kept, origin); }
  }

  /** An import that changes the document brings the rows into line with it
      exactly when it takes no profile away: a protected deletion is queued
      again instead. */
  lemma ImportTopicAgreesIff(d: Device, origins: Origins, id: string, update: TopicDoc, upto: nat, protect: bool)
    requires InSync(d, origins) && Mergeable(d, origins, id, update, upto)
    requires TopicArrives(d, id, update)
    ensures var d' := ImportTopic(d, id, update, upto, protect);
            var t := ReadTopic(Merged(d, id, update)).value;
            && (TopicScope(id) in d'.pending <==> Protected(Local(d, id), t, protect) != t)
            && (TopicScope(id) !in d'.pending ==> (TopicAgrees(d', id) <==> KeepsProfile(d, id, update)))
            && (TopicScope(id) in d'.pending ==> d'.topics[id].notebook.deletedAt == d.topics[id].notebook.deletedAt)
            && Original(d'.topics[id], origins(id)) && TabIds(d'.topicDocs[id]) <= d'.topics[id].tabs.Keys
  {
    MergedIsSound(d, origins, id, update, upto);
    MergedAgrees(d, origins, id, update, upto);
    var doc := Merged(d, id, update);
    ReadTopicIs(doc, origins(id));
    var saved := Saved(BeforeMerge(d, id), id, doc, upto);
    if id in d.topics { assert Original(d.topics[id], origins(id)); }
    AppliedAgreesIff(saved, origins(id), id, ReadTopic(doc).value, protect);
  }

  /** A step that touches one topic keeps every other one as it was. */
  lemma OneTopicReplaced(d: Device, d': Device, origins: Origins, id: string)
    requires Sound(d, origins) && d'.clock >= d.clock && d'.internal == d.internal && id !in d.internal
    requires d'.library == d.library && d'.speakers == d.speakers && d'.libraryDoc == d.libraryDoc
    requires LibraryScope in d.pending <==> LibraryScope in d'.pending
    requires forall other :: other != id ==> (TopicScope(other) in d.pending <==> TopicScope(other) in d'.pending)
    requires d'.topics - {id} == d.topics - {id} && d'.topicDocs - {id} == d.topicDocs - {id}
    requires id in d'.topicDocs ==> GoodDoc(d'.topicDocs[id], d'.clock, origins(id))
    requires id in d'.topics ==> Original(d'.topics[id], origins(id))
    requires id in d'.topics && id in d'.topicDocs ==> TabIds(d'.topicDocs[id]) <= d'.topics[id].tabs.Keys
    requires HasRows(d', id)
    requires id in d'.topics && TopicScope(id) !in d'.pending ==> HasDoc(d', id)
    ensures Sound(d', origins)
    ensures InSync(d, origins) && (id in d'.topics && TopicScope(id) !in d'.pending ==> TopicAgrees(d', id)) ==> InSync(d', origins)
  {
    OtherDocsHaveRows(d, d', id);
    LibraryStampedLater(d.libraryDoc, d.clock, d'.clock);
    forall other {:trigger d'.topicDocs[other]} | other in d'.topicDocs
      ensures other !in d'.internal && GoodDoc(d'.topicDocs[other], d'.clock, origins(other))
      ensures other in d'.topics ==> TabIds(d'.topicDocs[other]) <= d'.topics[other].tabs.Keys
    {
      if other != id {
        SameElsewhere(d.topicDocs, d'.topicDocs, id, other);
        SameElsewhere(d.topics, d'.topics, id, other);
        GoodDocLater(d.topicDocs[other], d.clock, d'.clock, origins(other));
      }
    }
    forall other {:trigger d'.topics[other]} | other in d'.topics && other !in d'.internal
      ensures Original(d'.topics[other], origins(other))
      ensures TopicScope(other) !in d'.pending ==> HasDoc(d', other)
    {
      if other != id { OtherTopicSame(d, d', origins, id, other); }
    }
    if InSync(d, origins) && (id in d'.topics && TopicScope(id) !in d'.pending ==> TopicAgrees(d', id)) {
      forall other {:trigger d'.topics[other]} | other in d'.topics && other !in d'.internal && TopicScope(other) !in d'.pending
        ensures TopicAgrees(d', other)
      {
        if other != id { OtherTopicSame(d, d', origins, id, other); }
      }
    }
  }

  lemma OtherTopicSame(d: Device, d': Device, origins: Origins, id: string, other: string)
    requires Sound(d, origins) && d'.internal == d.internal && other != id
    requires d'.topics - {id} == d.topics - {id} && d'.topicDocs - {id} == d.topicDocs - {id}
    requires TopicScope(other) in d.pending <==> TopicScope(other) in d'.pending
    requires other in d'.topics && other !in d'.internal
    ensures Original(d'.topics[other], origins(other))
    ensures TopicScope(other) !in d'.pending ==> HasDoc(d', other) && (TopicsAgree(d) ==> TopicAgrees(d', other))
  {
    SameElsewhere(d.topicDocs, d'.topicDocs, id, other);
    SameElsewhere(d.topics, d'.topics, id, other);
    assert d.topics[other] == d'.topics[other];
    if TopicScope(other) !in d'.pending {
      StillHasDoc(d, d', other);
      if TopicsAgree(d) { StillAgrees(d, d', other); }
    }
  }

  lemma OtherDocsHaveRows(d: Device, d': Device, id: string)
    requires DocsHaveRows(d) && HasRows(d', id)
    requires d'.topics - {id} == d.topics - {id} && d'.topicDocs - {id} == d.topicDocs - {id}
    ensures DocsHaveRows(d')
  {
    forall other {:trigger d'.topicDocs[other]} | other in d'.topicDocs ensures HasRows(d', other) {
      if other != id {
        SameElsewhere(d.topicDocs, d'.topicDocs, id, other);
        SameElsewhere(d.topics, d'.topics, id, other);
        assert d.topicDocs[other] == DocOf(d, other);
        assert HasRows(d, other);
      }
    }
  }

  lemma SameElsewhere<V>(m: map<string, V>, m': map<string, V>, id: string, other: string)
    requires m - {id} == m' - {id} && other != id
    ensures other in m <==> other in m'
    ensures other in m ==> m[other] == m'[other]
  {
    assert other in m <==> other in m - {id};
    assert other in m' <==> other in m' - {id};
    if other in m { assert (m - {id})[other] == (m' - {id})[other]; }
  }

  lemma UpdatedElsewhere<V>(m: map<string, V>, id: string, v: V)
    ensures m[id := v] - {id} == m - {id}
  {
  }

  lemma SavedElsewhere(d: Device, id: string, doc: TopicDoc, upto: nat)
    ensures SameElsewhereThan(d, Saved(d, id, doc, upto), id)
  {
    UpdatedElsewhere(d.topicDocs, id, doc);
  }

  lemma AppliedElsewhere(d: Device, id: string, t: Topic, protect: bool)
    ensures SameElsewhereThan(d, Applied(d, id, t, protect), id)
  {
    UpdatedElsewhere(d.topics, id, Applied(d, id, t, protect).topics[id]);
  }

  lemma ImportedElsewhere(d: Device, id: string, update: TopicDoc, upto: nat, protect: bool)
    ensures SameElsewhereThan(BeforeMerge(d, id), ImportTopic(d, id, update, upto, protect), id)
  {
    var ready, doc := BeforeMerge(d, id), Merged(d, id, update);
    SavedElsewhere(ready, id, doc, upto);
    if doc != DocOf(ready, id) && ReadTopic(doc).Some? {
      AppliedElsewhere(Saved(ready, id, doc, upto), id, ReadTopic(doc).value, protect);
    }
  }

  lemma SameQueueElsewhere(p: set<Scope>, q: set<Scope>, id: string, scope: Scope)
    requires p + {TopicScope(id)} == q + {TopicScope(id)} && scope != TopicScope(id)
    ensures scope in p <==> scope in q
  {
    assert scope in p + {TopicScope(id)} <==> scope in p;
    assert scope in q + {TopicScope(id)} <==> scope in q;
  }

  lemma ImportedIs(d: Device, id: string, update: TopicDoc, upto: nat, protect: bool)
    requires Merged(d, id, update) != DocOf(BeforeMerge(d, id), id)
    ensures var d' := ImportTopic(d, id, update, upto, protect);
            && DocOf(d', id) == Merged(d, id, update) && id in d'.topicDocs
            && d'.clock == Max(BeforeMerge(d, id).clock, upto)
            && (ReadTopic(Merged(d, id, update)).Some? ==> id in d'.topics)
            && (ReadTopic(Merged(d, id, update)).None? ==> d'.topics == BeforeMerge(d, id).topics)
  {
  }

  lemma QueuedRecordingElsewhere(d: Device, d': Device, id: string, session: string)
    requires SameElsewhereThan(d, d', id)
    ensures RecordingScope(session) in d.pending <==> RecordingScope(session) in d'.pending
  {
    SameQueueElsewhere(d'.pending, d.pending, id, RecordingScope(session));
  }

  lemma QueueElsewhere(d: Device, d': Device, id: string)
    requires SameElsewhereThan(d, d', id)
    ensures LibraryScope in d.pending <==> LibraryScope in d'.pending
    ensures forall other :: other != id ==> (TopicScope(other) in d.pending <==> TopicScope(other) in d'.pending)
  {
    SameQueueElsewhere(d'.pending, d.pending, id, LibraryScope);
    forall other | other != id ensures TopicScope(other) in d.pending <==> TopicScope(other) in d'.pending {
      SameQueueElsewhere(d'.pending, d.pending, id, TopicScope(other));
    }
  }

  /** The rows of a topic that follow a document stay sound. */
  lemma AppliedIsSound(d: Device, origin: Origin, id: string, t: Topic, protect: bool)
    requires ReadTopic(DocOf(d, id)) == Some(t) && Original(t, origin) && TabIds(DocOf(d, id)) <= t.tabs.Keys
    requires id in d.topics ==> Original(d.topics[id], origin)
    ensures var d' := Applied(d, id, t, protect);
            Original(d'.topics[id], origin) && TabIds(DocOf(d', id)) <= d'.topics[id].tabs.Keys
  {
    if id in d.topics {
      var kept := Protected(Local(d, id), t, protect);
      assert Original(kept, origin);
      ApplyTopicAgreesIff(d.topics[id], kept, origin);
    }
  }

  lemma ImportedTopicIsSound(d: Device, origins: Origins, id: string, update: TopicDoc, upto: nat, protect: bool)
    requires Sound(d, origins) && Mergeable(d, origins, id, update, upto)
    requires TopicArrives(d, id, update)
    ensures var d' := ImportTopic(d, id, update, upto, protect);
            id in d'.topics && Original(d'.topics[id], origins(id)) && TabIds(DocOf(d', id)) <= d'.topics[id].tabs.Keys
  {
    MergedIsSound(d, origins, id, update, upto);
    var doc := Merged(d, id, update);
    ReadTopicIs(doc, origins(id));
    if id in d.topics { assert Original(d.topics[id], origins(id)); }
    AppliedIsSound(Saved(BeforeMerge(d, id), id, doc, upto), origins(id), id, ReadTopic(doc).value, protect);
  }

  /** An import of a topic keeps everything sound, and in line unless it takes a
      profile away. */
  lemma ImportTopicKeepsSync(d: Device, origins: Origins, id: string, update: TopicDoc, upto: nat, protect: bool)
    requires Sound(d, origins) && Mergeable(d, origins, id, update, upto)
    ensures Sound(ImportTopic(d, id, update, upto, protect), origins)
    ensures InSync(d, origins) && !TakesProfile(d, id, update, protect) ==> InSync(ImportTopic(d, id, update, upto, protect), origins)
  {
    MergedIsSound(d, origins, id, update, upto);
    ImportedElsewhere(d, id, update, upto, protect);
    var ready, d' := BeforeMerge(d, id), ImportTopic(d, id, update, upto, protect);
    if InSync(d, origins) { MergedAgrees(d, origins, id, update, upto); }
    if Merged(d, id, update) != DocOf(ready, id) {
      QueueElsewhere(ready, d', id);
      ImportedIs(d, id, update, upto, protect);
      if TopicArrives(d, id, update) {
        ImportedTopicIsSound(d, origins, id, update, upto, protect);
        if InSync(d, origins) { ImportTopicAgreesIff(d, origins, id, update, upto, protect); }
      }
      OneTopicReplaced(ready, d', origins, id);
    }
  }

  lemma TakenProfileShows(d: Device, origins: Origins, id: string, update: TopicDoc, upto: nat, protect: bool)
    requires InSync(d, origins) && Mergeable(d, origins, id, update, upto) && TakesProfile(d, id, update, protect)
    ensures !TopicsAgree(ImportTopic(d, id, update, upto, protect))
  {
    var d' := ImportTopic(d, id, update, upto, protect);
    ImportTopicAgreesIff(d, origins, id, update, upto, protect);
    ImportedIs(d, id, update, upto, protect);
    ExportedElsewhere(d, id);
    ImportedElsewhere(d, id, update, upto, protect);
    assert d'.topics[id] == d'.topics[id];
  }

  /** One import of a topic keeps the whole device in line exactly when it does
      not take a profile away unnoticed. */
  lemma ImportTopicKeepsSyncIff(d: Device, origins: Origins, id: string, update: TopicDoc, upto: nat, protect: bool)
    requires InSync(d, origins) && Mergeable(d, origins, id, update, upto)
    ensures InSync(ImportTopic(d, id, update, upto, protect), origins) <==> !TakesProfile(d, id, update, protect)
  {
    if TakesProfile(d, id, update, protect) {
      TakenProfileShows(d, origins, id, update, upto, protect);
    } else {
      ImportTopicKeepsSync(d, origins, id, update, upto, protect);
    }
  }

  /** What any exchange of the library may bring. */
  ghost predicate MergeableLibrary(d: Device, update: L.LibraryDoc, upto: nat) {
    WellStamped(ReadyLibrary(d).libraryDoc + update) && StampedBelow(update, upto) && L.WellFormedLibrary(update)
  }

  ghost predicate NobodyStranded(d: Device, update: L.LibraryDoc) {
    forall s :: !L.Stranded(d.library, d.speakers.Keys, L.ReadLibrary(ReadyLibrary(d).libraryDoc + update), s)
  }

  /** An import of the library that changes its document brings the tables into
      line with it exactly when no speaker is stranded. */
  lemma ImportLibraryAgreesIff(d: Device, update: L.LibraryDoc, upto: nat)
    requires ReadyLibrary(d).libraryDoc + update != ReadyLibrary(d).libraryDoc
    ensures LibraryAgrees(ImportLibrary(d, update, upto)) <==> NobodyStranded(d, update)
  {
    var ready := ReadyLibrary(d);
    assert ready.library == d.library && ready.speakers == d.speakers;
    JoinedAgreesIff(ready, ready.libraryDoc + update, upto);
  }

  lemma JoinedAgreesIff(d: Device, doc: L.LibraryDoc, upto: nat)
    ensures LibraryAgrees(Joined(d, doc, upto)) <==> forall s :: !L.Stranded(d.library, d.speakers.Keys, L.ReadLibrary(doc), s)
  {
    JoinedIs(d, doc, upto);
    L.ApplyLibraryAgreesIff(d.library, d.speakers.Keys, L.ReadLibrary(doc));
  }

  lemma JoinedIs(d: Device, doc: L.LibraryDoc, upto: nat)
    ensures var d' := Joined(d, doc, upto);
            && d'.libraryDoc == doc && d'.speakers == d.speakers && d'.pending == d.pending - {LibraryScope}
            && d'.library == L.ApplyLibrary(d.library, d.speakers.Keys, L.ReadLibrary(doc))
            && d'.recordings == d.recordings && d'.recordingDocs == d.recordingDocs && d'.capturing == d.capturing
  {
  }

  lemma JoinedKeepsTopics(d: Device, origins: Origins, doc: L.LibraryDoc, upto: nat)
    requires Sound(d, origins)
    requires WellStamped(doc) && StampedBelow(doc, Max(d.clock, upto)) && L.WellFormedLibrary(doc)
    ensures Sound(Joined(d, doc, upto), origins) && (TopicsAgree(d) <==> TopicsAgree(Joined(d, doc, upto)))
  {
    JoinedIs(d, doc, upto);
    L.ApplyLibraryAgreesIff(d.library, d.speakers.Keys, L.ReadLibrary(doc));
    OthersUntouched(d, Joined(d, doc, upto), origins);
  }

  lemma MergedLibraryIsSound(d: Device, update: L.LibraryDoc, upto: nat)
    requires LibraryDocSound(d) && MergeableLibrary(d, update, upto)
    ensures var ready, doc := ReadyLibrary(d), ReadyLibrary(d).libraryDoc + update;
            && LibraryDocSound(ready) && d.libraryDoc <= ready.libraryDoc && ready.clock >= d.clock
            && WellStamped(doc) && StampedBelow(doc, Max(ready.clock, upto)) && L.WellFormedLibrary(doc)
  {
    LibraryWritten(d);
  }

  ghost predicate Strands(d: Device, update: L.LibraryDoc) {
    ReadyLibrary(d).libraryDoc + update != ReadyLibrary(d).libraryDoc && !NobodyStranded(d, update)
  }

  /** One import of the library keeps everything sound, and the whole device in
      line exactly when it strands no speaker. */
  lemma ImportLibraryKeepsSyncIff(d: Device, origins: Origins, update: L.LibraryDoc, upto: nat)
    requires Sound(d, origins) && MergeableLibrary(d, update, upto)
    ensures Sound(ImportLibrary(d, update, upto), origins)
    ensures InSync(d, origins) ==> (InSync(ImportLibrary(d, update, upto), origins) <==> !Strands(d, update))
  {
    MergedLibraryIsSound(d, update, upto);
    ExportLibraryKeepsSync(d, origins);
    var ready, doc := ReadyLibrary(d), ReadyLibrary(d).libraryDoc + update;
    if doc != ready.libraryDoc {
      ImportLibraryAgreesIff(d, update, upto);
      JoinedIs(ready, doc, upto);
      JoinedKeepsTopics(ready, origins, doc, upto);
    }
  }
}
