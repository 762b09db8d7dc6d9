/**
 What an import leaves in the tables of a device, row by row: what comes from the
 merged document, what stays the device's own, and what is queued.
 */
module LibraryOutcomes {
  import opened Wrappers
  import opened LoroMap
  import opened TopicFacts
  import opened LibrarySync

  /** A topic's rows after a document came that reads as `t`. Title, tabs and
      profile follow the document; nothing it does not name goes. With `protect` a
      topic that is here keeps its own deletion time, and is queued exactly when
      the document says another; otherwise the document's time is taken and nothing
      is queued. */
  ghost predicate RowsFollow(before: Device, after: Device, id: string, t: Topic, protect: bool) {
    && id in after.topics
    && var row := after.topics[id];
    && row.notebook.title == t.notebook.title
    && row.notebook.createdAt == (if id in before.topics then before.topics[id].notebook.createdAt else t.notebook.createdAt)
    && (if protect && id in before.topics
        then row.notebook.deletedAt == before.topics[id].notebook.deletedAt
             && (TopicScope(id) in after.pending <==> t.notebook.deletedAt != before.topics[id].notebook.deletedAt)
        else row.notebook.deletedAt == t.notebook.deletedAt && TopicScope(id) !in after.pending)
    && row.tabs.Keys == t.tabs.Keys + (if id in before.topics then before.topics[id].tabs.Keys else {})
    && (forall tab :: tab in row.tabs ==>
          row.tabs[tab] == (if id in before.topics && tab in before.topics[id].tabs then before.topics[id].tabs[tab] else t.tabs[tab]))
    && (t.profile.Some? ==> row.profile == t.profile)
    && (t.profile.None? ==> row.profile == if id in before.topics then before.topics[id].profile else None)
  }

  ghost predicate SameTopic(before: Device, after: Device, id: string) {
    && (id in after.topics <==> id in before.topics)
    && (id in after.topics ==> after.topics[id] == before.topics[id])
    && (id in after.topicDocs <==> id in before.topicDocs)
    && (id in after.topicDocs ==> after.topicDocs[id] == before.topicDocs[id])
    && (TopicScope(id) in after.pending <==> TopicScope(id) in before.pending)
  }

  /** No other topic changes. */
  ghost predicate OnlyTopic(before: Device, after: Device, id: string) {
    forall other :: other != id ==> SameTopic(before, after, other)
  }

  function Unqueued(d: Device, id: string): Device { d.(pending := d.pending - {TopicScope(id)}) }

  function SentAs(d: Device, id: string, doc: TopicDoc): Device {
    Unqueued(d, id).(topicDocs := d.topicDocs[id := doc], clock := d.clock + 1)
  }

  lemma SentTouchesOne(d: Device, id: string, doc: TopicDoc, other: string)
    requires other != id
    ensures SameTopic(d, SentAs(d, id, doc), other) && SameTopic(d, Unqueued(d, id), other)
  {
  }

  lemma ExportIs(d: Device, id: string) returns (doc: TopicDoc)
    ensures ExportTopic(d, id) == Unqueued(d, id) || ExportTopic(d, id) == SentAs(d, id, doc)
  {
    doc := {};
    if id !in d.internal && id in d.topics {
      doc := WriteTopic(DocOf(d, id), d.topics[id], Stamp(d.clock, d.peer));
    }
  }

  lemma ExportTouchesOne(d: Device, id: string, other: string)
    requires other != id
    ensures SameTopic(d, ExportTopic(d, id), other)
  {
    var doc := ExportIs(d, id);
    SentTouchesOne(d, id, doc, other);
  }

  lemma MergeTouchesOne(d: Device, id: string, other: string)
    requires other != id
    ensures SameTopic(d, BeforeMerge(d, id), other)
  {
    ExportTouchesOne(d, id, other);
  }

  lemma ImportTouchesOne(d: Device, id: string, update: TopicDoc, upto: nat, protect: bool, other: string)
    requires other != id
    ensures SameTopic(d, ImportTopic(d, id, update, upto, protect), other)
  {
    MergeTouchesOne(d, id, other);
  }

  lemma ImportTouchesNoOther(d: Device, id: string, update: TopicDoc, upto: nat, protect: bool)
    ensures OnlyTopic(d, ImportTopic(d, id, update, upto, protect), id)
  {
    forall other | other != id ensures SameTopic(d, ImportTopic(d, id, update, upto, protect), other) {
      ImportTouchesOne(d, id, update, upto, protect, other);
    }
  }

  lemma AppliedFollows(d: Device, id: string, t: Topic, protect: bool)
    ensures RowsFollow(d, Applied(d, id, t, protect), id, t, protect)
  {
  }

  lemma MergeLeavesRows(d: Device, id: string)
    ensures BeforeMerge(d, id).topics == d.topics
  {
    var doc := ExportIs(d, id);
  }

  lemma RowsFollowFrom(d: Device, before: Device, after: Device, id: string, t: Topic, protect: bool)
    requires before.topics == d.topics && RowsFollow(before, after, id, t, protect)
    ensures RowsFollow(d, after, id, t, protect)
  {
  }

  /** An update that brings the topic's rows into line. */
  lemma ImportedRowsFollow(d: Device, id: string, update: TopicDoc, upto: nat, protect: bool)
    requires TopicArrives(d, id, update)
    ensures var d' := ImportTopic(d, id, update, upto, protect);
            && RowsFollow(d, d', id, ReadTopic(Merged(d, id, update)).value, protect)
            && OnlyTopic(d, d', id)
            && DocOf(d', id) == Merged(d, id, update)
  {
    var saved := Saved(BeforeMerge(d, id), id, Merged(d, id, update), upto);
    var t := ReadTopic(Merged(d, id, update)).value;
    MergeLeavesRows(d, id);
    AppliedFollows(saved, id, t, protect);
    RowsFollowFrom(d, saved, Applied(saved, id, t, protect), id, t, protect);
    ImportTouchesNoOther(d, id, update, upto, protect);
  }

  /** An update that brings nothing, or no notebook row yet, leaves all rows alone. */
  lemma OtherImportsLeaveRows(d: Device, id: string, update: TopicDoc, upto: nat, protect: bool)
    requires !TopicArrives(d, id, update)
    ensures var d' := ImportTopic(d, id, update, upto, protect);
            && d'.topics == d.topics && OnlyTopic(d, d', id)
            && DocOf(d', id) == Merged(d, id, update)
  {
    MergeLeavesRows(d, id);
    ImportTouchesNoOther(d, id, update, upto, protect);
  }

  /** A collaborator cannot delete the owner's topic, whatever writes arrive: the
      topic's deletion time here is the one it had, after any updates one by one. */
  ghost function ImportAll(d: Device, id: string, updates: seq<TopicDoc>, upto: nat): Device
    decreases |updates|
  {
    if updates == [] then d else ImportAll(ImportTopic(d, id, updates[0], upto, true), id, updates[1..], upto)
  }

  lemma {:induction false} OwnersDeletionStands(d: Device, id: string, updates: seq<TopicDoc>, upto: nat)
    requires id in d.topics
    ensures var d' := ImportAll(d, id, updates, upto);
            id in d'.topics && d'.topics[id].notebook.deletedAt == d.topics[id].notebook.deletedAt
    decreases |updates|
  {
    if updates != [] {
      var next := ImportTopic(d, id, updates[0], upto, true);
      if TopicArrives(d, id, updates[0]) {
        ImportedRowsFollow(d, id, updates[0], upto, true);
      } else {
        OtherImportsLeaveRows(d, id, updates[0], upto, true);
      }
      OwnersDeletionStands(next, id, updates[1..], upto);
    }
  }

  // ------------------------------------------------------------- recordings

  /** What a recording's document brings: the recording under its topic, or parked
      until that topic is here and not deleted; every speaker it names, unless the
      speaker is here already; the recording is not queued any more. */
  ghost predicate RecordingFollows(d: Device, d': Device, session: string, facts: RecordingFacts) {
    && session in d'.recordings
    && (match facts.topic
        case None => d'.recordings[session] == None && session !in d'.waiting
        case Some(topic) =>
          if topic in d.topics && d.topics[topic].notebook.deletedAt == None
          then d'.recordings[session] == Some(topic) && session !in d'.waiting
          else d'.recordings[session] == None && session in d'.waiting && d'.waiting[session] == topic)
    && d'.speakers.Keys == d.speakers.Keys + facts.speakers
    && (forall s :: s in d'.speakers ==> d'.speakers[s] == if s in d.speakers then d.speakers[s] else session)
    && RecordingScope(session) !in d'.pending
    && (LibraryScope in d'.pending <==> LibraryScope in d.pending || d'.library != d.library)
  }

  ghost predicate SameRecording(d: Device, d': Device, session: string) {
    && (session in d'.recordings <==> session in d.recordings)
    && (session in d'.recordings ==> d'.recordings[session] == d.recordings[session])
    && (session in d'.waiting <==> session in d.waiting)
    && (session in d'.waiting ==> d'.waiting[session] == d.waiting[session])
    && (RecordingScope(session) in d'.pending <==> RecordingScope(session) in d.pending)
  }

  /** Nothing but one recording, its speakers and links of the library changes. */
  ghost predicate OnlyRecording(d: Device, d': Device, session: string) {
    && d'.topics == d.topics && d'.topicDocs == d.topicDocs && d'.libraryDoc == d.libraryDoc
    && d'.recordingDocs == d.recordingDocs && d'.capturing == d.capturing && d'.purging == d.purging
    && d'.internal == d.internal && d'.peer == d.peer && d'.clock == d.clock
    && (forall other :: other != session ==> SameRecording(d, d', other))
    && (forall id :: TopicScope(id) in d'.pending <==> TopicScope(id) in d.pending)
  }

  lemma MaterializedAlone(d: Device, session: string, facts: Option<RecordingFacts>)
    ensures OnlyRecording(d, Materialize(d, session, facts), session)
  {
    forall other | other != session ensures SameRecording(d, Materialize(d, session, facts), other) {
      MaterializedElsewhere(d, session, facts, other);
    }
  }

  lemma MaterializedElsewhere(d: Device, session: string, facts: Option<RecordingFacts>, other: string)
    requires other != session
    ensures SameRecording(d, Materialize(d, session, facts), other)
  {
  }

  /** A document without a notebook row, with a tombstone in the library, or of a
      recording that is being deleted, brings nothing. */
  lemma MaterializedFollows(d: Device, session: string, facts: Option<RecordingFacts>)
    ensures var d' := Materialize(d, session, facts);
            var tombstone: Cell<L.LibraryRow> := Read(d.libraryDoc, L.PurgedKey(session));
            && (tombstone.Row? || facts.None? || session in d.purging ==> d' == d)
            && (!tombstone.Row? && facts.Some? && session !in d.purging ==>
                  RecordingFollows(d, d', session, facts.value))
            && OnlyRecording(d, d', session)
  {
    MaterializedAlone(d, session, facts);
  }

  lemma {:induction false} RematerializedTopics(d: Device, sessions: seq<string>)
    ensures var d' := Rematerialize(d, sessions);
            d'.topics == d.topics && forall id :: TopicScope(id) in d'.pending <==> TopicScope(id) in d.pending
    decreases |sessions|
  {
    if sessions != [] {
      var next := if sessions[0] in d.recordingDocs then Materialize(d, sessions[0], d.recordingDocs[sessions[0]]) else d;
      if sessions[0] in d.recordingDocs { MaterializedAlone(d, sessions[0], d.recordingDocs[sessions[0]]); }
      RematerializedTopics(next, sessions[1..]);
    }
  }

  /** The same holds when the recordings that waited for the topic are taken in. */
  lemma ImportedWithWaitingFollows(d: Device, id: string, update: TopicDoc, upto: nat, protect: bool, sessions: seq<string>)
    requires TopicArrives(d, id, update)
    ensures RowsFollow(d, ImportTopicAndWaiting(d, id, update, upto, protect, sessions), id,
                       ReadTopic(Merged(d, id, update)).value, protect)
  {
    var next := ImportTopic(d, id, update, upto, protect);
    ImportedRowsFollow(d, id, update, upto, protect);
    RematerializedTopics(next, sessions);
    SameRowsFollow(d, next, Rematerialize(next, sessions), id, ReadTopic(Merged(d, id, update)).value, protect);
  }

  lemma SameRowsFollow(d: Device, next: Device, after: Device, id: string, t: Topic, protect: bool)
    requires RowsFollow(d, next, id, t, protect) && after.topics == next.topics
    requires TopicScope(id) in after.pending <==> TopicScope(id) in next.pending
    ensures RowsFollow(d, after, id, t, protect)
  {
  }

  // ---------------------------------------------------- local changes and exports

  /** A change made here is in the tables at once and in the queue; nothing but the
      row it names, and no document, changes. */
  lemma EditsAreQueued(d: Device, id: string, t: Topic, library: L.Library, speaker: string, session: string)
    ensures EditTopic(d, id, t) == d.(topics := d.topics[id := t], pending := d.pending + {TopicScope(id)})
    ensures EditLibrary(d, library) == d.(library := library, pending := d.pending + {LibraryScope})
    ensures AddSpeaker(d, speaker, session)
         == d.(speakers := d.speakers[speaker := session], pending := d.pending + {RecordingScope(session)})
  {
  }

  /** A recording that is being made, finished or moved is queued; while it is being
      made it is not exported. */
  lemma RecordingEditsAreQueued(d: Device, session: string, topic: Option<string>, at: string)
    ensures var d' := Record(d, session, topic);
            && d' == d.(recordings := d'.recordings, capturing := d'.capturing, pending := d'.pending)
            && d'.recordings == d.recordings[session := topic] && session in d'.capturing
            && RecordingScope(session) in d'.pending && ExportRecording(d', session, at) == d'
    ensures var d' := FinishCapture(d, session);
            && d' == d.(capturing := d'.capturing, pending := d'.pending)
            && session !in d'.capturing && RecordingScope(session) in d'.pending
    ensures session in d.recordings ==>
            var d' := EditRecording(d, session, topic);
            && d' == d.(recordings := d'.recordings, pending := d'.pending)
            && d'.recordings == d.recordings[session := topic] && RecordingScope(session) in d'.pending
  {
  }

  /** Exporting a recording takes it off the queue, unless it is being made or deleted.
      One that is here is written with the topic it is under or waits for, but for one
      of this device's own, and with its speakers; one that is gone leaves a tombstone
      if it was ever exchanged. */
  lemma ExportedRecordingIs(d: Device, session: string, at: string)
    ensures var d' := ExportRecording(d, session, at);
      && (session in d.capturing || session in d.purging ==> d' == d)
      && (session !in d.capturing && session !in d.purging ==>
            && RecordingScope(session) !in d'.pending
            && d'.recordings == d.recordings && d'.speakers == d.speakers && d'.topics == d.topics
            && (session in d.recordings ==>
                  && session in d'.recordingDocs && d'.recordingDocs[session].Some? && d'.libraryDoc == d.libraryDoc
                  && var facts := d'.recordingDocs[session].value;
                  && (forall s :: s in facts.speakers <==> s in d.speakers && d.speakers[s] == session)
                  && var place := if session in d.waiting then Some(d.waiting[session]) else d.recordings[session];
                  && facts.topic == (if place.Some? && place.value in d.internal then None else place))
            && (session !in d.recordings && session in d.recordingDocs ==>
                  session !in d'.recordingDocs && (LibraryDocSound(d) ==> L.Tombstoned(d'.libraryDoc, session)))
            && (session !in d.recordings && session !in d.recordingDocs ==>
                  d' == d.(pending := d.pending - {RecordingScope(session)})))
  {
    if LibraryDocSound(d) { L.TombstoneIsAdded(d.libraryDoc, session, at, Stamp(d.clock, d.peer)); }
  }

  /** Deleting a recording's rows takes its speakers and their links along, no other
      speaker's, and queues it if it was here. */
  lemma PurgedRowsAre(d: Device, session: string)
    ensures var d' := PurgeRows(d, session);
      && d' == d.(recordings := d'.recordings, pending := d'.pending, speakers := d'.speakers, library := d'.library)
      && d'.recordings == d.recordings - {session}
      && d'.pending == (if session in d.recordings then d.pending + {RecordingScope(session)} else d.pending)
      && (forall s :: s in d'.speakers <==> s in d.speakers && d.speakers[s] != session)
      && (forall s :: s in d'.speakers ==> d'.speakers[s] == d.speakers[s])
      && d'.library.participants == d.library.participants
      && (forall s :: s in d'.library.links <==> s in d.library.links && s in d.speakers && d.speakers[s] != session)
      && (forall s :: s in d'.library.links ==> d'.library.links[s] == d.library.links[s])
  {
  }

  /** A recording whose tombstone arrived is forgotten: no document, not queued. */
  lemma ForgottenIs(d: Device, session: string)
    ensures var d' := Forget(d, session);
      && d' == d.(recordingDocs := d'.recordingDocs, pending := d'.pending)
      && session !in d'.recordingDocs && RecordingScope(session) !in d'.pending
      && (forall other :: other != session ==>
            && (other in d'.recordingDocs <==> other in d.recordingDocs)
            && (other in d'.recordingDocs ==> d'.recordingDocs[other] == d.recordingDocs[other]))
      && (forall scope :: scope != RecordingScope(session) ==> (scope in d'.pending <==> scope in d.pending))
  {
  }
}
