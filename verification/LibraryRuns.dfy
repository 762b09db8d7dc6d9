/**
 Whole runs of a synchronised device: any order of local edits, exports, imports
 and deletions.
 */
module LibraryRuns {
  import opened Wrappers
  import opened LoroMap
  import opened TopicFacts
  import opened LibrarySync
  import L = LibraryFacts

  datatype Step =
    | SExport(scope: Scope, at: string)
    | SImportTopic(id: string, topicUpdate: TopicDoc, upto: nat, protect: bool, sessions: seq<string>)
    | SImportLibrary(libraryUpdate: L.LibraryDoc, upto: nat)
    | SImportRecording(session: string, facts: Option<RecordingFacts>, at: string)
    | SEditTopic(id: string, topic: Topic)
    | SEditLibrary(library: L.Library)
    | SAddSpeaker(speaker: string, session: string)
    | SRecord(session: string, place: Option<string>)
    | SFinishCapture(session: string)
    | SEditRecording(session: string, place: Option<string>)
    | SBeginPurge(session: string)
    | SPurgeRows(session: string)
    | SEndPurge(session: string)
    | SForget(session: string)

  ghost function Export(d: Device, scope: Scope, at: string): Device {
    match scope
    case TopicScope(id) => ExportTopic(d, id)
    case LibraryScope => ExportLibrary(d)
    case RecordingScope(session) => ExportRecording(d, session, at)
  }

  ghost function Take(d: Device, step: Step): Device {
    match step
    case SExport(scope, at) => Export(d, scope, at)
    case SImportTopic(id, update, upto, protect, sessions) => ImportTopicAndWaiting(d, id, update, upto, protect, sessions)
    case SImportLibrary(update, upto) => ImportLibrary(d, update, upto)
    case SImportRecording(session, facts, at) => ImportRecording(d, session, facts, at)
    case SEditTopic(id, topic) => EditTopic(d, id, topic)
    case SEditLibrary(library) => EditLibrary(d, library)
    case SAddSpeaker(speaker, session) => AddSpeaker(d, speaker, session)
    case SRecord(session, place) => Record(d, session, place)
    case SFinishCapture(session) => FinishCapture(d, session)
    case SEditRecording(session, place) => if session in d.recordings then EditRecording(d, session, place) else d
    case SBeginPurge(session) => BeginPurge(d, session)
    case SPurgeRows(session) => PurgeRows(d, session)
    case SEndPurge(session) => EndPurge(d, session)
    case SForget(session) => Forget(d, session)
  }

  /** A name never used for a recording here. */
  ghost predicate Fresh(d: Device, session: string) {
    && session !in d.recordings && session !in d.recordingDocs && session !in d.waiting && session !in d.purging
    && RecordingScope(session) !in d.pending && !L.Tombstoned(d.libraryDoc, session)
  }

  /** The recordings that wait for a topic, in some order. */
  ghost predicate WaitsFor(d: Device, id: string, sessions: seq<string>) {
    forall s :: s in sessions <==> s in d.waiting && d.waiting[s] == id
  }

  /** The links of the document name the recordings their speakers belong to. */
  ghost predicate LinksFit(d: Device, d': Device) {
    L.LinksOwnSession(L.ReadLibrary(d.libraryDoc), d'.speakers)
  }

  /** What the rest of the program and well-behaved peers do: ids are fresh when
      they are made, tabs and creation times are written once, references hold,
      peers' writes are well formed. */
  ghost predicate Admissible(d: Device, origins: Origins, step: Step) {
    match step
    case SExport(_, _) => true
    case SImportTopic(id, update, upto, _, sessions) =>
      && Mergeable(d, origins, id, update, upto) && WaitsFor(d, id, sessions) && LinksFit(d, Take(d, step))
    case SImportLibrary(update, upto) => MergeableLibrary(d, update, upto)
    case SImportRecording(_, _, _) => LinksFit(d, Take(d, step))
    case SEditTopic(id, topic) =>
      id in d.internal ||
      (&& Original(topic, origins(id))
       && (if id in d.topics then topic.tabs == d.topics[id].tabs else id !in d.topicDocs))
    case SEditLibrary(library) => L.ReferencesHold(library, d.speakers.Keys)
    case SAddSpeaker(speaker, _) => speaker !in d.speakers && speaker !in L.ReadLibrary(d.libraryDoc).links
    case SRecord(session, _) => Fresh(d, session)
    case SFinishCapture(session) => session in d.capturing
    case SEditRecording(session, _) => session in d.recordings
    case SBeginPurge(session) => session !in d.capturing
    case SPurgeRows(session) => session in d.purging && session !in d.capturing
    case SEndPurge(session) => session in d.purging && session !in d.recordings
    case SForget(session) => L.Tombstoned(d.libraryDoc, session) && session !in d.recordings
  }

  ghost function RunSteps(d: Device, steps: seq<Step>): Device
    decreases |steps|
  {
    if steps == [] then d else RunSteps(Take(d, steps[0]), steps[1..])
  }

  ghost predicate AdmissibleRun(d: Device, origins: Origins, steps: seq<Step>)
    decreases |steps|
  {
    steps == [] || (Admissible(d, origins, steps[0]) && AdmissibleRun(Take(d, steps[0]), origins, steps[1..]))
  }

  /** The two cases in which an import cannot bring the tables into line. */
  ghost predicate Breaks(d: Device, step: Step) {
    match step
    case SImportTopic(id, update, _, protect, _) => TakesProfile(d, id, update, protect)
    case SImportLibrary(update, _) => Strands(d, update)
    case _ => false
  }

  ghost predicate NeverBreaks(d: Device, steps: seq<Step>)
    decreases |steps|
  {
    steps != [] ==> !Breaks(d, steps[0]) && NeverBreaks(Take(d, steps[0]), steps[1..])
  }

  ghost predicate AlwaysInSync(d: Device, origins: Origins, steps: seq<Step>)
    decreases |steps|
  {
    InSync(d, origins) && (steps != [] ==> AlwaysInSync(Take(d, steps[0]), origins, steps[1..]))
  }

  // ---------------------------------------------------------- the other steps

  /** What writing a tombstone does to the library document, or not writing one. */
  lemma RecordingExported(d: Device, session: string, at: string)
    requires LibraryDocSound(d)
    ensures var d' := ExportRecording(d, session, at);
            && LibraryDocSound(d') && d.libraryDoc <= d'.libraryDoc
            && L.ReadLibrary(d'.libraryDoc) == L.ReadLibrary(d.libraryDoc)
            && (session !in d.recordings && session in d.recordingDocs && Exportable(d, session) ==>
                  L.Tombstoned(d'.libraryDoc, session))
  {
    L.TombstoneIsAdded(d.libraryDoc, session, at, Stamp(d.clock, d.peer));
  }

  lemma ExportRecordingKeepsSync(d: Device, origins: Origins, session: string, at: string)
    requires Sound(d, origins)
    ensures Sound(ExportRecording(d, session, at), origins)
    ensures InSync(d, origins) ==> InSync(ExportRecording(d, session, at), origins)
  {
    RecordingExported(d, session, at);
    OthersUntouched(d, ExportRecording(d, session, at), origins);
  }

  /** Links re-applied for a recording show the document's again. */
  lemma SessionLinksShow(lib: L.Library, before: set<string>, speakers: map<string, string>, session: string)
    requires L.LinksOwnSession(lib, speakers) && before <= speakers.Keys
    requires forall s :: s in speakers && s !in before ==> speakers[s] == session
    ensures L.ApplySessionLinks(L.Shown(lib, before), speakers, lib, session) == L.Shown(lib, speakers.Keys)
  {
    var applied := L.ApplySessionLinks(L.Shown(lib, before), speakers, lib, session);
    var shown := L.Shown(lib, speakers.Keys);
    forall s
      ensures s in applied.links <==> s in shown.links
      ensures s in applied.links ==> applied.links[s] == shown.links[s]
    {
      if s in speakers {
        assert s in applied.links <==> L.SessionLink(L.Shown(lib, before), speakers, lib, session, s).Some?;
      }
    }
    assert applied.links == shown.links;
  }

  /** With no library document there is nothing to show, whoever speaks. */
  lemma EmptyShowsNothing(speakers: set<string>)
    ensures L.Shown(L.ReadLibrary({}), speakers) == L.Library(map[], map[])
  {
    assert L.ReadLibrary({}) == L.Library(map[], map[]);
  }

  lemma LinksAfterRecording(d: Device, session: string, facts: RecordingFacts)
    requires LibraryAgrees(d)
    requires L.LinksOwnSession(L.ReadLibrary(d.libraryDoc), WithSpeakers(d, session, facts))
    ensures Relinked(d, session, facts) == L.Shown(L.ReadLibrary(d.libraryDoc), WithSpeakers(d, session, facts).Keys)
  {
    if d.libraryDoc == {} {
      EmptyShowsNothing(d.speakers.Keys);
      EmptyShowsNothing(WithSpeakers(d, session, facts).Keys);
    } else {
      SessionLinksShow(L.ReadLibrary(d.libraryDoc), d.speakers.Keys, WithSpeakers(d, session, facts), session);
    }
  }

  lemma RelinkedReferencesHold(d: Device, session: string, facts: RecordingFacts)
    requires L.ReferencesHold(d.library, d.speakers.Keys)
    ensures L.ReferencesHold(Relinked(d, session, facts), WithSpeakers(d, session, facts).Keys)
  {
  }

  lemma MaterializeKeepsSync(d: Device, origins: Origins, session: string, facts: Option<RecordingFacts>)
    requires Sound(d, origins) && LinksFit(d, Materialize(d, session, facts))
    ensures Sound(Materialize(d, session, facts), origins)
    ensures InSync(d, origins) ==> InSync(Materialize(d, session, facts), origins)
    ensures TopicsAgree(d) <==> TopicsAgree(Materialize(d, session, facts))
  {
    if Brings(d, session, facts) {
      OthersUntouched(d, Materialize(d, session, facts), origins);
      RelinkedReferencesHold(d, session, facts.value);
      if LibraryAgrees(d) { LinksAfterRecording(d, session, facts.value); }
    }
  }

  lemma ImportRecordingKeepsSync(d: Device, origins: Origins, session: string, facts: Option<RecordingFacts>, at: string)
    requires Sound(d, origins) && LinksFit(d, ImportRecording(d, session, facts, at))
    ensures Sound(ImportRecording(d, session, facts, at), origins)
    ensures InSync(d, origins) ==> InSync(ImportRecording(d, session, facts, at), origins)
  {
    RecordingExported(d, session, at);
    ExportRecordingKeepsSync(d, origins, session, at);
    var ready := ReadyRecording(d, session, at);
    MaterializeKeepsSync(ready, origins, session, facts);
    OthersUntouched(Materialize(ready, session, facts), ImportRecording(d, session, facts, at), origins);
  }

  /** Materializing touches recordings, speakers and links, and adds speakers only. */
  lemma MaterializedIs(d: Device, session: string, facts: Option<RecordingFacts>)
    ensures var d' := Materialize(d, session, facts);
            && d'.libraryDoc == d.libraryDoc && d'.recordingDocs == d.recordingDocs && d'.topicDocs == d.topicDocs && d'.clock == d.clock
            && d'.capturing == d.capturing && d'.purging == d.purging
            && (forall s :: s in d.speakers ==> s in d'.speakers && d'.speakers[s] == d.speakers[s])
            && (forall other :: other in d'.recordings <==> other in d.recordings || (other == session && Brings(d, session, facts)))
            && (forall other :: RecordingScope(other) in d'.pending
                  <==> RecordingScope(other) in d.pending && !(other == session && Brings(d, session, facts)))
  {
  }

  /** A recording whose stored document brings rows when it is applied again. */
  ghost predicate BringsAgain(d: Device, session: string) {
    session in d.recordingDocs && Brings(d, session, d.recordingDocs[session])
  }

  /** Applying stored documents again brings exactly the rows they can bring, and
      takes just those recordings off the queue. */
  lemma {:induction false} RematerializedIs(d: Device, sessions: seq<string>)
    ensures var d' := Rematerialize(d, sessions);
            && d'.libraryDoc == d.libraryDoc && d'.recordingDocs == d.recordingDocs && d'.topicDocs == d.topicDocs && d'.clock == d.clock
            && d'.capturing == d.capturing && d'.purging == d.purging
            && (forall s :: s in d.speakers ==> s in d'.speakers && d'.speakers[s] == d.speakers[s])
            && (forall other :: other in d'.recordings <==> other in d.recordings || (other in sessions && BringsAgain(d, other)))
            && (forall other :: RecordingScope(other) in d'.pending
                  <==> RecordingScope(other) in d.pending && !(other in sessions && BringsAgain(d, other)))
    decreases |sessions|
  {
    if sessions != [] && sessions[0] in d.recordingDocs {
      var next := Materialize(d, sessions[0], d.recordingDocs[sessions[0]]);
      MaterializedIs(d, sessions[0], d.recordingDocs[sessions[0]]);
      RematerializedIs(next, sessions[1..]);
      assert forall other :: BringsAgain(next, other) <==> BringsAgain(d, other);
    } else if sessions != [] {
      RematerializedIs(d, sessions[1..]);
    }
  }

  lemma {:induction false} RematerializeKeepsSync(d: Device, origins: Origins, sessions: seq<string>)
    requires Sound(d, origins) && LinksFit(d, Rematerialize(d, sessions))
    ensures Sound(Rematerialize(d, sessions), origins)
    ensures InSync(d, origins) ==> InSync(Rematerialize(d, sessions), origins)
    ensures TopicsAgree(d) <==> TopicsAgree(Rematerialize(d, sessions))
    decreases |sessions|
  {
    if sessions != [] && sessions[0] in d.recordingDocs {
      var next := Materialize(d, sessions[0], d.recordingDocs[sessions[0]]);
      MaterializedIs(d, sessions[0], d.recordingDocs[sessions[0]]);
      RematerializedIs(next, sessions[1..]);
      MaterializeKeepsSync(d, origins, sessions[0], d.recordingDocs[sessions[0]]);
      RematerializeKeepsSync(next, origins, sessions[1..]);
    } else if sessions != [] {
      RematerializeKeepsSync(d, origins, sessions[1..]);
    }
  }

  lemma TopicAndWaitingKeepSyncIff(d: Device, origins: Origins, step: Step)
    requires step.SImportTopic? && Sound(d, origins) && Admissible(d, origins, step)
    ensures Sound(Take(d, step), origins)
    ensures InSync(d, origins) ==> (InSync(Take(d, step), origins) <==> !Breaks(d, step))
  {
    var next := ImportTopic(d, step.id, step.topicUpdate, step.upto, step.protect);
    ImportTopicKeepsSync(d, origins, step.id, step.topicUpdate, step.upto, step.protect);
    ImportTopicSparesLibraryDoc(d, step.id, step.topicUpdate, step.upto, step.protect);
    if TopicArrives(d, step.id, step.topicUpdate) { RematerializeKeepsSync(next, origins, step.sessions); }
    if InSync(d, origins) && Breaks(d, step) {
      TakenProfileShows(d, origins, step.id, step.topicUpdate, step.upto, step.protect);
    }
  }

  lemma FewerSpeakersShow(d: Device, session: string)
    requires LibraryAgrees(d)
    ensures LibraryAgrees(PurgeRows(d, session))
  {
    var d' := PurgeRows(d, session);
    assert d'.library.links == L.Shown(L.ReadLibrary(d.libraryDoc), d'.speakers.Keys).links;
  }

  lemma PurgeKeepsSync(d: Device, origins: Origins, session: string)
    requires Sound(d, origins)
    ensures Sound(PurgeRows(d, session), origins)
    ensures InSync(d, origins) ==> InSync(PurgeRows(d, session), origins)
  {
    OthersUntouched(d, PurgeRows(d, session), origins);
    if LibraryAgrees(d) { FewerSpeakersShow(d, session); }
  }

  lemma NewSpeakerShowsNothing(lib: L.Library, speakers: set<string>, speaker: string)
    requires speaker !in lib.links
    ensures L.Shown(lib, speakers + {speaker}) == L.Shown(lib, speakers)
  {
    assert L.Shown(lib, speakers + {speaker}).links == L.Shown(lib, speakers).links;
  }

  lemma AddSpeakerKeepsSync(d: Device, origins: Origins, speaker: string, session: string)
    requires Sound(d, origins) && Admissible(d, origins, SAddSpeaker(speaker, session))
    ensures Sound(AddSpeaker(d, speaker, session), origins)
    ensures InSync(d, origins) ==> InSync(AddSpeaker(d, speaker, session), origins)
  {
    var d' := AddSpeaker(d, speaker, session);
    OthersUntouched(d, d', origins);
    assert TablesSound(d', origins) by {
      assert forall s :: s in d.speakers.Keys ==> s in d'.speakers.Keys;
    }
    NewSpeakerShowsNothing(L.ReadLibrary(d.libraryDoc), d.speakers.Keys, speaker);
    assert d'.speakers.Keys == d.speakers.Keys + {speaker};
  }

  lemma InternalEditKeepsSync(d: Device, origins: Origins, id: string, topic: Topic)
    requires Sound(d, origins) && id in d.internal
    ensures Sound(EditTopic(d, id, topic), origins)
    ensures InSync(d, origins) ==> InSync(EditTopic(d, id, topic), origins)
  {
    var d' := EditTopic(d, id, topic);
    forall other {:trigger d'.topicDocs[other]} | other in d'.topicDocs ensures HasRows(d', other) {
      assert d.topicDocs[other] == DocOf(d, other);
      assert HasRows(d, other);
    }
    forall other {:trigger d'.topics[other]} | other in d'.topics && other !in d'.internal
      ensures Original(d'.topics[other], origins(other))
      ensures TopicScope(other) !in d'.pending ==> HasDoc(d', other) && (TopicsAgree(d) ==> TopicAgrees(d', other))
    {
      assert d.topics[other] == d'.topics[other];
      if TopicScope(other) !in d'.pending {
        StillHasDoc(d, d', other);
        if TopicsAgree(d) { StillAgrees(d, d', other); }
      }
    }
  }

  lemma EditTopicKeepsSync(d: Device, origins: Origins, id: string, topic: Topic)
    requires Sound(d, origins) && Admissible(d, origins, SEditTopic(id, topic))
    ensures Sound(EditTopic(d, id, topic), origins)
    ensures InSync(d, origins) ==> InSync(EditTopic(d, id, topic), origins)
  {
    var d' := EditTopic(d, id, topic);
    if id in d.internal {
      InternalEditKeepsSync(d, origins, id, topic);
    } else {
      UpdatedElsewhere(d.topics, id, topic);
      if id in d.topicDocs { GoodDocLater(d.topicDocs[id], d.clock, d'.clock, origins(id)); }
      OneTopicReplaced(d, d', origins, id);
    }
  }

  // ----------------------------------------------------------------- all runs

  /** One step keeps the device sound, and in line exactly when it is none of the two. */
  lemma TakeKeepsSyncIff(d: Device, origins: Origins, step: Step)
    requires Sound(d, origins) && Admissible(d, origins, step)
    ensures Sound(Take(d, step), origins)
    ensures InSync(d, origins) ==> (InSync(Take(d, step), origins) <==> !Breaks(d, step))
  {
    match step
    case SExport(scope, at) => ExportKeepsSync(d, origins, scope, at);
    case SImportTopic(_, _, _, _, _) => TopicAndWaitingKeepSyncIff(d, origins, step);
    case SImportLibrary(update, upto) => ImportLibraryKeepsSyncIff(d, origins, update, upto);
    case SImportRecording(session, facts, at) => ImportRecordingKeepsSync(d, origins, session, facts, at);
    case SEditTopic(id, topic) => EditTopicKeepsSync(d, origins, id, topic);
    case SAddSpeaker(speaker, session) => AddSpeakerKeepsSync(d, origins, speaker, session);
    case SPurgeRows(session) => PurgeKeepsSync(d, origins, session);
    case _ => OthersUntouched(d, Take(d, step), origins);
  }

  lemma ExportKeepsSync(d: Device, origins: Origins, scope: Scope, at: string)
    requires Sound(d, origins)
    ensures Sound(Export(d, scope, at), origins)
    ensures InSync(d, origins) ==> InSync(Export(d, scope, at), origins)
  {
    match scope
    case TopicScope(id) => ExportTopicKeepsSync(d, origins, id);
    case LibraryScope => ExportLibraryKeepsSync(d, origins);
    case RecordingScope(session) => ExportRecordingKeepsSync(d, origins, session, at);
  }

  /** Every reachable state is sound, whatever the imports of the run broke. */
  lemma {:induction false} RunStaysSound(d: Device, origins: Origins, steps: seq<Step>)
    requires Sound(d, origins) && AdmissibleRun(d, origins, steps)
    ensures Sound(RunSteps(d, steps), origins)
    decreases |steps|
  {
    if steps != [] {
      TakeKeepsSyncIff(d, origins, steps[0]);
      RunStaysSound(Take(d, steps[0]), origins, steps[1..]);
    }
  }

  /** No run leads to a state in which a merge loses an edit that is not exported
      yet, of a topic or of the library. */
  lemma NoEditIsLost(d: Device, origins: Origins, steps: seq<Step>, id: string, update: TopicDoc, key: TopicKey,
                     libraryUpdate: L.LibraryDoc, libraryKey: L.LibraryKey)
    requires Sound(d, origins) && AdmissibleRun(d, origins, steps)
    ensures var end := RunSteps(d, steps);
            && (TopicScope(id) in end.pending && id in end.topics && id !in end.internal && key in Cells(end.topics[id]) ==>
                  exists op :: op in Merged(end, id, update) && op.key == key && op.cell == Cells(end.topics[id])[key])
            && (LibraryScope in end.pending && libraryKey in Unsent(end) ==>
                  Wrote(ReadyLibrary(end).libraryDoc + libraryUpdate, libraryKey, Unsent(end)[libraryKey]))
  {
    RunStaysSound(d, origins, steps);
    var end := RunSteps(d, steps);
    if TopicScope(id) in end.pending && id in end.topics && id !in end.internal && key in Cells(end.topics[id]) {
      UnsentEditsSurvive(end, origins, id, update, key);
    }
    if LibraryScope in end.pending && libraryKey in Unsent(end) { LibraryCellIsWritten(end, libraryUpdate, libraryKey); }
  }

  /** After every committed step of a run whatever is not in the queue reads the
      same from the tables as from its document, exactly when no import of the run
      takes a profile away or strands a speaker. */
  lemma {:induction false} RunKeepsSyncIff(d: Device, origins: Origins, steps: seq<Step>)
    requires InSync(d, origins) && AdmissibleRun(d, origins, steps)
    ensures AlwaysInSync(d, origins, steps) <==> NeverBreaks(d, steps)
    ensures NeverBreaks(d, steps) ==> InSync(RunSteps(d, steps), origins)
    decreases |steps|
  {
    if steps != [] {
      TakeKeepsSyncIff(d, origins, steps[0]);
      if !Breaks(d, steps[0]) {
        RunKeepsSyncIff(Take(d, steps[0]), origins, steps[1..]);
      }
    }
  }

  /** Neither a topic nor the library waits to be exported. */
  ghost predicate Exported(d: Device) {
    LibraryScope !in d.pending && forall id :: TopicScope(id) !in d.pending
  }

  /** The same topics, people and, of the speakers both know, links. */
  ghost predicate ShowEqualFacts(x: Device, y: Device) {
    && (forall id :: id !in x.internal + y.internal ==>
          (id in x.topics <==> id in y.topics) && (id in x.topics ==> x.topics[id] == y.topics[id]))
    && x.library.participants == y.library.participants
    && (forall s :: s in x.speakers && s in y.speakers ==>
          (s in x.library.links <==> s in y.library.links)
          && (s in x.library.links ==> x.library.links[s] == y.library.links[s]))
    && (x.speakers.Keys == y.speakers.Keys ==> x.library == y.library)
  }

  lemma EqualDocumentsShowEqualTopics(x: Device, y: Device, origins: Origins, id: string)
    requires InSync(x, origins) && InSync(y, origins) && Exported(x)
    requires x.topicDocs == y.topicDocs && id in x.topics && id !in x.internal
    ensures id in y.topics && ReadTopic(DocOf(y, id)) == Some(x.topics[id])
  {
    assert TopicAgrees(x, id) by { assert x.topics[id] == x.topics[id]; }
    assert id in x.topicDocs by { if id !in x.topicDocs { NothingReadsAsNothing(); } }
    assert y.topicDocs[id] == DocOf(y, id) == DocOf(x, id);
    assert HasRows(y, id);
  }

  lemma NothingReadsAsNothing()
    ensures ReadTopic({}).None?
  {
  }

  /** Two devices in line with equal documents and nothing left to export have the
      same topics with the same contents, the same people, and the same link of
      every speaker they both know. */
  lemma EqualDocumentsShowEqualFacts(x: Device, y: Device, origins: Origins)
    requires InSync(x, origins) && InSync(y, origins) && Exported(x) && Exported(y)
    requires x.topicDocs == y.topicDocs && x.libraryDoc == y.libraryDoc
    ensures ShowEqualFacts(x, y)
  {
    forall id | id !in x.internal + y.internal
      ensures id in x.topics <==> id in y.topics
      ensures id in x.topics ==> x.topics[id] == y.topics[id]
    {
      if id in x.topics { EqualDocumentsShowEqualTopics(x, y, origins, id); }
      if id in y.topics { EqualDocumentsShowEqualTopics(y, x, origins, id); }
    }
  }

  /** So do two devices after any runs in which nothing breaks. */
  lemma EqualRunsShowEqualFacts(a: Device, b: Device, origins: Origins, stepsA: seq<Step>, stepsB: seq<Step>)
    requires InSync(a, origins) && AdmissibleRun(a, origins, stepsA) && NeverBreaks(a, stepsA)
    requires InSync(b, origins) && AdmissibleRun(b, origins, stepsB) && NeverBreaks(b, stepsB)
    requires Exported(RunSteps(a, stepsA)) && Exported(RunSteps(b, stepsB))
    requires RunSteps(a, stepsA).topicDocs == RunSteps(b, stepsB).topicDocs
    requires RunSteps(a, stepsA).libraryDoc == RunSteps(b, stepsB).libraryDoc
    ensures ShowEqualFacts(RunSteps(a, stepsA), RunSteps(b, stepsB))
  {
    RunKeepsSyncIff(a, origins, stepsA);
    RunKeepsSyncIff(b, origins, stepsB);
    EqualDocumentsShowEqualFacts(RunSteps(a, stepsA), RunSteps(b, stepsB), origins);
  }

  // --------------------------------------------------------------------- pump

  ghost function Pump(d: Device, scopes: seq<Scope>, at: string): Device
    decreases |scopes|
  {
    if scopes == [] then d else Pump(Export(d, scopes[0], at), scopes[1..], at)
  }

  /** A recording that is being captured or deleted keeps its place in the queue. */
  predicate Leaves(d: Device, scope: Scope) {
    scope.RecordingScope? ==> Exportable(d, scope.session)
  }

  /** Exporting queued scopes one by one takes exactly them off the queue, but for
      recordings that are being captured or deleted: once every scope had its
      turn, every topic and the library are in line with their documents. */
  lemma {:induction false} PumpDrainsQueue(d: Device, origins: Origins, scopes: seq<Scope>, at: string)
    requires Sound(d, origins)
    ensures Sound(Pump(d, scopes, at), origins) && (InSync(d, origins) ==> InSync(Pump(d, scopes, at), origins))
    ensures Pump(d, scopes, at).pending == d.pending - set scope | scope in scopes && Leaves(d, scope)
    ensures Pump(d, scopes, at).topics == d.topics && Pump(d, scopes, at).library == d.library
    ensures (forall scope :: scope in d.pending ==> scope in scopes) ==>
      && Exported(Pump(d, scopes, at))
      && (InSync(d, origins) ==> LibraryAgrees(Pump(d, scopes, at)) && TopicsAgree(Pump(d, scopes, at)))
    decreases |scopes|
  {
    if scopes != [] {
      var next := Export(d, scopes[0], at);
      ExportKeepsSync(d, origins, scopes[0], at);
      ExportTakesOff(d, scopes[0], at);
      PumpDrainsQueue(next, origins, scopes[1..], at);
      OneLess(d, next, scopes);
    }
  }

  lemma OneLess(d: Device, next: Device, scopes: seq<Scope>)
    requires scopes != [] && next.pending == (if Leaves(d, scopes[0]) then d.pending - {scopes[0]} else d.pending)
    requires next.capturing == d.capturing && next.purging == d.purging
    ensures next.pending - (set scope | scope in scopes[1..] && Leaves(next, scope))
         == d.pending - set scope | scope in scopes && Leaves(d, scope)
  {
    assert forall scope :: Leaves(next, scope) <==> Leaves(d, scope);
    assert forall scope :: scope in scopes <==> scope == scopes[0] || scope in scopes[1..];
  }

  lemma ExportTakesOff(d: Device, scope: Scope, at: string)
    ensures var d' := Export(d, scope, at);
            && d'.pending == (if Leaves(d, scope) then d.pending - {scope} else d.pending)
            && d'.topics == d.topics && d'.library == d.library && d'.capturing == d.capturing && d'.purging == d.purging
  {
    match scope
    case TopicScope(id) => ExportedElsewhere(d, id);
    case LibraryScope => ExportedLibraryIs(d);
    case RecordingScope(session) => ExportedRecordingIs(d, session, at);
  }

  lemma ExportedLibraryIs(d: Device)
    ensures var d' := ExportLibrary(d);
            && d'.pending == d.pending - {LibraryScope} && d'.topics == d.topics && d'.library == d.library
            && d'.recordings == d.recordings && d'.recordingDocs == d.recordingDocs
            && d'.capturing == d.capturing && d'.purging == d.purging
  {
  }

  lemma ExportedRecordingIs(d: Device, session: string, at: string)
    ensures var d' := ExportRecording(d, session, at);
            && d'.pending == (if Exportable(d, session) then d.pending - {RecordingScope(session)} else d.pending)
            && d'.topics == d.topics && d'.library == d.library && d'.recordings == d.recordings
            && d'.recordingDocs - {session} == d.recordingDocs - {session}
            && (!Exportable(d, session) ==> d' == d)
            && d'.capturing == d.capturing && d'.purging == d.purging
  {
    if Exportable(d, session) && session in d.recordings {
      UpdatedElsewhere(d.recordingDocs, session, Some(FactsOf(d, session)));
    }
  }

  // --------------------------------------------------------------- tombstones

  /** Deleted for good here: its tombstone is in the library document, or it is
      still queued for one. */
  ghost predicate Gone(d: Device, session: string) {
    && session !in d.recordings && session !in d.capturing
    && (L.Tombstoned(d.libraryDoc, session) || (RecordingScope(session) in d.pending && session in d.recordingDocs))
  }

  /** Deleting the rows of a recording that was ever exchanged. */
  lemma PurgedIsGone(d: Device, session: string)
    requires session in d.recordings && session !in d.capturing && session in d.recordingDocs
    ensures Gone(PurgeRows(d, session), session)
  {
  }

  /** The topic that a recording waited for arrives, while the deletion of the
      recording is over but not exported. */
  ghost predicate Revives(d: Device, step: Step, session: string) {
    && step.SImportTopic? && TopicArrives(d, step.id, step.topicUpdate)
    && session in d.waiting && d.waiting[session] == step.id && BringsAgain(d, session)
  }

  lemma ImportTopicSparesRecordings(d: Device, id: string, update: TopicDoc, upto: nat, protect: bool)
    ensures var d' := ImportTopic(d, id, update, upto, protect);
            && d'.libraryDoc == d.libraryDoc && d'.recordings == d.recordings && d'.recordingDocs == d.recordingDocs
            && d'.capturing == d.capturing && d'.purging == d.purging
            && (forall session :: RecordingScope(session) in d'.pending <==> RecordingScope(session) in d.pending)
  {
    ExportedElsewhere(d, id);
    ImportedElsewhere(d, id, update, upto, protect);
    forall session
      ensures RecordingScope(session) in ImportTopic(d, id, update, upto, protect).pending <==> RecordingScope(session) in d.pending
    {
      QueuedRecordingElsewhere(BeforeMerge(d, id), ImportTopic(d, id, update, upto, protect), id, session);
    }
  }

  lemma TopicStepKeepsGoneIff(d: Device, origins: Origins, step: Step, session: string)
    requires step.SImportTopic? && Admissible(d, origins, step) && Gone(d, session)
    ensures Gone(Take(d, step), session) <==> !Revives(d, step, session)
  {
    var next := ImportTopic(d, step.id, step.topicUpdate, step.upto, step.protect);
    ImportTopicSparesRecordings(d, step.id, step.topicUpdate, step.upto, step.protect);
    RematerializedIs(next, step.sessions);
  }

  lemma RecordingStepKeepsGone(d: Device, other: string, facts: Option<RecordingFacts>, at: string, session: string)
    requires LibraryDocSound(d) && Gone(d, session)
    ensures Gone(ImportRecording(d, other, facts, at), session)
  {
    ExportKeepsGone(d, RecordingScope(other), at, session);
    MaterializedIs(ReadyRecording(d, other, at), other, facts);
  }

  lemma StaysTombstoned(d: Device, d': Device, session: string)
    requires LibraryDocSound(d') && d.libraryDoc <= d'.libraryDoc
    ensures L.Tombstoned(d.libraryDoc, session) ==> L.Tombstoned(d'.libraryDoc, session)
  {
    if L.Tombstoned(d.libraryDoc, session) { L.TombstonesArePermanent(d.libraryDoc, d'.libraryDoc, session); }
  }

  lemma ExportKeepsLibraryDocSound(d: Device, scope: Scope, at: string)
    requires LibraryDocSound(d)
    ensures LibraryDocSound(Export(d, scope, at)) && d.libraryDoc <= Export(d, scope, at).libraryDoc
  {
    match scope
    case TopicScope(id) => ExportedElsewhere(d, id);
    case LibraryScope => LibraryWritten(d);
    case RecordingScope(session) => RecordingExported(d, session, at);
  }

  lemma LibraryDocSoundLater(d: Device, d': Device)
    requires LibraryDocSound(d) && d'.libraryDoc == d.libraryDoc && d'.clock >= d.clock
    ensures LibraryDocSound(d') && d.libraryDoc <= d'.libraryDoc
  {
  }

  lemma TopicStepKeepsLibraryDocSound(d: Device, step: Step)
    requires LibraryDocSound(d) && step.SImportTopic?
    ensures LibraryDocSound(Take(d, step)) && d.libraryDoc <= Take(d, step).libraryDoc
  {
    ExportedElsewhere(d, step.id);
    ImportedElsewhere(d, step.id, step.topicUpdate, step.upto, step.protect);
    RematerializedIs(ImportTopic(d, step.id, step.topicUpdate, step.upto, step.protect), step.sessions);
    LibraryDocSoundLater(d, Take(d, step));
  }

  lemma RecordingStepKeepsLibraryDocSound(d: Device, session: string, facts: Option<RecordingFacts>, at: string)
    requires LibraryDocSound(d)
    ensures LibraryDocSound(ImportRecording(d, session, facts, at)) && d.libraryDoc <= ImportRecording(d, session, facts, at).libraryDoc
  {
    ExportKeepsLibraryDocSound(d, RecordingScope(session), at);
    MaterializedIs(ReadyRecording(d, session, at), session, facts);
  }

  lemma LibraryStepKeepsLibraryDocSound(d: Device, update: L.LibraryDoc, upto: nat)
    requires LibraryDocSound(d) && MergeableLibrary(d, update, upto)
    ensures LibraryDocSound(ImportLibrary(d, update, upto)) && d.libraryDoc <= ImportLibrary(d, update, upto).libraryDoc
  {
    MergedLibraryIsSound(d, update, upto);
    JoinedIs(ReadyLibrary(d), ReadyLibrary(d).libraryDoc + update, upto);
  }

  /** Every step keeps the library document sound and only adds to it. */
  lemma TakeKeepsLibraryDocSound(d: Device, origins: Origins, step: Step)
    requires LibraryDocSound(d) && Admissible(d, origins, step)
    ensures LibraryDocSound(Take(d, step)) && d.libraryDoc <= Take(d, step).libraryDoc
  {
    match step
    case SExport(scope, at) => ExportKeepsLibraryDocSound(d, scope, at);
    case SImportTopic(_, _, _, _, _) => TopicStepKeepsLibraryDocSound(d, step);
    case SImportLibrary(update, upto) => LibraryStepKeepsLibraryDocSound(d, update, upto);
    case SImportRecording(session, facts, at) => RecordingStepKeepsLibraryDocSound(d, session, facts, at);
    case _ => LibraryDocSoundLater(d, Take(d, step));
  }

  /** An export never undoes a deletion, and that of the deleted recording writes
      its tombstone, unless the job of the deletion is still open. */
  lemma ExportKeepsGone(d: Device, scope: Scope, at: string, session: string)
    requires LibraryDocSound(d) && Gone(d, session)
    ensures Gone(Export(d, scope, at), session)
    ensures scope == RecordingScope(session) ==>
      L.Tombstoned(Export(d, scope, at).libraryDoc, session) || session in d.purging
  {
    ExportKeepsLibraryDocSound(d, scope, at);
    StaysTombstoned(d, Export(d, scope, at), session);
    match scope
    case TopicScope(id) => ExportedElsewhere(d, id);
    case LibraryScope => ExportedLibraryIs(d);
    case RecordingScope(other) =>
      ExportedRecordingIs(d, other, at);
      if other == session {
        RecordingExported(d, session, at);
      } else {
        SameElsewhere(d.recordingDocs, ExportRecording(d, other, at).recordingDocs, other, session);
      }
  }

  lemma LibraryStepKeepsGone(d: Device, update: L.LibraryDoc, upto: nat, session: string)
    requires LibraryDocSound(d) && MergeableLibrary(d, update, upto) && Gone(d, session)
    ensures Gone(ImportLibrary(d, update, upto), session)
  {
    LibraryStepKeepsLibraryDocSound(d, update, upto);
    StaysTombstoned(d, ImportLibrary(d, update, upto), session);
    ImportedLibrarySparesRecordings(d, update, upto);
  }

  lemma ImportedLibrarySparesRecordings(d: Device, update: L.LibraryDoc, upto: nat)
    ensures var d' := ImportLibrary(d, update, upto);
            && d'.recordings == d.recordings && d'.recordingDocs == d.recordingDocs && d'.capturing == d.capturing
            && (forall session :: RecordingScope(session) in d'.pending <==> RecordingScope(session) in d.pending)
  {
    ExportedLibraryIs(d);
    var ready := ReadyLibrary(d);
    JoinedIs(ready, ready.libraryDoc + update, upto);
  }

  /** One step keeps a recording gone exactly when it is not the arrival of the
      topic that the recording waited for. */
  lemma GoneStaysGoneIff(d: Device, origins: Origins, step: Step, session: string)
    requires LibraryDocSound(d) && Admissible(d, origins, step) && Gone(d, session)
    ensures Gone(Take(d, step), session) <==> !Revives(d, step, session)
  {
    match step
    case SExport(scope, at) => ExportKeepsGone(d, scope, at, session);
    case SImportTopic(_, _, _, _, _) => TopicStepKeepsGoneIff(d, origins, step, session);
    case SImportLibrary(update, upto) => LibraryStepKeepsGone(d, update, upto, session);
    case SImportRecording(other, facts, at) => RecordingStepKeepsGone(d, other, facts, at, session);
    case _ =>
  }

  ghost predicate AlwaysGone(d: Device, steps: seq<Step>, session: string)
    decreases |steps|
  {
    Gone(d, session) && (steps != [] ==> AlwaysGone(Take(d, steps[0]), steps[1..], session))
  }

  ghost predicate NeverRevived(d: Device, steps: seq<Step>, session: string)
    decreases |steps|
  {
    steps != [] ==> !Revives(d, steps[0], session) && NeverRevived(Take(d, steps[0]), steps[1..], session)
  }

  /** A recording deleted for good stays deleted through a run, whatever arrives
      and whether or not its tombstone is written yet, exactly when the topic it
      waited for never arrives before that tombstone. */
  lemma {:induction false} PurgedStaysPurgedIff(d: Device, origins: Origins, steps: seq<Step>, session: string)
    requires LibraryDocSound(d) && AdmissibleRun(d, origins, steps) && Gone(d, session)
    ensures AlwaysGone(d, steps, session) <==> NeverRevived(d, steps, session)
    decreases |steps|
  {
    if steps != [] {
      GoneStaysGoneIff(d, origins, steps[0], session);
      if !Revives(d, steps[0], session) {
        TakeKeepsLibraryDocSound(d, origins, steps[0]);
        PurgedStaysPurgedIff(Take(d, steps[0]), origins, steps[1..], session);
      }
    }
  }

  /** Once the tombstone is written nothing brings the recording back. */
  lemma {:induction false} TombstonedStaysPurged(d: Device, origins: Origins, steps: seq<Step>, session: string)
    requires LibraryDocSound(d) && AdmissibleRun(d, origins, steps)
    requires Gone(d, session) && L.Tombstoned(d.libraryDoc, session)
    ensures Gone(RunSteps(d, steps), session) && L.Tombstoned(RunSteps(d, steps).libraryDoc, session)
    decreases |steps|
  {
    if steps != [] {
      var next := Take(d, steps[0]);
      TakeKeepsLibraryDocSound(d, origins, steps[0]);
      StaysTombstoned(d, next, session);
      GoneStaysGoneIff(d, origins, steps[0], session);
      TombstonedStaysPurged(next, origins, steps[1..], session);
    }
  }

  lemma ImportTopicSparesLibraryDoc(d: Device, id: string, update: TopicDoc, upto: nat, protect: bool)
    ensures ImportTopic(d, id, update, upto, protect).libraryDoc == d.libraryDoc
  {
    ImportTopicSparesRecordings(d, id, update, upto, protect);
  }
}
