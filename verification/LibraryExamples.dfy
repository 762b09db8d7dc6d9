/**
 Devices and updates for which the synchronised library does not keep its
 promises, for any names and contents.
 */
module LibraryExamples {
  import opened Wrappers
  import opened LoroMap
  import opened TopicFacts
  import opened LibrarySync
  import opened LibraryRuns
  import L = LibraryFacts

  ghost function OriginsOf(notebook: NotebookRow): Origins {
    (id: string) => Origin((tab: string) => "", notebook.createdAt)
  }

  function NewDevice(): Device {
    Device({}, 1, 0, {}, map[], map[], L.Library(map[], map[]), map[], {}, map[], map[], map[], {}, {})
  }

  function NotebookWrite(notebook: NotebookRow, peer: nat): Op<TopicKey, TopicRow> {
    Op(NotebookKey, Stamp(0, peer), Row(NotebookText(notebook)))
  }

  lemma NoLibraryAgrees(d: Device)
    requires d.libraryDoc == {} && d.library == L.Library(map[], map[])
    ensures LibraryAgrees(d) && forall session :: !L.Tombstoned(d.libraryDoc, session)
  {
    EmptyShowsNothing(d.speakers.Keys);
  }

  // ------------------------------------------------------ a profile taken away

  function ProfileWrite(profile: string): Op<TopicKey, TopicRow> {
    Op(ProfileKey, Stamp(0, 1), Row(Text(profile)))
  }

  /** A topic that has a profile, and its document says so. */
  function WithProfile(id: string, notebook: NotebookRow, profile: string): Device {
    NewDevice().(clock := 1, topics := map[id := Topic(notebook, map[], Some(profile))],
                 topicDocs := map[id := {NotebookWrite(notebook, 1), ProfileWrite(profile)}])
  }

  /** Another device with the same topic, from a copied database, that never had a
      profile and has not exported yet. */
  function Copied(id: string, notebook: NotebookRow): Device {
    NewDevice().(peer := 2, topics := map[id := Topic(notebook, map[], None)], pending := {TopicScope(id)})
  }

  function NoProfileWrite(): Op<TopicKey, TopicRow> { Op(ProfileKey, Stamp(0, 2), Null) }

  /** What it exports first. */
  function FirstExport(notebook: NotebookRow): TopicDoc { {NotebookWrite(notebook, 2), NoProfileWrite()} }

  lemma FirstWrite<K(!new), V(!new)>(a: K, x: Cell<V>, b: K, y: Cell<V>, stamp: Stamp)
    requires a != b && x != Absent && y != Absent
    ensures Write({}, map[a := x, b := y], stamp) == {Op(a, stamp, x), Op(b, stamp, y)}
  {
    var doc: Doc<K, V> := {};
    assert Read(doc, a) == Absent && Read(doc, b) == Absent;
    forall op ensures op in Write(doc, map[a := x, b := y], stamp) <==> op in {Op(a, stamp, x), Op(b, stamp, y)} {}
  }

  lemma CopiedExports(id: string, notebook: NotebookRow)
    ensures ExportTopic(Copied(id, notebook), id).topicDocs == map[id := FirstExport(notebook)]
  {
    var row: Cell<TopicRow> := Row(NotebookText(notebook));
    assert Cells(Topic(notebook, map[], None)) == map[NotebookKey := row, ProfileKey := Null];
    FirstWrite(NotebookKey, row, ProfileKey, Null, Stamp(0, 2));
  }

  lemma ProfileReads(id: string, notebook: NotebookRow, profile: string)
    ensures var d := WithProfile(id, notebook, profile);
            && ReadTopic(DocOf(d, id)) == Some(Topic(notebook, map[], Some(profile))) && TabIds(DocOf(d, id)) == {}
            && ReadTopic(Merged(d, id, FirstExport(notebook))) == Some(Topic(notebook, map[], None))
  {
    var d := WithProfile(id, notebook, profile);
    var doc, merged := DocOf(d, id), Merged(d, id, FirstExport(notebook));
    var row, was, row2, taken := NotebookWrite(notebook, 1), ProfileWrite(profile), NotebookWrite(notebook, 2), NoProfileWrite();
    assert doc == {row, was} && merged == {row, was, row2, taken};
    assert IsLatest(doc, row) && IsLatest(doc, was) && IsLatest(merged, row2) && IsLatest(merged, taken);
    ReadIs(doc, row);
    ReadIs(doc, was);
    ReadIs(merged, row2);
    ReadIs(merged, taken);
    assert TabIds(doc) == {} && TabIds(merged) == {};
  }

  lemma ProfileDocIsGood(notebook: NotebookRow, profile: string, id: string)
    ensures GoodDoc({NotebookWrite(notebook, 1), ProfileWrite(profile)}, 1, OriginsOf(notebook)(id))
  {
  }

  lemma ProfileIsInSync(id: string, notebook: NotebookRow, profile: string)
    ensures InSync(WithProfile(id, notebook, profile), OriginsOf(notebook))
  {
    var d := WithProfile(id, notebook, profile);
    ProfileReads(id, notebook, profile);
    NoLibraryAgrees(d);
    ProfileDocIsGood(notebook, profile, id);
    assert d.topicDocs[id] == DocOf(d, id);
    assert TopicAgrees(d, id) && HasRows(d, id) && HasDoc(d, id);
    assert forall other :: other in d.topics ==> other == id;
  }

  lemma FirstExportIsMergeable(id: string, notebook: NotebookRow, profile: string)
    ensures Mergeable(WithProfile(id, notebook, profile), OriginsOf(notebook), id, FirstExport(notebook), 1)
  {
    assert Merged(WithProfile(id, notebook, profile), id, FirstExport(notebook))
        == {NotebookWrite(notebook, 1), ProfileWrite(profile), NotebookWrite(notebook, 2), NoProfileWrite()};
  }

  lemma FirstExportArrives(id: string, notebook: NotebookRow, profile: string)
    ensures TopicArrives(WithProfile(id, notebook, profile), id, FirstExport(notebook))
    ensures !KeepsProfile(WithProfile(id, notebook, profile), id, FirstExport(notebook))
  {
    var d := WithProfile(id, notebook, profile);
    ProfileReads(id, notebook, profile);
    assert NotebookWrite(notebook, 2) in Merged(d, id, FirstExport(notebook)) && NotebookWrite(notebook, 2) !in DocOf(d, id);
  }

  /** The first export of a device that has the topic without a profile takes the
      profile out of the document and leaves it in the rows; nothing is queued
      that would repair it. */
  lemma ProfileIsTakenAway(id: string, notebook: NotebookRow, profile: string)
    ensures ExportTopic(Copied(id, notebook), id).topicDocs == map[id := FirstExport(notebook)]
    ensures var d, origins, update := WithProfile(id, notebook, profile), OriginsOf(notebook), FirstExport(notebook);
            var d' := ImportTopic(d, id, update, 1, false);
            && InSync(d, origins) && Mergeable(d, origins, id, update, 1) && !KeepsProfile(d, id, update)
            && TopicScope(id) !in d'.pending && !TopicAgrees(d', id)
            && d'.topics[id].profile == Some(profile) && ReadTopic(DocOf(d', id)) == Some(Topic(notebook, map[], None))
  {
    var d, update := WithProfile(id, notebook, profile), FirstExport(notebook);
    CopiedExports(id, notebook);
    ProfileReads(id, notebook, profile);
    ProfileIsInSync(id, notebook, profile);
    FirstExportIsMergeable(id, notebook, profile);
    FirstExportArrives(id, notebook, profile);
    ImportTopicAgreesIff(d, OriginsOf(notebook), id, update, 1, false);
    ImportedIs(d, id, update, 1, false);
  }

  // --------------------------------------------- a deletion that is taken back

  /** What a recording of a topic says that is not here yet. */
  function Early(topic: string): Option<RecordingFacts> { Some(RecordingFacts(Some(topic), {})) }

  function Parked(session: string, topic: string): Device {
    NewDevice().(recordings := map[session := None], recordingDocs := map[session := Early(topic)],
                 waiting := map[session := topic])
  }

  function Deleted(session: string, topic: string): Device {
    NewDevice().(pending := {RecordingScope(session)}, recordingDocs := map[session := Early(topic)],
                 waiting := map[session := topic])
  }

  function Deletion(session: string, topic: string): seq<Step> {
    [SImportRecording(session, Early(topic), ""), SBeginPurge(session), SPurgeRows(session), SEndPurge(session)]
  }

  function Arrival(session: string, topic: string, notebook: NotebookRow): Step {
    SImportTopic(topic, {NotebookWrite(notebook, 2)}, 1, false, [session])
  }

  lemma NewDeviceIsInSync(origins: Origins)
    ensures InSync(NewDevice(), origins)
  {
    NoLibraryAgrees(NewDevice());
  }

  lemma RecordingParks(session: string, topic: string)
    ensures ImportRecording(NewDevice(), session, Early(topic), "") == Parked(session, topic)
  {
    NoLibraryAgrees(NewDevice());
  }

  lemma RecordingIsDeleted(session: string, topic: string)
    ensures EndPurge(PurgeRows(BeginPurge(Parked(session, topic), session), session), session) == Deleted(session, topic)
  {
  }

  lemma RunOne(d: Device, origins: Origins, step: Step, rest: seq<Step>)
    ensures RunSteps(d, [step] + rest) == RunSteps(Take(d, step), rest)
    ensures AdmissibleRun(d, origins, [step] + rest)
       <==> Admissible(d, origins, step) && AdmissibleRun(Take(d, step), origins, rest)
  {
    assert ([step] + rest)[1..] == rest;
  }

  lemma RunTwo(d: Device, origins: Origins, s0: Step, s1: Step, rest: seq<Step>)
    requires Admissible(d, origins, s0) && Admissible(Take(d, s0), origins, s1)
    ensures RunSteps(d, [s0, s1] + rest) == RunSteps(Take(Take(d, s0), s1), rest)
    ensures AdmissibleRun(Take(Take(d, s0), s1), origins, rest) ==> AdmissibleRun(d, origins, [s0, s1] + rest)
  {
    RunOne(d, origins, s0, [s1] + rest);
    RunOne(Take(d, s0), origins, s1, rest);
    assert [s0, s1] + rest == [s0] + ([s1] + rest);
  }

  lemma RunFour(d: Device, origins: Origins, s0: Step, s1: Step, s2: Step, s3: Step)
    requires Admissible(d, origins, s0) && Admissible(Take(d, s0), origins, s1)
    requires Admissible(Take(Take(d, s0), s1), origins, s2) && Admissible(Take(Take(Take(d, s0), s1), s2), origins, s3)
    ensures RunSteps(d, [s0, s1, s2, s3]) == Take(Take(Take(Take(d, s0), s1), s2), s3)
    ensures AdmissibleRun(d, origins, [s0, s1, s2, s3])
  {
    RunTwo(d, origins, s0, s1, [s2, s3]);
    RunTwo(Take(Take(d, s0), s1), origins, s2, s3, []);
    assert [s0, s1, s2, s3] == [s0, s1] + [s2, s3] && [s2, s3] == [s2, s3] + [];
  }

  lemma ParkingIsAdmissible(session: string, topic: string, origins: Origins)
    ensures Admissible(NewDevice(), origins, SImportRecording(session, Early(topic), ""))
  {
    RecordingParks(session, topic);
  }

  lemma PurgeIsAdmissible(session: string, topic: string, origins: Origins)
    ensures var parked := Parked(session, topic);
            var begun := BeginPurge(parked, session);
            && Admissible(parked, origins, SBeginPurge(session)) && Admissible(begun, origins, SPurgeRows(session))
            && Admissible(PurgeRows(begun, session), origins, SEndPurge(session))
  {
  }

  lemma DeletionRuns(session: string, topic: string, origins: Origins)
    ensures AdmissibleRun(NewDevice(), origins, Deletion(session, topic))
    ensures RunSteps(NewDevice(), Deletion(session, topic)) == Deleted(session, topic)
  {
    RecordingParks(session, topic);
    RecordingIsDeleted(session, topic);
    ParkingIsAdmissible(session, topic, origins);
    PurgeIsAdmissible(session, topic, origins);
    RunFour(NewDevice(), origins, SImportRecording(session, Early(topic), ""), SBeginPurge(session), SPurgeRows(session), SEndPurge(session));
  }

  lemma TopicOf(d: Device, topic: string, notebook: NotebookRow)
    requires topic !in d.topicDocs && TopicScope(topic) !in d.pending
    ensures ReadTopic(Merged(d, topic, {NotebookWrite(notebook, 2)})) == Some(Topic(notebook, map[], None))
    ensures TopicArrives(d, topic, {NotebookWrite(notebook, 2)})
  {
    var doc: TopicDoc := {NotebookWrite(notebook, 2)};
    assert Merged(d, topic, doc) == doc;
    assert IsLatest(doc, NotebookWrite(notebook, 2));
    ReadIs(doc, NotebookWrite(notebook, 2));
    assert TabIds(doc) == {};
  }

  lemma ArrivalIsAdmissible(session: string, topic: string, notebook: NotebookRow)
    ensures Admissible(Deleted(session, topic), OriginsOf(notebook), Arrival(session, topic, notebook))
  {
    var d := Deleted(session, topic);
    TopicOf(d, topic, notebook);
    NoLibraryAgrees(d);
    assert Merged(d, topic, {NotebookWrite(notebook, 2)}) == {NotebookWrite(notebook, 2)};
    assert L.ReadLibrary(d.libraryDoc) == L.Library(map[], map[]);
  }

  /** A recording arrives before its topic and is deleted for good; before the
      deletion is exported its topic arrives. The recording is back, and no trace
      of the deletion is left. */
  lemma DeletionIsTakenBack(session: string, topic: string, notebook: NotebookRow)
    ensures var d, origins := NewDevice(), OriginsOf(notebook);
            var deleted := RunSteps(d, Deletion(session, topic));
            var d' := Take(deleted, Arrival(session, topic, notebook));
            && InSync(d, origins) && AdmissibleRun(d, origins, Deletion(session, topic))
            && Gone(deleted, session) && Admissible(deleted, origins, Arrival(session, topic, notebook))
            && session in d'.recordings && RecordingScope(session) !in d'.pending && !L.Tombstoned(d'.libraryDoc, session)
  {
    var origins, deleted, step := OriginsOf(notebook), Deleted(session, topic), Arrival(session, topic, notebook);
    NewDeviceIsInSync(origins);
    DeletionRuns(session, topic, origins);
    ArrivalIsAdmissible(session, topic, notebook);
    NoLibraryAgrees(deleted);
    TopicOf(deleted, topic, notebook);
    ImportTopicSparesRecordings(deleted, topic, step.topicUpdate, step.upto, step.protect);
    RematerializedIs(ImportTopic(deleted, topic, step.topicUpdate, step.upto, step.protect), step.sessions);
  }

  lemma SpeakerIsAdmissible(session: string, topic: string, notebook: NotebookRow, speaker: string)
    ensures var d, origins := Parked(session, topic), OriginsOf(notebook);
            && Admissible(d, origins, SAddSpeaker(speaker, session))
            && Admissible(AddSpeaker(d, speaker, session), origins, Arrival(session, topic, notebook))
  {
    var d := AddSpeaker(Parked(session, topic), speaker, session);
    TopicOf(d, topic, notebook);
    NoLibraryAgrees(d);
    assert Merged(d, topic, {NotebookWrite(notebook, 2)}) == {NotebookWrite(notebook, 2)};
    assert L.ReadLibrary({}) == L.Library(map[], map[]);
  }

  lemma SpeakerRuns(session: string, topic: string, notebook: NotebookRow, speaker: string)
    ensures var d, steps := NewDevice(), [SImportRecording(session, Early(topic), ""), SAddSpeaker(speaker, session)];
            && AdmissibleRun(d, OriginsOf(notebook), steps)
            && RunSteps(d, steps) == AddSpeaker(Parked(session, topic), speaker, session)
  {
    RecordingParks(session, topic);
    ParkingIsAdmissible(session, topic, OriginsOf(notebook));
    SpeakerIsAdmissible(session, topic, notebook, speaker);
    var steps := [SImportRecording(session, Early(topic), ""), SAddSpeaker(speaker, session)];
    RunTwo(NewDevice(), OriginsOf(notebook), steps[0], steps[1], []);
    assert steps + [] == steps;
  }

  /** A recording arrives before its topic and gets a speaker here; before that is
      exported its topic arrives. The speaker stays here, is in no document, and
      is not queued any more. */
  lemma UnsentSpeakerIsDropped(session: string, topic: string, notebook: NotebookRow, speaker: string)
    ensures var start, origins := NewDevice(), OriginsOf(notebook);
            var steps := [SImportRecording(session, Early(topic), ""), SAddSpeaker(speaker, session)];
            var d := RunSteps(start, steps);
            var d' := Take(d, Arrival(session, topic, notebook));
            && InSync(start, origins) && AdmissibleRun(start, origins, steps)
            && Admissible(d, origins, Arrival(session, topic, notebook))
            && RecordingScope(session) in d.pending && speaker in d'.speakers
            && RecordingScope(session) !in d'.pending && d'.recordingDocs == map[session := Early(topic)]
  {
    NewDeviceIsInSync(OriginsOf(notebook));
    SpeakerRuns(session, topic, notebook, speaker);
    SpeakerIsAdmissible(session, topic, notebook, speaker);
    var d, step := AddSpeaker(Parked(session, topic), speaker, session), Arrival(session, topic, notebook);
    NoLibraryAgrees(d);
    TopicOf(d, topic, notebook);
    ImportedElsewhere(d, topic, step.topicUpdate, step.upto, step.protect);
    ImportTopicSparesRecordings(d, topic, step.topicUpdate, step.upto, step.protect);
    RematerializedIs(ImportTopic(d, topic, step.topicUpdate, step.upto, step.protect), step.sessions);
  }
}
