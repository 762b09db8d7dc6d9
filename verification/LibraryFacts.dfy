/**
 The facts of a library: its people, which speaker is which person, and the
 tombstones of recordings deleted for good.
 */
module LibraryFacts {
  import opened Wrappers
  import opened LoroMap

  datatype Link = Link(session: string, participant: string, at: string)

  datatype Library = Library(participants: map<string, string>, links: map<string, Link>)

  datatype LibraryKey = ParticipantKey(id: string) | LinkKey(speaker: string) | PurgedKey(session: string)

  datatype LibraryRow = Text(text: string) | LinkRow(link: Link)

  type LibraryDoc = Doc<LibraryKey, LibraryRow>

  /** What the writers of a library document put in it; a tombstone is never
      withdrawn. */
  ghost predicate WellFormedLibrary(doc: LibraryDoc) {
    forall op :: op in doc ==> WellFormedOp(op)
  }

  predicate WellFormedOp(op: Op<LibraryKey, LibraryRow>) {
    match op.key
    case ParticipantKey(_) => op.cell == Absent || (op.cell.Row? && op.cell.row.Text?)
    case LinkKey(_) => op.cell == Absent || (op.cell.Row? && op.cell.row.LinkRow?)
    case PurgedKey(_) => op.cell.Row? && op.cell.row.Text?
  }

  /** The foreign keys of the speakers table: a linked speaker and the person it
      is linked to are both here. */
  predicate ReferencesHold(tables: Library, speakers: set<string>) {
    forall s :: s in tables.links ==> s in speakers && tables.links[s].participant in tables.participants
  }

  // ---------------------------------------------------- document to facts

  ghost function PersonText(doc: LibraryDoc, id: string): Option<string> {
    var cell: Cell<LibraryRow> := Read(doc, ParticipantKey(id));
    if cell.Row? && cell.row.Text? then Some(cell.row.text) else None
  }

  ghost function LinkOf(doc: LibraryDoc, speaker: string): Option<Link> {
    var cell: Cell<LibraryRow> := Read(doc, LinkKey(speaker));
    if cell.Row? && cell.row.LinkRow? then Some(cell.row.link) else None
  }

  ghost function ReadLibrary(doc: LibraryDoc): Library {
    Library(map op | op in doc && op.key.ParticipantKey? && PersonText(doc, op.key.id).Some?
              :: op.key.id := PersonText(doc, op.key.id).value,
            map op | op in doc && op.key.LinkKey? && LinkOf(doc, op.key.speaker).Some?
              :: op.key.speaker := LinkOf(doc, op.key.speaker).value)
  }

  lemma ReadLibraryIs(doc: LibraryDoc)
    requires WellStamped(doc)
    ensures forall id :: id in ReadLibrary(doc).participants <==> PersonText(doc, id).Some?
    ensures forall id :: id in ReadLibrary(doc).participants ==> ReadLibrary(doc).participants[id] == PersonText(doc, id).value
    ensures forall s :: s in ReadLibrary(doc).links <==> LinkOf(doc, s).Some?
    ensures forall s :: s in ReadLibrary(doc).links ==> ReadLibrary(doc).links[s] == LinkOf(doc, s).value
  {
    forall id | PersonText(doc, id).Some? ensures id in ReadLibrary(doc).participants {
      ReadComesFromOp(doc, ParticipantKey(id));
    }
    forall s | LinkOf(doc, s).Some? ensures s in ReadLibrary(doc).links {
      ReadComesFromOp(doc, LinkKey(s));
    }
  }

  /** Reads every person and then every link that the document mentions. */
  method ReadRows(doc: LibraryDoc) returns (lib: Library)
    requires WellStamped(doc)
    ensures lib == ReadLibrary(doc)
  {
    var people := ReadPeople(doc);
    var links := ReadLinks(doc);
    lib := Library(people, links);
  }

  method ReadPeople(doc: LibraryDoc) returns (people: map<string, string>)
    requires WellStamped(doc)
    ensures people == ReadLibrary(doc).participants
  {
    people := map[];
    var ids := set op | op in doc && op.key.ParticipantKey? :: op.key.id;
    var rest := ids;
    while rest != {}
      invariant rest <= ids
      invariant people == map id | id in ids && id !in rest && PersonText(doc, id).Some? :: PersonText(doc, id).value
      decreases rest
    {
      var id :| id in rest;
      var cell: Cell<LibraryRow> := Get(doc, ParticipantKey(id));
      if cell.Row? && cell.row.Text? {
        people := people[id := cell.row.text];
      }
      rest := rest - {id};
    }
    assert people == map id | id in ids && PersonText(doc, id).Some? :: PersonText(doc, id).value;
  }

  method ReadLinks(doc: LibraryDoc) returns (links: map<string, Link>)
    requires WellStamped(doc)
    ensures links == ReadLibrary(doc).links
  {
    links := map[];
    var ids := set op | op in doc && op.key.LinkKey? :: op.key.speaker;
    var rest := ids;
    while rest != {}
      invariant rest <= ids
      invariant links == map s | s in ids && s !in rest && LinkOf(doc, s).Some? :: LinkOf(doc, s).value
      decreases rest
    {
      var s :| s in rest;
      var cell: Cell<LibraryRow> := Get(doc, LinkKey(s));
      if cell.Row? && cell.row.LinkRow? {
        links := links[s := cell.row.link];
      }
      rest := rest - {s};
    }
    assert links == map s | s in ids && LinkOf(doc, s).Some? :: LinkOf(doc, s).value;
  }

  /** Both ends of a link are here. */
  predicate Applicable(participants: map<string, string>, speakers: set<string>, speaker: string, link: Link) {
    speaker in speakers && link.participant in participants
  }

  /** What of a library a device with these speakers can show. */
  function Shown(lib: Library, speakers: set<string>): Library {
    Library(lib.participants,
            map s | s in lib.links && Applicable(lib.participants, speakers, s, lib.links[s]) :: lib.links[s])
  }

  // ---------------------------------------------------- facts to document

  /** People that are gone are deleted; a link that is gone is deleted only if it
      could have been here. */
  function CellFor(there: Library, tables: Library, speakers: set<string>, key: LibraryKey): Option<Cell<LibraryRow>> {
    match key
    case ParticipantKey(id) =>
      Some(if id in tables.participants then Row(Text(tables.participants[id])) else Absent)
    case LinkKey(s) =>
      if s in tables.links then Some(Row(LinkRow(tables.links[s])))
      else if s in there.links && Applicable(tables.participants, speakers, s, there.links[s]) then Some(Absent)
      else None
    case PurgedKey(_) => None
  }

  function KeysOf(there: Library, tables: Library): set<LibraryKey> {
    (set id | id in there.participants.Keys + tables.participants.Keys :: ParticipantKey(id))
    + (set s | s in there.links.Keys + tables.links.Keys :: LinkKey(s))
  }

  function LibraryCells(there: Library, tables: Library, speakers: set<string>): map<LibraryKey, Cell<LibraryRow>> {
    map key | key in KeysOf(there, tables) && CellFor(there, tables, speakers, key).Some?
      :: CellFor(there, tables, speakers, key).value
  }

  ghost function WriteLibrary(doc: LibraryDoc, tables: Library, speakers: set<string>, stamp: Stamp): LibraryDoc {
    Write(doc, LibraryCells(ReadLibrary(doc), tables, speakers), stamp)
  }

  lemma WriteLibraryStaysWellFormed(doc: LibraryDoc, tables: Library, speakers: set<string>, stamp: Stamp)
    requires WellFormedLibrary(doc)
    ensures WellFormedLibrary(WriteLibrary(doc, tables, speakers, stamp))
  {
    var there := ReadLibrary(doc);
    var cells := LibraryCells(there, tables, speakers);
    forall op | op in WriteLibrary(doc, tables, speakers, stamp) ensures WellFormedOp(op) {
      if op !in doc {
        assert op.key in cells && op.cell == cells[op.key] == CellFor(there, tables, speakers, op.key).value;
      }
    }
  }

  lemma PersonAfterWrite(doc: LibraryDoc, tables: Library, speakers: set<string>, stamp: Stamp, id: string)
    requires WellStamped(doc) && StampedBelow(doc, stamp.lamport)
    ensures PersonText(WriteLibrary(doc, tables, speakers, stamp), id)
         == if id in tables.participants then Some(tables.participants[id]) else None
  {
    var there := ReadLibrary(doc);
    ReadLibraryIs(doc);
    ReadAfterWrite(doc, LibraryCells(there, tables, speakers), stamp, ParticipantKey(id));
    if id !in tables.participants && id !in there.participants {
      assert ParticipantKey(id) !in KeysOf(there, tables);
    } else {
      assert ParticipantKey(id) in KeysOf(there, tables);
    }
  }

  /** What a link reads as after an export: what was written, if anything was. */
  lemma LinkRead(doc: LibraryDoc, tables: Library, speakers: set<string>, stamp: Stamp, s: string)
    requires WellStamped(doc) && StampedBelow(doc, stamp.lamport)
    ensures var cell := if s in tables.links || s in ReadLibrary(doc).links then CellFor(ReadLibrary(doc), tables, speakers, LinkKey(s)) else None;
            Read(WriteLibrary(doc, tables, speakers, stamp), LinkKey(s)) == match cell case Some(c) => c case None => Read(doc, LinkKey(s))
  {
    var there := ReadLibrary(doc);
    ReadAfterWrite(doc, LibraryCells(there, tables, speakers), stamp, LinkKey(s));
    assert LinkKey(s) in KeysOf(there, tables) <==> s in tables.links || s in there.links;
  }

  lemma LinkAfterWrite(doc: LibraryDoc, tables: Library, speakers: set<string>, stamp: Stamp, s: string)
    requires WellStamped(doc) && StampedBelow(doc, stamp.lamport)
    ensures var after := LinkOf(WriteLibrary(doc, tables, speakers, stamp), s);
            if s in tables.links then after == Some(tables.links[s])
            else if after.Some? then after == LinkOf(doc, s) && !Applicable(tables.participants, speakers, s, after.value)
            else LinkOf(doc, s).Some? ==> Applicable(tables.participants, speakers, s, LinkOf(doc, s).value)
  {
    ReadLibraryIs(doc);
    LinkRead(doc, tables, speakers, stamp, s);
  }

  lemma ShownIs(lib: Library, tables: Library, speakers: set<string>)
    requires lib.participants == tables.participants && ReferencesHold(tables, speakers)
    requires forall s :: s in tables.links ==> s in lib.links && lib.links[s] == tables.links[s]
    requires forall s :: s in lib.links && s !in tables.links ==> !Applicable(tables.participants, speakers, s, lib.links[s])
    ensures Shown(lib, speakers) == tables
  {
    assert Shown(lib, speakers).links == tables.links;
  }

  lemma PeopleAfterWrite(doc: LibraryDoc, tables: Library, speakers: set<string>, stamp: Stamp)
    requires WellStamped(doc) && StampedBelow(doc, stamp.lamport)
    ensures ReadLibrary(WriteLibrary(doc, tables, speakers, stamp)).participants == tables.participants
  {
    var doc' := WriteLibrary(doc, tables, speakers, stamp);
    ReadAfterWrite(doc, LibraryCells(ReadLibrary(doc), tables, speakers), stamp, PurgedKey(""));
    ReadLibraryIs(doc');
    var people := ReadLibrary(doc').participants;
    forall id
      ensures id in people <==> id in tables.participants
      ensures id in people ==> people[id] == tables.participants[id]
    {
      PersonAfterWrite(doc, tables, speakers, stamp, id);
    }
  }

  /** After an export the document's people are the tables' people, and its links
      are the tables' links plus only such links as could not be here: the
      document shows the tables. */
  lemma ReadAfterWriteLibrary(doc: LibraryDoc, tables: Library, speakers: set<string>, stamp: Stamp)
    requires WellStamped(doc) && StampedBelow(doc, stamp.lamport)
    requires ReferencesHold(tables, speakers)
    ensures Shown(ReadLibrary(WriteLibrary(doc, tables, speakers, stamp)), speakers) == tables
  {
    var doc' := WriteLibrary(doc, tables, speakers, stamp);
    var back := ReadLibrary(doc');
    ReadAfterWrite(doc, LibraryCells(ReadLibrary(doc), tables, speakers), stamp, PurgedKey(""));
    PeopleAfterWrite(doc, tables, speakers, stamp);
    ReadLibraryIs(doc');
    forall s
      ensures s in tables.links ==> s in back.links && back.links[s] == tables.links[s]
      ensures s in back.links && s !in tables.links ==> !Applicable(tables.participants, speakers, s, back.links[s])
    {
      LinkAfterWrite(doc, tables, speakers, stamp, s);
    }
    ShownIs(back, tables, speakers);
  }

  // -------------------------------------------------------------- applying

  /** People follow the document exactly. A link follows it when both ends are
      here; a speaker whose link in the document has lost its person keeps the
      link it had, if that person is still here. */
  function ApplyLibrary(tables: Library, speakers: set<string>, lib: Library): Library {
    Library(lib.participants,
            map s | s in speakers && s in lib.links
                    && (lib.links[s].participant in lib.participants
                        || (s in tables.links && tables.links[s].participant in lib.participants))
              :: if lib.links[s].participant in lib.participants then lib.links[s] else tables.links[s])
  }

  /** A speaker here whose document link points at nobody, while its own link
      still points at somebody. */
  predicate Stranded(tables: Library, speakers: set<string>, lib: Library, speaker: string) {
    && speaker in speakers && speaker in lib.links && lib.links[speaker].participant !in lib.participants
    && speaker in tables.links && tables.links[speaker].participant in lib.participants
  }

  /** After an import the tables show the document exactly when no speaker is
      stranded. */
  lemma ApplyLibraryAgreesIff(tables: Library, speakers: set<string>, lib: Library)
    ensures ReferencesHold(ApplyLibrary(tables, speakers, lib), speakers)
    ensures ApplyLibrary(tables, speakers, lib) == Shown(lib, speakers)
       <==> forall s :: !Stranded(tables, speakers, lib, s)
  {
    var applied, shown := ApplyLibrary(tables, speakers, lib), Shown(lib, speakers);
    if s :| Stranded(tables, speakers, lib, s) {
      assert s in applied.links && s !in shown.links;
    } else {
      forall s ensures s in applied.links <==> s in shown.links {
        assert !Stranded(tables, speakers, lib, s);
      }
      assert applied.links == shown.links;
    }
  }

  /** One device links a speaker to Ann; another links it to Bob while a third
      deletes Bob. The document says Bob, who is nobody; the first device goes on
      showing Ann, which no other device does. */
  lemma StrandedLinkExample()
    ensures var here := Library(map["ann" := "Ann"], map["s" := Link("rec", "ann", "t1")]);
            var merged := Library(map["ann" := "Ann"], map["s" := Link("rec", "bob", "t2")]);
            && ReferencesHold(here, {"s"})
            && "s" in ApplyLibrary(here, {"s"}, merged).links
            && "s" !in ApplyLibrary(Library(map["ann" := "Ann"], map[]), {"s"}, merged).links
  {
  }

  // ------------------------------------------- links that ride a recording

  /** Applying one recording re-applies the links of its own speakers: the
      document's where it can, and a speaker the document does not link is
      unlinked. */
  function ApplySessionLinks(tables: Library, speakers: map<string, string>, lib: Library, session: string): Library {
    tables.(links :=
      map s | s in speakers && SessionLink(tables, speakers, lib, session, s).Some?
        :: SessionLink(tables, speakers, lib, session, s).value)
  }

  function SessionLink(tables: Library, speakers: map<string, string>, lib: Library, session: string, s: string): Option<Link>
    requires s in speakers
  {
    if s in lib.links && lib.links[s].session == session && lib.links[s].participant in tables.participants then Some(lib.links[s])
    else if s in tables.links && (speakers[s] != session || s in lib.links) then Some(tables.links[s])
    else None
  }

  /** A link names the recording its speaker belongs to. */
  predicate LinksOwnSession(lib: Library, speakers: map<string, string>) {
    forall s :: s in lib.links && s in speakers ==> lib.links[s].session == speakers[s]
  }

  /** The document has the tables' link of a speaker, or shows none where they have none. */
  predicate LinkKept(tables: Library, speakers: set<string>, lib: Library, s: string) {
    if s in tables.links then
      s in lib.links && (Applicable(tables.participants, speakers, s, lib.links[s]) ==> tables.links[s] == lib.links[s])
    else s in lib.links ==> !Applicable(tables.participants, speakers, s, lib.links[s])
  }

  /** Re-applying the links of a recording leaves the tables' links alone exactly
      when the document already has each of them and shows no other for that
      recording. */
  lemma SessionLinksKeptIff(tables: Library, speakers: map<string, string>, lib: Library, session: string)
    requires ReferencesHold(tables, speakers.Keys) && LinksOwnSession(lib, speakers)
    ensures ApplySessionLinks(tables, speakers, lib, session) == tables
       <==> forall s :: s in speakers && speakers[s] == session ==> LinkKept(tables, speakers.Keys, lib, s)
  {
    var applied := ApplySessionLinks(tables, speakers, lib, session);
    if s :| s in speakers && speakers[s] == session && !LinkKept(tables, speakers.Keys, lib, s) {
      assert s in applied.links <==> SessionLink(tables, speakers, lib, session, s).Some?;
    } else {
      forall s
        ensures s in applied.links <==> s in tables.links
        ensures s in applied.links ==> applied.links[s] == tables.links[s]
      {
      }
      assert applied.links == tables.links;
    }
  }

  /** Somebody links a speaker here; before that link reaches the document, an
      update of the same recording arrives. The link is gone. */
  lemma UnsentLinkIsLost()
    ensures var here := Library(map["ann" := "Ann"], map["s" := Link("rec", "ann", "t1")]);
            && ReferencesHold(here, {"s"})
            && "s" !in ApplySessionLinks(here, map["s" := "rec"], Library(map["ann" := "Ann"], map[]), "rec").links
  {
  }

  // ------------------------------------------------------------ tombstones

  ghost predicate Tombstoned(doc: LibraryDoc, session: string) {
    var cell: Cell<LibraryRow> := Read(doc, PurgedKey(session));
    cell.Row?
  }

  ghost function AddTombstone(doc: LibraryDoc, session: string, at: string, stamp: Stamp): LibraryDoc {
    if Tombstoned(doc, session) then doc else Write(doc, map[PurgedKey(session) := Row(Text(at))], stamp)
  }

  lemma TombstonedIff(doc: LibraryDoc, session: string)
    requires WellStamped(doc) && WellFormedLibrary(doc)
    ensures Tombstoned(doc, session) <==> exists op :: op in doc && op.key == PurgedKey(session)
  {
    ReadComesFromOp(doc, PurgedKey(session));
  }

  /** No merge and no later write takes a tombstone back. */
  lemma TombstonesArePermanent(doc: LibraryDoc, later: LibraryDoc, session: string)
    requires WellStamped(later) && WellFormedLibrary(later) && doc <= later
    requires Tombstoned(doc, session)
    ensures Tombstoned(later, session)
  {
    assert WellStamped(doc);
    forall op | op in doc ensures op in later {}
    assert WellFormedLibrary(doc);
    TombstonedIff(doc, session);
    TombstonedIff(later, session);
  }

  lemma SameReadings(a: LibraryDoc, b: LibraryDoc)
    requires WellStamped(a) && WellStamped(b)
    requires forall id :: PersonText(a, id) == PersonText(b, id)
    requires forall s :: LinkOf(a, s) == LinkOf(b, s)
    ensures ReadLibrary(a) == ReadLibrary(b)
  {
    ReadLibraryIs(a);
    ReadLibraryIs(b);
    assert ReadLibrary(a).participants == ReadLibrary(b).participants;
    assert ReadLibrary(a).links == ReadLibrary(b).links;
  }

  lemma TombstoneIsAdded(doc: LibraryDoc, session: string, at: string, stamp: Stamp)
    requires WellStamped(doc) && WellFormedLibrary(doc) && StampedBelow(doc, stamp.lamport)
    ensures var doc' := AddTombstone(doc, session, at, stamp);
            && doc <= doc' && WellStamped(doc') && WellFormedLibrary(doc') && StampedBelow(doc', stamp.lamport + 1)
            && Tombstoned(doc', session) && ReadLibrary(doc') == ReadLibrary(doc)
  {
    if !Tombstoned(doc, session) {
      var cells: map<LibraryKey, Cell<LibraryRow>> := map[PurgedKey(session) := Row(Text(at))];
      var doc' := Write(doc, cells, stamp);
      ReadAfterWrite(doc, cells, stamp, PurgedKey(session));
      forall op | op in doc' ensures WellFormedOp(op) {}
      forall id ensures PersonText(doc', id) == PersonText(doc, id) { ReadAfterWrite(doc, cells, stamp, ParticipantKey(id)); }
      forall s ensures LinkOf(doc', s) == LinkOf(doc, s) { ReadAfterWrite(doc, cells, stamp, LinkKey(s)); }
      SameReadings(doc', doc);
    }
  }
}
