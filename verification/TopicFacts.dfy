/**
 The facts of one topic: as rows of the local tables, as cells of its document,
 and the two directions between them.
 */
module TopicFacts {
  import opened Wrappers
  import opened LoroMap

  datatype NotebookRow = NotebookRow(title: string, createdAt: string, deletedAt: Option<string>)

  datatype Topic = Topic(notebook: NotebookRow, tabs: map<string, string>, profile: Option<string>)

  datatype TopicKey = NotebookKey | ProfileKey | TabKey(id: string)

  datatype TopicRow = NotebookText(notebook: NotebookRow) | Text(text: string)

  type TopicDoc = Doc<TopicKey, TopicRow>

  /** Tab rows and creation times are written once, when a topic is created, and
      are the same on every device: `tab` and `created` name them. */
  datatype Origin = Origin(tab: string -> string, created: string)

  /** What the writers of a topic document may ever have put in it. */
  ghost predicate WellFormed(doc: TopicDoc, origin: Origin) {
    forall op {:trigger op in doc} :: op in doc ==>
      match op.key
      case NotebookKey => op.cell.Row? && op.cell.row.NotebookText? && op.cell.row.notebook.createdAt == origin.created
      case ProfileKey => op.cell == Null || (op.cell.Row? && op.cell.row.Text?)
      case TabKey(id) => op.cell == Row(Text(origin.tab(id)))
  }

  ghost predicate Original(t: Topic, origin: Origin) {
    && t.notebook.createdAt == origin.created
    && forall id :: id in t.tabs ==> t.tabs[id] == origin.tab(id)
  }

  // ---------------------------------------------------- tables to document

  function Cells(t: Topic): map<TopicKey, Cell<TopicRow>> {
    map[NotebookKey := Row(NotebookText(t.notebook)),
        ProfileKey := match t.profile case None => Null case Some(p) => Row(Text(p))]
    + map id | id in t.tabs :: TabKey(id) := Row(Text(t.tabs[id]))
  }

  /** Writes what differs and deletes nothing. */
  ghost function WriteTopic(doc: TopicDoc, t: Topic, stamp: Stamp): TopicDoc {
    Write(doc, Cells(t), stamp)
  }

  // ---------------------------------------------------- document to tables

  function TabIds(doc: TopicDoc): set<string> {
    set op | op in doc && op.key.TabKey? :: op.key.id
  }

  /** A document whose notebook row has not arrived yet reads as nothing. */
  ghost function ReadTopic(doc: TopicDoc): Option<Topic> {
    var notebook: Cell<TopicRow> := Read(doc, NotebookKey);
    var profile: Cell<TopicRow> := Read(doc, ProfileKey);
    if notebook.Row? && notebook.row.NotebookText? then
      Some(Topic(notebook.row.notebook,
                 map id | id in TabIds(doc) && TabText(doc, id).Some? :: TabText(doc, id).value,
                 if profile.Row? && profile.row.Text? then Some(profile.row.text) else None))
    else None
  }

  ghost function TabText(doc: TopicDoc, id: string): Option<string> {
    var cell: Cell<TopicRow> := Read(doc, TabKey(id));
    if cell.Row? && cell.row.Text? then Some(cell.row.text) else None
  }

  /** The rows a topic has after a document was applied to them: an existing
      topic takes the title and the deletion, never a tab it already has, and a
      profile only if the document names one. */
  function ApplyTopic(local: Option<Topic>, t: Topic): Topic {
    match local
    case None => t
    case Some(cur) =>
      Topic(cur.notebook.(title := t.notebook.title, deletedAt := t.notebook.deletedAt),
            t.tabs + cur.tabs,
            match t.profile case None => cur.profile case Some(p) => Some(p))
  }

  // -------------------------------------------------------------- the laws

  lemma CellsAt(t: Topic, key: TopicKey)
    ensures key in Cells(t) <==> !key.TabKey? || key.id in t.tabs
    ensures key.TabKey? && key.id in t.tabs ==> Cells(t)[key] == Row(Text(t.tabs[key.id]))
  {
  }

  lemma TabIdsAfterWrite(doc: TopicDoc, t: Topic, stamp: Stamp)
    requires WellStamped(doc) && StampedBelow(doc, stamp.lamport)
    ensures TabIds(WriteTopic(doc, t, stamp)) == TabIds(doc) + t.tabs.Keys
  {
    var doc' := WriteTopic(doc, t, stamp);
    forall id | id in t.tabs ensures id in TabIds(doc') {
      CellsAt(t, TabKey(id));
      WrittenCellsAreOps(doc, Cells(t), stamp, TabKey(id));
      var op :| op in doc' && op.key == TabKey(id);
    }
    forall id | id in TabIds(doc) ensures id in TabIds(doc') {
      var op :| op in doc && op.key == TabKey(id);
      assert op in doc';
    }
    forall id | id in TabIds(doc') ensures id in TabIds(doc) + t.tabs.Keys {
      var op :| op in doc' && op.key == TabKey(id);
      if op !in doc { CellsAt(t, op.key); }
    }
  }

  lemma WriteStaysWellFormed(doc: TopicDoc, t: Topic, stamp: Stamp, origin: Origin)
    requires WellFormed(doc, origin) && Original(t, origin)
    ensures WellFormed(WriteTopic(doc, t, stamp), origin)
  {
    var doc' := WriteTopic(doc, t, stamp);
    forall op {:trigger op in doc'} | op in doc' && op !in doc
      ensures match op.key
              case NotebookKey => op.cell.Row? && op.cell.row.NotebookText? && op.cell.row.notebook.createdAt == origin.created
              case ProfileKey => op.cell == Null || (op.cell.Row? && op.cell.row.Text?)
              case TabKey(id) => op.cell == Row(Text(origin.tab(id)))
    {
      assert op.key in Cells(t) && op.cell == Cells(t)[op.key];
      CellsAt(t, op.key);
    }
  }

  lemma ReadBackNotebook(doc: TopicDoc, t: Topic, stamp: Stamp)
    requires WellStamped(doc) && StampedBelow(doc, stamp.lamport)
    ensures var back := ReadTopic(WriteTopic(doc, t, stamp));
            back.Some? && back.value.notebook == t.notebook && back.value.profile == t.profile
  {
    ReadAfterWrite(doc, Cells(t), stamp, NotebookKey);
    ReadAfterWrite(doc, Cells(t), stamp, ProfileKey);
    assert NotebookKey in Cells(t) && ProfileKey in Cells(t);
  }

  lemma ReadBackTabs(doc: TopicDoc, t: Topic, stamp: Stamp, origin: Origin)
    requires WellStamped(doc) && StampedBelow(doc, stamp.lamport) && WellFormed(doc, origin) && Original(t, origin)
    requires ReadTopic(WriteTopic(doc, t, stamp)).Some?
    ensures var back := ReadTopic(WriteTopic(doc, t, stamp)).value;
            back.tabs.Keys == TabIds(doc) + t.tabs.Keys && forall id :: id in t.tabs ==> back.tabs[id] == t.tabs[id]
  {
    ReadAfterWrite(doc, Cells(t), stamp, NotebookKey);
    TabIdsAfterWrite(doc, t, stamp);
    WriteStaysWellFormed(doc, t, stamp, origin);
    ReadTopicIs(WriteTopic(doc, t, stamp), origin);
  }

  lemma SameTopicIff(back: Topic, t: Topic, more: set<string>)
    requires back.notebook == t.notebook && back.profile == t.profile
    requires back.tabs.Keys == more + t.tabs.Keys && forall id :: id in t.tabs ==> back.tabs[id] == t.tabs[id]
    ensures back == t <==> more <= t.tabs.Keys
  {
    if more <= t.tabs.Keys {
      assert back.tabs.Keys == t.tabs.Keys;
      assert back.tabs == t.tabs;
    }
  }

  /** Reading back what was written gives the tables' topic, plus whatever tabs
      only the document had: exactly the tables' topic when there are none. */
  lemma ReadAfterWriteTopic(doc: TopicDoc, t: Topic, stamp: Stamp, origin: Origin)
    requires WellStamped(doc) && StampedBelow(doc, stamp.lamport) && WellFormed(doc, origin) && Original(t, origin)
    ensures ReadTopic(WriteTopic(doc, t, stamp)).Some?
    ensures var back := ReadTopic(WriteTopic(doc, t, stamp)).value;
            && back.notebook == t.notebook && back.profile == t.profile
            && back.tabs.Keys == TabIds(doc) + t.tabs.Keys
            && (forall id :: id in t.tabs ==> back.tabs[id] == t.tabs[id])
            && (back == t <==> TabIds(doc) <= t.tabs.Keys)
  {
    ReadBackNotebook(doc, t, stamp);
    ReadBackTabs(doc, t, stamp, origin);
    SameTopicIff(ReadTopic(WriteTopic(doc, t, stamp)).value, t, TabIds(doc));
  }

  lemma ReadTab(doc: TopicDoc, id: string, origin: Origin)
    requires WellStamped(doc) && WellFormed(doc, origin) && id in TabIds(doc)
    ensures Read(doc, TabKey(id)) == Row(Text(origin.tab(id)))
  {
    var op :| op in doc && op.key == TabKey(id);
    ReadComesFromOp(doc, TabKey(id));
  }

  /** What a well-formed document reads as. */
  lemma ReadTopicIs(doc: TopicDoc, origin: Origin)
    requires WellStamped(doc) && WellFormed(doc, origin)
    ensures ReadTopic(doc).Some? <==> exists op :: op in doc && op.key == NotebookKey
    ensures ReadTopic(doc).Some? ==>
      Original(ReadTopic(doc).value, origin) && ReadTopic(doc).value.tabs.Keys == TabIds(doc)
  {
    ReadComesFromOp(doc, NotebookKey);
    forall id | id in TabIds(doc) ensures Read(doc, TabKey(id)) == Row(Text(origin.tab(id))) {
      ReadTab(doc, id, origin);
    }
  }

  /** Applying a document's topic leaves the tables reading exactly like it if and
      only if the tables had no tab it lacks and it does not take a profile away. */
  lemma ApplyTopicAgreesIff(cur: Topic, t: Topic, origin: Origin)
    requires Original(cur, origin) && Original(t, origin)
    ensures Original(ApplyTopic(Some(cur), t), origin)
    ensures ApplyTopic(Some(cur), t) == t
       <==> cur.tabs.Keys <= t.tabs.Keys && (t.profile.None? ==> cur.profile.None?)
  {
    var applied := ApplyTopic(Some(cur), t);
    assert applied.tabs.Keys == t.tabs.Keys + cur.tabs.Keys;
    if cur.tabs.Keys <= t.tabs.Keys {
      assert applied.tabs == t.tabs;
    }
  }

  /** Reads the notebook row, then every tab the document mentions. */
  method ReadRows(doc: TopicDoc) returns (topic: Option<Topic>)
    requires WellStamped(doc)
    ensures topic == ReadTopic(doc)
  {
    var notebook: Cell<TopicRow> := Get(doc, NotebookKey);
    if !(notebook.Row? && notebook.row.NotebookText?) {
      return None;
    }
    var tabs: map<string, string> := map[];
    var rest := TabIds(doc);
    while rest != {}
      invariant rest <= TabIds(doc)
      invariant tabs == map id | id in TabIds(doc) && id !in rest && TabText(doc, id).Some? :: TabText(doc, id).value
      decreases rest
    {
      var id :| id in rest;
      var cell: Cell<TopicRow> := Get(doc, TabKey(id));
      if cell.Row? && cell.row.Text? {
        tabs := tabs[id := cell.row.text];
      }
      rest := rest - {id};
    }
    assert tabs == map id | id in TabIds(doc) && TabText(doc, id).Some? :: TabText(doc, id).value;
    var profile: Cell<TopicRow> := Get(doc, ProfileKey);
    topic := Some(Topic(notebook.row.notebook, tabs, if profile.Row? && profile.row.Text? then Some(profile.row.text) else None));
  }
}
