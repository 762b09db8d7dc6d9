/**
 Moving the audio files of the old flat layout into their sessions' directories,
 in whatever order the directory lists them and however often the process dies.
 */
module AudioLayout {
  import opened Wrappers
  import opened LittleEndian
  import opened AudioNames

  /** The files at the root of the data directory, those of the sessions' audio
      directories by session and name, and any other recorded place. */
  datatype Disk = Disk(root: map<string, seq<byte>>, audio: map<(string, string), seq<byte>>,
                       elsewhere: map<string, seq<byte>>)

  predicate Moves(disk: Disk, failing: set<string>, name: string) {
    && name in disk.root && name !in failing
    && Classify(name).Some? && Classify(name).value !in disk.audio
  }

  /** One directory entry. `failing` are the files that cannot be moved this time. */
  function MoveOne(disk: Disk, failing: set<string>, name: string): Disk {
    if Moves(disk, failing, name)
    then Disk(disk.root - {name}, disk.audio[Classify(name).value := disk.root[name]], disk.elsewhere)
    else disk
  }

  function MoveEach(disk: Disk, failing: set<string>, entries: seq<string>): Disk {
    if entries == [] then disk
    else MoveOne(MoveEach(disk, failing, entries[..|entries| - 1]), failing, entries[|entries| - 1])
  }

  // --------------------------------------------------- what the moves come to

  function Moved(disk: Disk, failing: set<string>): set<string> {
    set name | name in disk.root && Moves(disk, failing, name)
  }

  function Arrived(disk: Disk, failing: set<string>): set<(string, string)> {
    set name | name in Moved(disk, failing) :: Classify(name).value
  }

  /** Every file that can be moved is at its destination; nothing else changed. */
  function Settled(disk: Disk, failing: set<string>): Disk {
    Disk(disk.root - Moved(disk, failing),
         map d | d in disk.audio.Keys + Arrived(disk, failing) :: ContentOf(disk, d),
         disk.elsewhere)
  }

  /** What a place in the audio directories holds, or what would arrive there. */
  function ContentOf(disk: Disk, d: (string, string)): seq<byte> {
    if d in disk.audio then disk.audio[d]
    else if LegacyName(d.0, d.1) in disk.root then disk.root[LegacyName(d.0, d.1)]
    else []
  }

  /** A file arrives once, under its own name, with its own content. */
  lemma ArrivedIs(disk: Disk, failing: set<string>, name: string)
    requires Classify(name).Some? && name in disk.root
    ensures Classify(name).value in Arrived(disk, failing) <==> name in Moved(disk, failing)
    ensures name in Moved(disk, failing) ==>
              && Classify(name).value in Settled(disk, failing).audio
              && Settled(disk, failing).audio[Classify(name).value] == disk.root[name]
  {
    if Classify(name).value in Arrived(disk, failing) {
      var other :| other in Moved(disk, failing) && Classify(other).value == Classify(name).value;
      DestinationsDiffer(other, name);
    }
    ClassifyInverts(name);
  }

  lemma SameMovesSettleAlike(disk: Disk, f: set<string>, g: set<string>)
    requires Moved(disk, f) == Moved(disk, g)
    ensures Settled(disk, f) == Settled(disk, g)
  {
  }

  lemma OneMoreArrival(disk: Disk, left: set<string>, fewer: set<string>, name: string)
    requires Moved(disk, fewer) == Moved(disk, left) + {name}
    ensures Arrived(disk, fewer) == Arrived(disk, left) + {Classify(name).value}
  {
    assert name in Moved(disk, fewer);
  }

  lemma OneMoreInAudio(disk: Disk, left: set<string>, fewer: set<string>, name: string)
    requires Moved(disk, fewer) == Moved(disk, left) + {name} && name !in Moved(disk, left)
    ensures Settled(disk, left).audio[Classify(name).value := disk.root[name]] == Settled(disk, fewer).audio
  {
    var d := Classify(name).value;
    assert name in Moved(disk, fewer);
    OneMoreArrival(disk, left, fewer, name);
    ClassifyInverts(name);
    assert ContentOf(disk, d) == disk.root[name];
  }

  lemma OneMoreMove(disk: Disk, left: set<string>, fewer: set<string>, name: string)
    requires Moved(disk, fewer) == Moved(disk, left) + {name} && name !in Moved(disk, left)
    ensures var before := Settled(disk, left);
            && before.root - {name} == Settled(disk, fewer).root
            && before.audio[Classify(name).value := disk.root[name]] == Settled(disk, fewer).audio
  {
    assert name in Moved(disk, fewer);
    OneMoreInAudio(disk, left, fewer, name);
    assert Settled(disk, left).root - {name} == Settled(disk, fewer).root;
  }

  lemma SettleOne(disk: Disk, failing: set<string>, left: set<string>, name: string)
    requires failing <= left
    ensures MoveOne(Settled(disk, left), failing, name)
         == Settled(disk, if name in failing then left else left - {name})
  {
    var fewer := if name in failing then left else left - {name};
    if name in disk.root && Classify(name).Some? {
      ArrivedIs(disk, left, name);
    }
    if Moves(disk, fewer, name) && name in left {
      assert Moved(disk, fewer) == Moved(disk, left) + {name};
      OneMoreMove(disk, left, fewer, name);
    } else {
      assert Moved(disk, fewer) == Moved(disk, left);
      SameMovesSettleAlike(disk, left, fewer);
    }
  }

  function Names(entries: seq<string>): set<string> { set i | 0 <= i < |entries| :: entries[i] }

  /** Moving some entries settles the disk as if all the others could not be moved. */
  lemma {:induction false} MovesAreSettled(disk: Disk, failing: set<string>, entries: seq<string>)
    ensures MoveEach(disk, failing, entries) == Settled(disk, failing + (disk.root.Keys - Names(entries)))
  {
    if entries == [] {
      assert Moved(disk, failing + disk.root.Keys) == {};
      assert disk.root.Keys - Names(entries) == disk.root.Keys;
      assert Settled(disk, failing + disk.root.Keys) == disk;
    } else {
      var front, name := entries[..|entries| - 1], entries[|entries| - 1];
      MovesAreSettled(disk, failing, front);
      var left := failing + (disk.root.Keys - Names(front));
      SettleOne(disk, failing, left, name);
      assert Names(entries) == Names(front) + {name} by {
        assert forall i :: 0 <= i < |front| ==> entries[i] == front[i];
        assert entries[|entries| - 1] == name;
      }
      var fewer := failing + (disk.root.Keys - Names(entries));
      assert fewer == if name in failing then left else left - {name};
    }
  }

  /** The order in which the directory lists its files does not matter. */
  lemma OrderDoesNotMatter(disk: Disk, failing: set<string>, entries: seq<string>)
    requires Names(entries) == disk.root.Keys
    ensures MoveEach(disk, failing, entries) == Settled(disk, failing)
  {
    MovesAreSettled(disk, failing, entries);
    assert failing + (disk.root.Keys - Names(entries)) == failing;
  }

  /** No content is overwritten, lost or invented. */
  lemma NothingIsLost(disk: Disk, failing: set<string>)
    ensures var after := Settled(disk, failing);
            && (forall d :: d in disk.audio ==> d in after.audio && after.audio[d] == disk.audio[d])
            && (forall name :: name in disk.root ==>
                  (name in after.root && after.root[name] == disk.root[name])
                  || (Classify(name).Some? && Classify(name).value !in disk.audio
                      && Classify(name).value in after.audio
                      && after.audio[Classify(name).value] == disk.root[name]))
            && (forall d :: d in after.audio && d !in disk.audio ==>
                  exists name :: name in Moved(disk, failing) && Classify(name) == Some(d))
            && after.elsewhere == disk.elsewhere
  {
    forall name | name in Moved(disk, failing)
      ensures Classify(name).value in Settled(disk, failing).audio
      ensures Settled(disk, failing).audio[Classify(name).value] == disk.root[name]
    {
      ArrivedIs(disk, failing, name);
    }
  }

  lemma MovedTwice(disk: Disk, f: set<string>, g: set<string>)
    ensures Moved(Settled(disk, f), g) == Moved(disk, f * g) - Moved(disk, f)
  {
    var once := Settled(disk, f);
    forall name | name in disk.root && Classify(name).Some?
      ensures name in Moved(once, g) <==> name in Moved(disk, f * g) - Moved(disk, f)
    {
      ArrivedIs(disk, f, name);
    }
  }

  lemma ArrivedTwice(disk: Disk, f: set<string>, g: set<string>)
    ensures Arrived(disk, f * g) == Arrived(disk, f) + Arrived(Settled(disk, f), g)
  {
    MovedTwice(disk, f, g);
    var all := Arrived(disk, f * g);
    forall name | name in Moved(disk, f) ensures Classify(name).value in all {
      assert name in Moved(disk, f * g);
    }
  }

  lemma TwiceContent(disk: Disk, f: set<string>, g: set<string>, d: (string, string))
    requires d in Settled(disk, f).audio || d in Arrived(Settled(disk, f), g)
    ensures ContentOf(Settled(disk, f), d) == ContentOf(disk, d)
  {
    var once := Settled(disk, f);
    if d !in once.audio {
      var name :| name in Moved(once, g) && Classify(name).value == d;
      ClassifyInverts(name);
    }
  }

  lemma AudioTwice(disk: Disk, f: set<string>, g: set<string>)
    ensures Settled(Settled(disk, f), g).audio == Settled(disk, f * g).audio
  {
    var once, both := Settled(disk, f), Settled(disk, f * g);
    var twice := Settled(once, g);
    ArrivedTwice(disk, f, g);
    assert twice.audio.Keys == both.audio.Keys;
    forall d | d in both.audio ensures twice.audio[d] == both.audio[d] {
      TwiceContent(disk, f, g, d);
    }
  }

  /** Settling twice moves what either pass can move. */
  lemma SettledTwice(disk: Disk, f: set<string>, g: set<string>)
    ensures Settled(Settled(disk, f), g) == Settled(disk, f * g)
  {
    AudioTwice(disk, f, g);
    MovedTwice(disk, f, g);
    assert Moved(disk, f) <= Moved(disk, f * g);
    assert Settled(Settled(disk, f), g).root == Settled(disk, f * g).root;
  }

  // ------------------------------------------------------------- recorded paths

  datatype Path = InRoot(name: string) | InAudio(owner: string, file: string) | Elsewhere(path: string)

  /** A recorded path and the session that recorded it. */
  datatype Row = Row(session: string, path: Path)

  function ContentAt(disk: Disk, path: Path): Option<seq<byte>> {
    match path
    case InRoot(name) => if name in disk.root then Some(disk.root[name]) else None
    case InAudio(owner, file) => if (owner, file) in disk.audio then Some(disk.audio[(owner, file)]) else None
    case Elsewhere(p) => if p in disk.elsewhere then Some(disk.elsewhere[p]) else None
  }

  /** A legacy path of the row's own session, once its new place exists. */
  function RepairRow(disk: Disk, row: Row): Row {
    if row.path.InRoot? && Classify(row.path.name).Some? && Classify(row.path.name).value.0 == row.session
       && Classify(row.path.name).value in disk.audio
    then row.(path := InAudio(row.session, Classify(row.path.name).value.1))
    else row
  }

  function RepairRows(disk: Disk, rows: seq<Row>): (repaired: seq<Row>)
    ensures |repaired| == |rows|
  {
    seq(|rows|, i requires 0 <= i < |rows| => RepairRow(disk, rows[i]))
  }

  /** A row names the same audio after a launch as before, unless its file was moved
      for another session, or a different file was already at the new place. */
  lemma RowKeepsItsAudioIff(disk: Disk, failing: set<string>, row: Row)
    requires ContentAt(disk, row.path).Some?
    ensures var after := Settled(disk, failing);
            ContentAt(after, RepairRow(after, row).path) == ContentAt(disk, row.path)
            <==> (row.path.InRoot? && Classify(row.path.name).Some? ==>
                    var (owner, file) := Classify(row.path.name).value;
                    if (owner, file) in disk.audio
                    then owner != row.session || disk.audio[(owner, file)] == disk.root[row.path.name]
                    else owner == row.session || row.path.name in failing)
  {
    if row.path.InRoot? && Classify(row.path.name).Some? {
      ArrivedIs(disk, failing, row.path.name);
    }
  }

  /** A row that named a file still names one, exactly unless its file was moved for
      another session. */
  lemma RowStillExistsIff(disk: Disk, failing: set<string>, row: Row)
    requires ContentAt(disk, row.path).Some?
    ensures var after := Settled(disk, failing);
            ContentAt(after, RepairRow(after, row).path).Some?
            <==> !(row.path.InRoot? && Moves(disk, failing, row.path.name)
                   && Classify(row.path.name).value.0 != row.session)
  {
    if row.path.InRoot? && Classify(row.path.name).Some? {
      ArrivedIs(disk, failing, row.path.name);
    }
  }

  /** A row of one session that recorded another session's file loses it. */
  lemma MisfiledRowLosesAudio(owner: string, session: string, index: string, content: seq<byte>)
    requires IsPathComponent(owner) && '.' !in owner && IsIndex(index) && session != owner
    ensures var name := owner + CHUNK + index + ".enc";
            var disk, row := Disk(map[name := content], map[], map[]), Row(session, InRoot(name));
            && ContentAt(disk, row.path) == Some(content)
            && ContentAt(Settled(disk, {}), RepairRow(Settled(disk, {}), row).path) == None
  {
    var name := owner + CHUNK + index + ".enc";
    var disk := Disk(map[name := content], map[], map[]);
    DotlessGoHome(owner);
    ChunkGoesHomeIff(owner, index);
    ArrivedIs(disk, {}, name);
  }

  /** A row whose file is gone is changed only if the file is at its new place. */
  lemma LostRowsAreLeft(disk: Disk, failing: set<string>, row: Row)
    requires ContentAt(disk, row.path).None?
    ensures var after := Settled(disk, failing);
            RepairRow(after, row) == row || ContentAt(after, RepairRow(after, row).path).Some?
  {
  }

  /** One launch after another comes to the launch in which everything either could
      move is moved; so does a launch after one that died, after any of its moves,
      before the rows were repaired. */
  lemma LaunchesConverge(disk: Disk, rows: seq<Row>, f: set<string>, g: set<string>)
    ensures Settled(Settled(disk, f), g) == Settled(disk, f * g)
    ensures RepairRows(Settled(disk, f * g), RepairRows(Settled(disk, f), rows))
         == RepairRows(Settled(disk, f * g), rows)
  {
    SettledTwice(disk, f, g);
    NothingIsLost(Settled(disk, f), g);
    forall i | 0 <= i < |rows|
      ensures RepairRow(Settled(disk, f * g), RepairRow(Settled(disk, f), rows[i]))
           == RepairRow(Settled(disk, f * g), rows[i])
    {
    }
  }

  /** A second launch changes nothing. */
  lemma RelocationIsIdempotent(disk: Disk, rows: seq<Row>)
    ensures var after := Settled(disk, {});
            Settled(after, {}) == after && RepairRows(after, RepairRows(after, rows)) == RepairRows(after, rows)
  {
    var none: set<string> := {};
    LaunchesConverge(disk, rows, none, none);
    assert none * none == none;
  }
}
