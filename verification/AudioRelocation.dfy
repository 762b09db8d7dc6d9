/** The relocation at startup, moving files and rewriting rows in place. */
module AudioRelocation {
  import opened Wrappers
  import opened LittleEndian
  import opened AudioNames
  import opened AudioLayout

  /** How many rows a repair rewrites. */
  function Rewritten(before: seq<Row>, after: seq<Row>): (n: nat)
    requires |before| == |after|
  {
    if before == [] then 0
    else Rewritten(before[..|before| - 1], after[..|after| - 1]) + (if before[|before| - 1] != after[|after| - 1] then 1 else 0)
  }

  lemma RewrittenNext(before: seq<Row>, after: seq<Row>, i: nat)
    requires |before| == |after| && i < |before|
    ensures Rewritten(before[..i + 1], after[..i + 1])
         == Rewritten(before[..i], after[..i]) + (if before[i] != after[i] then 1 else 0)
  {
    assert before[..i + 1][..i] == before[..i] && after[..i + 1][..i] == after[..i];
  }

  /** Rewrites every recorded path whose new place exists, and counts them. */
  method RepairRecordedPaths(disk: Disk, rows: array<Row>) returns (changed: nat)
    modifies rows
    ensures rows[..] == RepairRows(disk, old(rows[..]))
    ensures changed == Rewritten(old(rows[..]), rows[..])
  {
    changed := 0;
    ghost var before := rows[..];
    ghost var after := RepairRows(disk, before);
    for i := 0 to rows.Length
      invariant changed == Rewritten(before[..i], after[..i])
      invariant rows[..i] == after[..i]
      invariant forall j :: i <= j < rows.Length ==> rows[j] == before[j]
    {
      RewrittenNext(before, after, i);
      var repaired := RepairRow(disk, rows[i]);
      if repaired != rows[i] {
        rows[i] := repaired;
        changed := changed + 1;
      }
      assert rows[i] == after[i];
      assert rows[..i + 1] == rows[..i] + [rows[i]];
      assert after[..i + 1] == after[..i] + [after[i]];
    }
    assert before[..|before|] == before && after[..|after|] == after;
  }

  class DataDir {
    var root: map<string, seq<byte>>
    var audio: map<(string, string), seq<byte>>
    var elsewhere: map<string, seq<byte>>

    function State(): Disk
      reads this
    {
      Disk(root, audio, elsewhere)
    }

    /** Renames one file, unless something is at its destination already. */
    method MoveFile(name: string, failing: set<string>) returns (moved: bool)
      modifies this`root, this`audio
      ensures State() == MoveOne(old(State()), failing, name)
      ensures moved == Moves(old(State()), failing, name)
    {
      if name !in root {
        return false;
      }
      var classified := Classify(name);
      if classified.None? {
        return false;
      }
      var destination := classified.value;
      if destination in audio {
        return false;
      }
      if name in failing {
        return false;
      }
      audio := audio[destination := root[name]];
      root := root - {name};
      return true;
    }

    /** Moves whatever legacy files the listing shows. */
    method MoveLegacyFiles(entries: seq<string>, failing: set<string>) returns (moved: nat)
      requires Names(entries) == root.Keys
      modifies this`root, this`audio
      ensures State() == Settled(old(State()), failing)
      ensures moved == |Moved(old(State()), failing)|
    {
      moved := 0;
      ghost var before := State();
      for i := 0 to |entries|
        invariant State() == MoveEach(before, failing, entries[..i])
        invariant moved == |before.root| - |root|
      {
        assert entries[..i + 1][..i] == entries[..i];
        var done := MoveFile(entries[i], failing);
        if done {
          moved := moved + 1;
        }
      }
      assert entries[..|entries|] == entries;
      OrderDoesNotMatter(before, failing, entries);
      assert root.Keys == before.root.Keys - Moved(before, failing);
    }

    /** One launch. */
    method Relocate(entries: seq<string>, failing: set<string>, rows: array<Row>)
      requires Names(entries) == root.Keys
      modifies this`root, this`audio, rows
      ensures State() == Settled(old(State()), failing)
      ensures rows[..] == RepairRows(State(), old(rows[..]))
    {
      var _ := MoveLegacyFiles(entries, failing);
      var _ := RepairRecordedPaths(State(), rows);
    }
  }
}
