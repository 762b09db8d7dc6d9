/** The device that keeps backups: its index and its files, updated in place. */
module BackupHolder {
  import opened Wrappers
  import opened LittleEndian
  import opened BackupSnapshot
  import opened BackupShelf

  class BackupHolder {
    var index: seq<Held>
    var files: map<int, seq<byte>>
    const env: Env

    function State(): Shelf
      reads this
    {
      Shelf(index, files)
    }

    constructor (env: Env)
      ensures State() == EMPTY_SHELF && this.env == env
    {
      this.env := env;
      index, files := [], map[];
    }

    method HasDoc(doc: string) returns (found: bool)
      ensures found == HoldsDoc(index, doc)
    {
      for i := 0 to |index|
        invariant forall k :: 0 <= k < i ==> index[k].doc != doc
      {
        if index[i].doc == doc {
          return true;
        }
      }
      return false;
    }

    /** Removes the files of entries that no longer have a place. */
    method RemoveFiles(dropped: seq<Held>)
      modifies this`files
      ensures files == old(files) - TimesOf(dropped)
    {
      for i := 0 to |dropped|
        invariant files == old(files) - TimesOf(dropped[..i])
      {
        assert forall k :: 0 <= k < i ==> dropped[..i + 1][k] == dropped[..i][k];
        assert dropped[..i + 1][i] == dropped[i];
        assert TimesOf(dropped[..i + 1]) == TimesOf(dropped[..i]) + {dropped[i].madeAt};
        files := files - {dropped[i].madeAt};
      }
      assert dropped[..|dropped|] == dropped;
    }

    method KeepBackup(a: Arrival) returns (kept: Result<bool, ()>)
      modifies this
      ensures (State(), kept) == Keep(env, old(State()), a)
    {
      var madeAt := MadeAt(env, a.doc);
      if madeAt.None? {
        return Err(());
      }
      var decoded := DecodeSnapshot(env.codec, a.blob);
      if decoded.Err? {
        return Err(());
      }
      var known := HasDoc(a.doc);
      if known {
        return Ok(false);
      }
      var header := decoded.value.0;
      files := files[madeAt.value := a.blob];
      index := index + [Held(a.doc, madeAt.value, env.digest(a.blob), |a.blob|, header.recordings, header.topics)];
      index := SortNewestFirst(index);
      var split := if |index| <= BACKUPS_KEPT then |index| else BACKUPS_KEPT;
      var dropped := index[split..];
      index := index[..split];
      RemoveFiles(dropped);
      return Ok(true);
    }
  }
}
