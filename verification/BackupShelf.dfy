/**
 The newest backups a device keeps for another: an index, newest first, and one
 file per backup, named after the time the backup was made.
 */
module BackupShelf {
  import opened Wrappers
  import opened LittleEndian
  import opened BackupSnapshot

  const BACKUPS_KEPT := 10
  const DOC_PREFIX := "backup/"

  /** Reading the time in a document's name, and the digest of a blob. */
  datatype Env = Env(codec: Codec, parseMs: string -> Option<int>, digest: seq<byte> -> seq<byte>)

  datatype Held = Held(doc: string, madeAt: int, digest: seq<byte>, bytes: nat, recordings: nat, topics: nat)

  /** Files are named by a time alone, so that time stands for the file. */
  datatype Shelf = Shelf(index: seq<Held>, files: map<int, seq<byte>>)

  datatype Arrival = Arrival(doc: string, blob: seq<byte>)

  const EMPTY_SHELF := Shelf([], map[])

  function MadeAt(env: Env, doc: string): Option<int> {
    if DOC_PREFIX <= doc then env.parseMs(doc[|DOC_PREFIX|..]) else None
  }

  predicate IsBackup(env: Env, a: Arrival) { MadeAt(env, a.doc).Some? && Decode(env.codec, a.blob).Ok? }

  function Entry(env: Env, a: Arrival): Held
    requires IsBackup(env, a)
  {
    var h := Decode(env.codec, a.blob).value.0;
    Held(a.doc, MadeAt(env, a.doc).value, env.digest(a.blob), |a.blob|, h.recordings, h.topics)
  }

  // -------------------------------------------------------------- the stable sort

  /** Where a pushed entry ends up among entries that are sorted, newest first:
      behind those of the same time. */
  function Place(h: Held, s: seq<Held>): (p: nat)
    ensures p <= |s| && (p < |s| ==> s[p].madeAt < h.madeAt)
    ensures forall i :: 0 <= i < p ==> s[i].madeAt >= h.madeAt
  {
    if s == [] || s[0].madeAt < h.madeAt then 0 else 1 + Place(h, s[1..])
  }

  function Insert(h: Held, s: seq<Held>): seq<Held> { s[..Place(h, s)] + [h] + s[Place(h, s)..] }

  function SortNewestFirst(s: seq<Held>): seq<Held> {
    if s == [] then [] else Insert(s[|s| - 1], SortNewestFirst(s[..|s| - 1]))
  }

  /** Strictly newest first. */
  ghost predicate Descending(s: seq<Held>) {
    forall i, j :: 0 <= i < j < |s| ==> s[i].madeAt > s[j].madeAt
  }

  ghost predicate Ordered(s: seq<Held>) {
    forall i, j :: 0 <= i < j < |s| ==> s[i].madeAt >= s[j].madeAt
  }

  lemma InsertStaysOrdered(h: Held, s: seq<Held>)
    requires Ordered(s)
    ensures Ordered(Insert(h, s))
  {
    var p, all := Place(h, s), Insert(h, s);
    assert forall i :: p <= i < |s| ==> s[i].madeAt <= s[p].madeAt;
    forall i, j | 0 <= i < j < |all| ensures all[i].madeAt >= all[j].madeAt {
      assert all[i] == (if i < p then s[i] else if i == p then h else s[i - 1]);
      assert all[j] == (if j < p then s[j] else if j == p then h else s[j - 1]);
    }
  }

  lemma InsertAdds(h: Held, s: seq<Held>)
    ensures multiset(Insert(h, s)) == multiset(s) + multiset{h}
  {
    var p := Place(h, s);
    assert s == s[..p] + s[p..];
  }

  /** The sort orders, loses nothing and invents nothing. */
  lemma {:induction false} SortOrders(s: seq<Held>)
    ensures Ordered(SortNewestFirst(s)) && multiset(SortNewestFirst(s)) == multiset(s)
  {
    if s != [] {
      SortOrders(s[..|s| - 1]);
      InsertStaysOrdered(s[|s| - 1], SortNewestFirst(s[..|s| - 1]));
      InsertAdds(s[|s| - 1], SortNewestFirst(s[..|s| - 1]));
      assert s == s[..|s| - 1] + [s[|s| - 1]];
    }
  }

  lemma PlaceAtEnd(h: Held, s: seq<Held>)
    requires forall i :: 0 <= i < |s| ==> s[i].madeAt > h.madeAt
    ensures Insert(h, s) == s + [h]
  {
    assert Place(h, s) == |s|;
  }

  lemma {:induction false} SortedStaysSorted(s: seq<Held>)
    requires Descending(s)
    ensures SortNewestFirst(s) == s
  {
    if s != [] {
      var front, last := s[..|s| - 1], s[|s| - 1];
      assert Descending(front);
      SortedStaysSorted(front);
      PlaceAtEnd(last, front);
      assert front + [last] == s;
    }
  }

  // ------------------------------------------------------------- taking a backup in

  function Keepable(index: seq<Held>): (n: nat)
    ensures n <= |index| && n <= BACKUPS_KEPT
  {
    if |index| <= BACKUPS_KEPT then |index| else BACKUPS_KEPT
  }

  function TimesOf(index: seq<Held>): set<int> { set i | 0 <= i < |index| :: index[i].madeAt }

  predicate HoldsDoc(index: seq<Held>, doc: string) { exists i :: 0 <= i < |index| && index[i].doc == doc }

  function Pushed(env: Env, index: seq<Held>, a: Arrival): seq<Held>
    requires IsBackup(env, a)
  {
    SortNewestFirst(index + [Entry(env, a)])
  }

  function DroppedTimes(env: Env, index: seq<Held>, a: Arrival): set<int>
    requires IsBackup(env, a)
  {
    var pushed := Pushed(env, index, a);
    TimesOf(pushed[Keepable(pushed)..])
  }

  /** One arrival: refused, already held, or written, filed and thinned out. */
  function Keep(env: Env, shelf: Shelf, a: Arrival): (Shelf, Result<bool, ()>) {
    if !IsBackup(env, a) then (shelf, Err(()))
    else if HoldsDoc(shelf.index, a.doc) then (shelf, Ok(false))
    else
      var pushed := Pushed(env, shelf.index, a);
      (Shelf(pushed[..Keepable(pushed)],
             shelf.files[Entry(env, a).madeAt := a.blob] - DroppedTimes(env, shelf.index, a)), Ok(true))
  }

  /** A stored backup is handed out only if its digest is the one in the index. */
  function OpenHeld(env: Env, shelf: Shelf, h: Held): Result<seq<byte>, ()> {
    if h.madeAt in shelf.files && env.digest(shelf.files[h.madeAt]) == h.digest
    then Ok(shelf.files[h.madeAt])
    else Err(())
  }

  // ------------------------------------------------------------------ the invariant

  /** The index is the newest ten times of `all`, newest first. */
  ghost predicate Newest(index: seq<Held>, all: set<int>) {
    && Descending(index) && |index| <= 10 && TimesOf(index) <= all
    && forall t {:trigger t in TimesOf(index)} ::
         t in all && t !in TimesOf(index) ==> |index| == 10 && t < index[9].madeAt
  }

  /** An entry and the file of its time tell of the same backup. */
  ghost predicate Filed(env: Env, shelf: Shelf, h: Held) {
    && h.madeAt in shelf.files
    && IsBackup(env, Arrival(h.doc, shelf.files[h.madeAt]))
    && h == Entry(env, Arrival(h.doc, shelf.files[h.madeAt]))
  }

  ghost predicate Good(env: Env, shelf: Shelf, all: set<int>) {
    && Newest(shelf.index, all)
    && shelf.files.Keys == TimesOf(shelf.index)
    && forall i :: 0 <= i < |shelf.index| ==> Filed(env, shelf, shelf.index[i])
  }

  lemma PushedIs(env: Env, index: seq<Held>, a: Arrival)
    requires IsBackup(env, a) && Descending(index)
    ensures Pushed(env, index, a) == Insert(Entry(env, a), index)
  {
    assert (index + [Entry(env, a)])[..|index|] == index;
    SortedStaysSorted(index);
  }

  lemma InsertDescends(h: Held, s: seq<Held>)
    requires Descending(s) && h.madeAt !in TimesOf(s)
    ensures Descending(Insert(h, s))
  {
    var p := Place(h, s);
    forall i | 0 <= i < p ensures s[i].madeAt > h.madeAt {
      assert s[i].madeAt in TimesOf(s);
    }
  }

  lemma TimesAfterInsert(h: Held, s: seq<Held>)
    ensures TimesOf(Insert(h, s)) == TimesOf(s) + {h.madeAt}
  {
    var p, all := Place(h, s), Insert(h, s);
    forall i | 0 <= i < |s| ensures s[i].madeAt in TimesOf(all) {
      assert s[i] == all[if i < p then i else i + 1];
    }
    assert all[p] == h;
  }

  lemma TimesOfParts(s: seq<Held>, n: nat)
    requires n <= |s| && Descending(s)
    ensures TimesOf(s[..n]) == TimesOf(s) - TimesOf(s[n..])
    ensures Descending(s[..n])
  {
    forall t | t in TimesOf(s) - TimesOf(s[n..]) ensures t in TimesOf(s[..n]) {
      var i :| 0 <= i < |s| && s[i].madeAt == t;
      assert forall k :: n <= k < |s| ==> s[n..][k - n] == s[k];
      assert s[..n][i] == s[i];
    }
    forall i | 0 <= i < n ensures s[..n][i].madeAt in TimesOf(s) - TimesOf(s[n..]) {
    }
  }

  lemma KeepNewest(h: Held, index: seq<Held>, all: set<int>)
    requires Newest(index, all) && h.madeAt !in TimesOf(index)
    ensures var pushed := Insert(h, index); Newest(pushed[..Keepable(pushed)], all + {h.madeAt})
  {
    var pushed := Insert(h, index);
    var kept := pushed[..Keepable(pushed)];
    InsertDescends(h, index);
    TimesAfterInsert(h, index);
    TimesOfParts(pushed, Keepable(pushed));
    forall t {:trigger t in TimesOf(kept)} | t in all + {h.madeAt} && t !in TimesOf(kept)
      ensures |kept| == BACKUPS_KEPT && t < kept[BACKUPS_KEPT - 1].madeAt
    {
      if t in TimesOf(pushed) {
        var i :| 0 <= i < |pushed| && pushed[i].madeAt == t;
        assert forall k :: 0 <= k < |kept| ==> kept[k].madeAt in TimesOf(kept);
      } else {
        assert t !in TimesOf(index);
        assert pushed[BACKUPS_KEPT - 1].madeAt >= index[BACKUPS_KEPT - 1].madeAt;
      }
    }
  }

  lemma KeepIs(env: Env, shelf: Shelf, a: Arrival)
    requires IsBackup(env, a) && Descending(shelf.index) && !HoldsDoc(shelf.index, a.doc)
    ensures var h := Entry(env, a);
            var pushed := Insert(h, shelf.index);
            Keep(env, shelf, a).0
              == Shelf(pushed[..Keepable(pushed)], shelf.files[h.madeAt := a.blob] - TimesOf(pushed[Keepable(pushed)..]))
  {
    PushedIs(env, shelf.index, a);
  }

  lemma OthersStayFiled(env: Env, shelf: Shelf, a: Arrival, kept: seq<Held>, files: map<int, seq<byte>>)
    requires IsBackup(env, a) && Entry(env, a).madeAt !in TimesOf(shelf.index)
    requires forall i :: 0 <= i < |shelf.index| ==> Filed(env, shelf, shelf.index[i])
    requires forall i :: 0 <= i < |kept| ==> kept[i] == Entry(env, a) || kept[i] in shelf.index
    requires files.Keys == TimesOf(kept)
    requires var now := shelf.files[Entry(env, a).madeAt := a.blob];
             forall t :: t in files ==> t in now && files[t] == now[t]
    ensures forall i :: 0 <= i < |kept| ==> Filed(env, Shelf(kept, files), kept[i])
  {
    forall i | 0 <= i < |kept| ensures Filed(env, Shelf(kept, files), kept[i]) {
      assert kept[i].madeAt in TimesOf(kept);
      if kept[i] != Entry(env, a) {
        var j :| 0 <= j < |shelf.index| && shelf.index[j] == kept[i];
        assert Filed(env, shelf, shelf.index[j]);
        assert shelf.index[j].madeAt in TimesOf(shelf.index);
      }
    }
  }

  lemma KeptTimes(h: Held, index: seq<Held>, n: nat)
    requires Descending(index) && h.madeAt !in TimesOf(index) && n <= |Insert(h, index)|
    ensures TimesOf(Insert(h, index)[..n]) == TimesOf(index) + {h.madeAt} - TimesOf(Insert(h, index)[n..])
    ensures forall i :: 0 <= i < n ==> Insert(h, index)[..n][i] == h || Insert(h, index)[..n][i] in index
  {
    InsertDescends(h, index);
    TimesAfterInsert(h, index);
    TimesOfParts(Insert(h, index), n);
  }

  /** A new time keeps the shelf good. */
  lemma KeepStaysGood(env: Env, shelf: Shelf, a: Arrival, all: set<int>)
    requires Good(env, shelf, all) && IsBackup(env, a) && !HoldsDoc(shelf.index, a.doc)
    requires Entry(env, a).madeAt !in TimesOf(shelf.index)
    ensures Good(env, Keep(env, shelf, a).0, all + {Entry(env, a).madeAt})
  {
    var h, n := Entry(env, a), Keepable(Insert(Entry(env, a), shelf.index));
    var kept, dropped := Insert(h, shelf.index)[..n], TimesOf(Insert(h, shelf.index)[n..]);
    var files := shelf.files[h.madeAt := a.blob] - dropped;
    KeepIs(env, shelf, a);
    KeepNewest(h, shelf.index, all);
    KeptTimes(h, shelf.index, n);
    KeptIsFiled(env, shelf, a, kept, dropped);
  }

  lemma KeptIsFiled(env: Env, shelf: Shelf, a: Arrival, kept: seq<Held>, dropped: set<int>)
    requires IsBackup(env, a) && Entry(env, a).madeAt !in TimesOf(shelf.index)
    requires shelf.files.Keys == TimesOf(shelf.index)
    requires forall i :: 0 <= i < |shelf.index| ==> Filed(env, shelf, shelf.index[i])
    requires forall i :: 0 <= i < |kept| ==> kept[i] == Entry(env, a) || kept[i] in shelf.index
    requires TimesOf(kept) == TimesOf(shelf.index) + {Entry(env, a).madeAt} - dropped
    ensures var files := shelf.files[Entry(env, a).madeAt := a.blob] - dropped;
            && files.Keys == TimesOf(kept)
            && forall i :: 0 <= i < |kept| ==> Filed(env, Shelf(kept, files), kept[i])
  {
    var files := shelf.files[Entry(env, a).madeAt := a.blob] - dropped;
    assert files.Keys == TimesOf(kept);
    OthersStayFiled(env, shelf, a, kept, files);
  }

  /** Backups with the same time share one file: whichever of them is dropped or
      written last, the shelf no longer holds what its index says. */
  lemma SameTimeBreaks(h: Held, index: seq<Held>)
    requires h.madeAt in TimesOf(index) && Descending(index) && |index| <= BACKUPS_KEPT
    ensures var pushed := Insert(h, index);
            var n := Keepable(pushed);
            !Descending(pushed[..n]) || TimesOf(pushed[..n]) * TimesOf(pushed[n..]) != {}
  {
    var pushed := Insert(h, index);
    var n := Keepable(pushed);
    var i :| 0 <= i < |index| && index[i].madeAt == h.madeAt;
    var p := Place(h, index);
    assert i < p && pushed[i] == index[i] && pushed[p] == h;
    if p < n {
      assert pushed[..n][i].madeAt == pushed[..n][p].madeAt;
    } else if i < n {
      assert pushed[..n][i].madeAt in TimesOf(pushed[..n]);
      assert pushed[n..][p - n].madeAt in TimesOf(pushed[n..]);
      assert h.madeAt in TimesOf(pushed[..n]) * TimesOf(pushed[n..]);
    }
  }

  /** A new backup leaves every held one readable exactly when its time is new. */
  lemma KeepStaysGoodIff(env: Env, shelf: Shelf, a: Arrival, all: set<int>)
    requires Good(env, shelf, all) && IsBackup(env, a) && !HoldsDoc(shelf.index, a.doc)
    ensures Good(env, Keep(env, shelf, a).0, all + {Entry(env, a).madeAt})
      <==> Entry(env, a).madeAt !in TimesOf(shelf.index)
  {
    if Entry(env, a).madeAt !in TimesOf(shelf.index) {
      KeepStaysGood(env, shelf, a, all);
    } else {
      KeepIs(env, shelf, a);
      SameTimeBreaks(Entry(env, a), shelf.index);
    }
  }

  // ------------------------------------------------------------------------- runs

  function Run(env: Env, shelf: Shelf, arrivals: seq<Arrival>): Shelf
    decreases |arrivals|
  {
    if arrivals == [] then shelf else Run(env, Keep(env, shelf, arrivals[0]).0, arrivals[1..])
  }

  function ArrivedTimes(env: Env, arrivals: seq<Arrival>): set<int> {
    set i | 0 <= i < |arrivals| && IsBackup(env, arrivals[i]) :: Entry(env, arrivals[i]).madeAt
  }

  /** One time, one name. */
  ghost predicate TimesTellApart(env: Env, arrivals: seq<Arrival>) {
    forall i, j :: 0 <= i < |arrivals| && 0 <= j < |arrivals| && MadeAt(env, arrivals[i].doc).Some?
                   && MadeAt(env, arrivals[i].doc) == MadeAt(env, arrivals[j].doc)
                   ==> arrivals[i].doc == arrivals[j].doc
  }

  ghost predicate TellsApart(env: Env, shelf: Shelf, arrivals: seq<Arrival>) {
    forall i, k :: 0 <= i < |shelf.index| && 0 <= k < |arrivals|
                   && MadeAt(env, arrivals[k].doc) == Some(shelf.index[i].madeAt)
                   ==> shelf.index[i].doc == arrivals[k].doc
  }

  lemma KeptEntries(env: Env, shelf: Shelf, a: Arrival)
    requires IsBackup(env, a) && !HoldsDoc(shelf.index, a.doc) && Descending(shelf.index)
    ensures forall i :: 0 <= i < |Keep(env, shelf, a).0.index| ==>
              Keep(env, shelf, a).0.index[i] == Entry(env, a) || Keep(env, shelf, a).0.index[i] in shelf.index
  {
    PushedIs(env, shelf.index, a);
  }

  lemma StepTellsApart(env: Env, shelf: Shelf, arrivals: seq<Arrival>, all: set<int>)
    requires arrivals != [] && Good(env, shelf, all)
    requires TimesTellApart(env, arrivals) && TellsApart(env, shelf, arrivals)
    ensures TellsApart(env, Keep(env, shelf, arrivals[0]).0, arrivals[1..])
  {
    var a := arrivals[0];
    var after := Keep(env, shelf, a).0;
    if after != shelf {
      KeptEntries(env, shelf, a);
    }
    forall i, k | 0 <= i < |after.index| && 0 <= k < |arrivals[1..]|
                  && MadeAt(env, arrivals[1..][k].doc) == Some(after.index[i].madeAt)
      ensures after.index[i].doc == arrivals[1..][k].doc
    {
      assert arrivals[1..][k] == arrivals[k + 1];
      if after.index[i] in shelf.index {
        var j :| 0 <= j < |shelf.index| && shelf.index[j] == after.index[i];
      }
    }
  }

  lemma StepStaysGood(env: Env, shelf: Shelf, arrivals: seq<Arrival>, all: set<int>)
    requires arrivals != [] && Good(env, shelf, all) && TellsApart(env, shelf, arrivals)
    ensures Good(env, Keep(env, shelf, arrivals[0]).0, all + ArrivedTimes(env, [arrivals[0]]))
  {
    var a := arrivals[0];
    assert [a][0] == a;
    if !IsBackup(env, a) {
      assert ArrivedTimes(env, [a]) == {};
      assert all + {} == all;
    } else {
      var t := Entry(env, a).madeAt;
      assert ArrivedTimes(env, [a]) == {t};
      if HoldsDoc(shelf.index, a.doc) {
        var i :| 0 <= i < |shelf.index| && shelf.index[i].doc == a.doc;
        assert Filed(env, shelf, shelf.index[i]);
        assert t in TimesOf(shelf.index);
        assert all + {t} == all;
      } else {
        assert forall i :: 0 <= i < |shelf.index| ==> shelf.index[i].madeAt != t;
        KeepStaysGood(env, shelf, a, all);
      }
    }
  }

  lemma ArrivedSplit(env: Env, arrivals: seq<Arrival>)
    requires arrivals != []
    ensures ArrivedTimes(env, arrivals) == ArrivedTimes(env, [arrivals[0]]) + ArrivedTimes(env, arrivals[1..])
  {
    assert [arrivals[0]][0] == arrivals[0];
    forall i | 0 <= i < |arrivals| && IsBackup(env, arrivals[i])
      ensures Entry(env, arrivals[i]).madeAt in ArrivedTimes(env, [arrivals[0]]) + ArrivedTimes(env, arrivals[1..])
    {
      if i > 0 {
        assert arrivals[1..][i - 1] == arrivals[i];
      }
    }
  }

  lemma {:induction false} RunStaysGood(env: Env, shelf: Shelf, arrivals: seq<Arrival>, all: set<int>)
    requires Good(env, shelf, all) && TimesTellApart(env, arrivals) && TellsApart(env, shelf, arrivals)
    ensures Good(env, Run(env, shelf, arrivals), all + ArrivedTimes(env, arrivals))
    decreases |arrivals|
  {
    if arrivals == [] {
      assert all + ArrivedTimes(env, arrivals) == all;
    } else {
      StepStaysGood(env, shelf, arrivals, all);
      StepTellsApart(env, shelf, arrivals, all);
      ArrivedSplit(env, arrivals);
      var first := ArrivedTimes(env, [arrivals[0]]);
      RunStaysGood(env, Keep(env, shelf, arrivals[0]).0, arrivals[1..], all + first);
      assert all + first + ArrivedTimes(env, arrivals[1..]) == all + ArrivedTimes(env, arrivals);
    }
  }

  /** Whatever arrives, in any order and however often: the index is the ten
      newest backups that arrived, newest first; the files are exactly theirs, and
      every one of them opens. */
  lemma NewestTenAreKept(env: Env, arrivals: seq<Arrival>)
    requires TimesTellApart(env, arrivals)
    ensures var shelf := Run(env, EMPTY_SHELF, arrivals);
            && Newest(shelf.index, ArrivedTimes(env, arrivals))
            && shelf.files.Keys == TimesOf(shelf.index)
            && forall i :: 0 <= i < |shelf.index| ==>
                 && Filed(env, shelf, shelf.index[i])
                 && OpenHeld(env, shelf, shelf.index[i]).Ok?
  {
    RunStaysGood(env, EMPTY_SHELF, arrivals, {});
    var shelf := Run(env, EMPTY_SHELF, arrivals);
    assert {} + ArrivedTimes(env, arrivals) == ArrivedTimes(env, arrivals);
    assert forall i :: 0 <= i < |shelf.index| ==> Filed(env, shelf, shelf.index[i]);
  }

  lemma FirstIsKept(env: Env, a: Arrival)
    requires IsBackup(env, a)
    ensures Keep(env, EMPTY_SHELF, a).0 == Shelf([Entry(env, a)], map[Entry(env, a).madeAt := a.blob])
  {
    KeepIs(env, EMPTY_SHELF, a);
  }

  lemma SecondIsKept(env: Env, a: Arrival, b: Arrival)
    requires IsBackup(env, a) && IsBackup(env, b) && a.doc != b.doc && MadeAt(env, a.doc) == MadeAt(env, b.doc)
    ensures var one := Shelf([Entry(env, a)], map[Entry(env, a).madeAt := a.blob]);
            Keep(env, one, b).0 == Shelf([Entry(env, a), Entry(env, b)], map[Entry(env, b).madeAt := b.blob])
  {
    var one := Shelf([Entry(env, a)], map[Entry(env, a).madeAt := a.blob]);
    KeepIs(env, one, b);
    assert Insert(Entry(env, b), one.index) == [Entry(env, a), Entry(env, b)];
    assert one.files[Entry(env, b).madeAt := b.blob] == map[Entry(env, b).madeAt := b.blob];
  }

  lemma RunTwo(env: Env, shelf: Shelf, a: Arrival, b: Arrival)
    ensures Run(env, shelf, [a, b]) == Keep(env, Keep(env, shelf, a).0, b).0
  {
    var one := Keep(env, shelf, a).0;
    assert [a, b][1..] == [b] && [b][1..] == [];
    assert Run(env, one, [b]) == Run(env, Keep(env, one, b).0, []);
  }

  /** Two names for one time, such as `backup/1` and `backup/01`: the file of the
      first is written over, and it no longer opens. */
  lemma SameTimeExample(env: Env, a: Arrival, b: Arrival)
    requires IsBackup(env, a) && IsBackup(env, b)
    requires MadeAt(env, a.doc) == MadeAt(env, b.doc) && a.doc != b.doc && env.digest(a.blob) != env.digest(b.blob)
    ensures var shelf := Run(env, EMPTY_SHELF, [a, b]);
            && shelf.index == [Entry(env, a), Entry(env, b)]
            && OpenHeld(env, shelf, Entry(env, a)).Err? && OpenHeld(env, shelf, Entry(env, b)) == Ok(b.blob)
  {
    RunTwo(env, EMPTY_SHELF, a, b);
    FirstIsKept(env, a);
    SecondIsKept(env, a, b);
  }

  // ---------------------------------------------------------------------- crashes

  /** A shelf left by a crash before the index was saved: the new file written or
      torn, the dropped ones removed or not. */
  ghost predicate Interrupted(env: Env, shelf: Shelf, a: Arrival, crashed: Shelf)
    requires IsBackup(env, a)
  {
    var touched := DroppedTimes(env, shelf.index, a) + {Entry(env, a).madeAt};
    crashed.index == shelf.index && crashed.files - touched == shelf.files - touched
  }

  /** When the backup is delivered again, the interrupted shelf ends where the
      other would have; until then at most the entry to be dropped, or the one whose
      file is being written again, does not open. */
  lemma InterruptedKeepConverges(env: Env, shelf: Shelf, a: Arrival, crashed: Shelf)
    requires IsBackup(env, a) && !HoldsDoc(shelf.index, a.doc) && Interrupted(env, shelf, a, crashed)
    ensures Keep(env, crashed, a) == Keep(env, shelf, a)
    ensures forall h :: h in shelf.index && h.madeAt !in DroppedTimes(env, shelf.index, a) + {Entry(env, a).madeAt}
              ==> OpenHeld(env, crashed, h) == OpenHeld(env, shelf, h)
  {
    var t, dropped := Entry(env, a).madeAt, DroppedTimes(env, shelf.index, a);
    var touched := dropped + {t};
    assert forall k :: k !in touched ==>
        (k in crashed.files <==> k in crashed.files - touched) && (k in shelf.files <==> k in shelf.files - touched);
    assert forall k :: k in crashed.files && k !in touched ==> crashed.files[k] == (crashed.files - touched)[k];
    assert forall k :: k in shelf.files && k !in touched ==> shelf.files[k] == (shelf.files - touched)[k];
    assert crashed.files[t := a.blob] - dropped == shelf.files[t := a.blob] - dropped;
  }

  // ------------------------------------------------------- every arrival, one by one

  lemma {:induction false} SortKeepsLength(s: seq<Held>)
    ensures |SortNewestFirst(s)| == |s|
    ensures forall h :: h in SortNewestFirst(s) <==> h in s
  {
    if s != [] {
      var front, last := s[..|s| - 1], s[|s| - 1];
      SortKeepsLength(front);
      InsertHolds(last, SortNewestFirst(front));
      assert s == front + [last];
    }
  }

  lemma InsertHolds(h: Held, s: seq<Held>)
    ensures forall x :: x in Insert(h, s) <==> x == h || x in s
  {
    var p := Place(h, s);
    assert s == s[..p] + s[p..];
  }

  /** The time in the name of a backup's document. */
  function TimeIn(env: Env, doc: string): Option<int> {
    if |doc| >= 7 && doc[..7] == "backup/" then env.parseMs(doc[7..]) else None
  }

  /** What an arrival comes to. A document that is not a backup's, or a blob that
      cannot be read, is refused; one that is held changes nothing; any other is filed
      with its digest, its size and the counts in its header, among at most ten. */
  lemma ArrivalComesTo(env: Env, shelf: Shelf, a: Arrival)
    ensures var (after, result) := Keep(env, shelf, a);
            var time, read := TimeIn(env, a.doc), Decode(env.codec, a.blob);
            var held := exists i :: 0 <= i < |shelf.index| && shelf.index[i].doc == a.doc;
            && (result == Err(()) <==> time.None? || read.Err?)
            && (result == Ok(false) <==> time.Some? && read.Ok? && held)
            && (result == Ok(true) <==> time.Some? && read.Ok? && !held)
            && (result != Ok(true) ==> after == shelf)
            && (result == Ok(true) ==>
                  && |after.index| == (if |shelf.index| < 10 then |shelf.index| + 1 else 10)
                  && (forall h :: h in after.index ==>
                        (h in shelf.index
                         || h == Held(a.doc, time.value, env.digest(a.blob), |a.blob|, read.value.0.recordings, read.value.0.topics))))
  {
    assert TimeIn(env, a.doc) == MadeAt(env, a.doc) by {
      if |a.doc| >= 7 { assert DOC_PREFIX <= a.doc <==> a.doc[..7] == DOC_PREFIX; }
    }
    if IsBackup(env, a) && !HoldsDoc(shelf.index, a.doc) {
      SortKeepsLength(shelf.index + [Entry(env, a)]);
      var pushed := Pushed(env, shelf.index, a);
      forall h | h in pushed[..Keepable(pushed)] ensures h in shelf.index || h == Entry(env, a) {
        assert h in pushed;
      }
    }
  }
}
