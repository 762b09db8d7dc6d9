/**
 Copies that fail after they have begun to edit the target. The text is inserted
 first and marked afterwards, so a rollback, which looks for the recording's mark,
 finds only the characters that were marked in time.
 */
module CopyFaults {
  import opened Wrappers
  import opened EditorDelta
  import opened FlatSections
  import opened SessionMove
  import opened SessionMoveRuns

  /** The edit that fails: the insert, or what comes after some of the marks, which
      is the save when all of them are set. */
  datatype Fault = InsertFails | MarkFails(after: nat)

  datatype MoveError = Unreadable(error: DeltaError) | EditRefused | CommitRefused

  /** The copy comes to its edits. */
  predicate Edits(b: Bridge, p: Pair, session: string) {
    && FindSection(b, p.source, session).Ok? && FindSection(b, p.source, session).value.Some?
    && FindSection(b, p.target, session) == Ok(None)
    && Anchor(b, p.target, p.later).Ok?
  }

  function Carried(b: Bridge, p: Pair, session: string): FlatSection
    requires Lawful(b) && Edits(b, p, session)
  {
    Lift(b.delta(p.source), 0, 0, FindSection(b, p.source, session).value.value)
  }

  function PlaceOf(b: Bridge, target: seq<Cell>, later: seq<string>): (at: nat)
    requires Lawful(b) && Anchor(b, target, later).Ok?
    ensures at <= |target|
  {
    AnchorIs(b, target, later);
    var anchor := Anchor(b, target, later).value;
    if anchor.Some? then anchor.value else |target|
  }

  /** The marks that are set before the failure. */
  function Set(marks: seq<Mark>, after: nat): seq<Mark> { if after <= |marks| then marks[..after] else marks }

  function PlacedInPart(b: Bridge, section: FlatSection, target: seq<Cell>, later: seq<string>, fault: Fault): seq<Cell>
    requires Lawful(b) && Anchor(b, target, later).Ok?
  {
    match fault
    case InsertFails => target
    case MarkFails(after) =>
      var at := PlaceOf(b, target, later);
      SetMarks(Insert(target, at, section.text), at, Set(section.marks, after))
  }

  /** The pair after a copy that fails. */
  function Broken(b: Bridge, p: Pair, session: string, fault: Fault): Pair
    requires Lawful(b) && Edits(b, p, session)
  {
    p.(target := PlacedInPart(b, Carried(b, p, session), p.target, p.later, fault))
  }

  predicate Names(mark: Mark, q: int) { mark.key == "session_id" && mark.pos <= q < mark.pos + mark.len }

  predicate Named(marks: seq<Mark>, q: int) { exists k :: 0 <= k < |marks| && Names(marks[k], q) }

  /** Every character of a text of that length has its owner's mark. */
  predicate AllNamed(marks: seq<Mark>, len: nat) { forall q :: 0 <= q < len ==> Named(marks, q) }

  // --------------------------------------------------- what marks do to a document

  /** The marks lie in the text, and those that name an owner name the recording. */
  predicate NameOnly(marks: seq<Mark>, session: string, from: nat, to: nat) {
    forall k :: 0 <= k < |marks| && marks[k].len > 0 ==>
      from <= marks[k].pos && marks[k].pos + marks[k].len <= to
      && (marks[k].key == "session_id" ==> marks[k].value == Str(session))
  }

  lemma {:induction false} SetMarksOutside(cells: seq<Cell>, at: nat, marks: seq<Mark>, session: string, to: nat, p: nat)
    requires NameOnly(marks, session, 0, to) && p < |cells| && (p < at || at + to <= p)
    ensures SetMarks(cells, at, marks)[p] == cells[p]
    decreases |marks|
  {
    if marks != [] {
      SetMarksOutside(SetMark(cells, at, marks[0]), at, marks[1..], session, to, p);
    }
  }

  predicate OwnerIs(cell: Cell, session: string, named: bool) {
    if named then Owned(cell, session) else "session_id" !in cell.attributes
  }

  lemma NamedFirst(marks: seq<Mark>, q: int)
    requires marks != []
    ensures Named(marks, q) <==> Names(marks[0], q) || Named(marks[1..], q)
  {
    assert forall k :: 1 <= k < |marks| ==> marks[k] == marks[1..][k - 1];
    assert forall k :: 0 <= k < |marks| - 1 ==> marks[1..][k] == marks[k + 1];
  }

  lemma {:induction false} SetMarksInside(cells: seq<Cell>, at: nat, marks: seq<Mark>, session: string, to: nat, p: nat, named: bool)
    requires NameOnly(marks, session, 0, to) && at <= p < |cells| && OwnerIs(cells[p], session, named)
    ensures OwnerIs(SetMarks(cells, at, marks)[p], session, named || Named(marks, p - at))
    decreases |marks|
  {
    if marks != [] {
      var cell := SetMark(cells, at, marks[0])[p];
      NamedFirst(marks, p - at);
      assert OwnerIs(cell, session, named || Names(marks[0], p - at));
      SetMarksInside(SetMark(cells, at, marks[0]), at, marks[1..], session, to, p, named || Names(marks[0], p - at));
    }
  }

  // ------------------------------------------------------- the marks that are lifted

  predicate NamesSession(attributes: map<string, Json>, session: string) {
    "session_id" in attributes && attributes["session_id"] == Str(session)
  }

  lemma {:induction false} MarksOfName(fields: seq<Field>, session: string, pos: nat, len: nat)
    requires DistinctKeys(fields)
    requires len > 0 ==> NamesSession(AsMap(fields), session)
    ensures NameOnly(MarksOf(fields, pos, len), session, pos, pos + len)
  {
    forall k | 0 <= k < |MarksOf(fields, pos, len)|
      ensures MarksOf(fields, pos, len)[k].pos == pos && MarksOf(fields, pos, len)[k].len == len
      ensures len > 0 && MarksOf(fields, pos, len)[k].key == "session_id" ==> MarksOf(fields, pos, len)[k].value == Str(session)
    {
      MarksOfAt(fields, pos, len, k);
      LookupIsMap(fields, "session_id");
      if fields[k].key == "session_id" { LookupAt(fields, k); }
    }
  }

  lemma {:induction false} MarksOfAt(fields: seq<Field>, pos: nat, len: nat, k: nat)
    requires k < |MarksOf(fields, pos, len)|
    ensures k < |fields| == |MarksOf(fields, pos, len)|
    ensures MarksOf(fields, pos, len)[k] == Mark(pos, len, fields[k].key, fields[k].value)
  {
    MarksOfLength(fields, pos, len);
    if k < |fields| - 1 {
      MarksOfLength(fields[..|fields| - 1], pos, len);
      MarksOfAt(fields[..|fields| - 1], pos, len, k);
    }
  }

  lemma {:induction false} MarksOfLength(fields: seq<Field>, pos: nat, len: nat)
    ensures |MarksOf(fields, pos, len)| == |fields|
  {
    if fields != [] { MarksOfLength(fields[..|fields| - 1], pos, len); }
  }

  lemma {:induction false} LookupAt(fields: seq<Field>, k: nat)
    requires DistinctKeys(fields) && k < |fields|
    ensures Lookup(fields, fields[k].key) == Some(fields[k].value)
  {
    if k > 0 { LookupAt(fields[1..], k - 1); }
  }

  lemma NameOnlyJoins(a: seq<Mark>, b: seq<Mark>, session: string, from: nat, mid: nat, to: nat)
    requires NameOnly(a, session, from, mid) && NameOnly(b, session, mid, to) && from <= mid <= to
    ensures NameOnly(a + b, session, from, to)
  {
  }

  ghost predicate AllOwned(cells: seq<Cell>, session: string) { forall i :: 0 <= i < |cells| ==> Owned(cells[i], session) }

  lemma OwnedStyle(text: string, attributes: map<string, Json>, rest: seq<Cell>, session: string)
    requires AllOwned(Styled(text, attributes) + rest, session)
    ensures text != "" ==> NamesSession(attributes, session)
    ensures AllOwned(rest, session)
  {
    var all := Styled(text, attributes) + rest;
    assert forall i :: 0 <= i < |rest| ==> rest[i] == all[|text| + i];
    if text != "" { assert Owned(all[0], session); }
  }

  lemma PartNames(segment: Json, cursor: nat, taken: nat, r: Range, session: string)
    requires WellFormed(segment)
    requires Taken(TextOf(segment).value, cursor, r) != "" ==> NamesSession(AsMap(FieldsOf(segment)), session)
    ensures var part := PartOf(segment, cursor, taken, r);
            NamesOwner(part, session, taken) && part.text == Taken(TextOf(segment).value, cursor, r)
  {
    MarksOfName(FieldsOf(segment), session, taken, |Taken(TextOf(segment).value, cursor, r)|);
  }

  ghost predicate NamesOwner(section: FlatSection, session: string, taken: nat) {
    NameOnly(section.marks, session, taken, taken + |section.text|)
  }

  lemma JoinNames(part: FlatSection, rest: FlatSection, session: string, taken: nat, next: nat)
    requires next == taken + |part.text| && NamesOwner(part, session, taken) && NamesOwner(rest, session, next)
    ensures NamesOwner(Join(part, rest), session, taken)
  {
    NameOnlyJoins(part.marks, rest.marks, session, taken, next, next + |rest.text|);
  }

  lemma PartText(segment: Json, cursor: nat, taken: nat, r: Range)
    requires TextOf(segment).Ok?
    ensures PartOf(segment, cursor, taken, r).text == Taken(TextOf(segment).value, cursor, r)
  {
  }

  lemma SameNames(a: FlatSection, b: FlatSection, session: string, taken: nat)
    requires a == b && NamesOwner(a, session, taken)
    ensures NamesOwner(b, session, taken)
  {
  }

  lemma LiftedFirst(segments: seq<Json>, cursor: nat, r: Range, session: string, text: string, next: nat)
    requires AllWellFormed(segments) && segments != [] && text == Taken(TextOf(segments[0]).value, cursor, r)
    requires next == cursor + |TextOf(segments[0]).value| && AllOwned(Lifted(segments, cursor, r), session)
    ensures AllWellFormed(segments[1..]) && AllOwned(Lifted(segments[1..], next, r), session)
    ensures text != "" ==> NamesSession(AsMap(FieldsOf(segments[0])), session)
  {
    LiftedIs(segments, cursor, r, text, next);
    OwnedStyle(text, AsMap(FieldsOf(segments[0])), Lifted(segments[1..], next, r), session);
  }

  lemma FirstNames(segments: seq<Json>, cursor: nat, taken: nat, r: Range, session: string, part: FlatSection, next: nat)
    requires AllWellFormed(segments) && segments != [] && AllOwned(Lifted(segments, cursor, r), session)
    requires part == PartOf(segments[0], cursor, taken, r) && next == cursor + |TextOf(segments[0]).value|
    ensures AllWellFormed(segments[1..]) && AllOwned(Lifted(segments[1..], next, r), session)
    ensures NamesOwner(part, session, taken)
  {
    LiftedFirst(segments, cursor, r, session, Taken(TextOf(segments[0]).value, cursor, r), next);
    PartNames(segments[0], cursor, taken, r, session);
  }

  lemma NamesNext(part: FlatSection, rest: FlatSection, all: FlatSection, session: string, taken: nat, more: nat)
    requires NamesOwner(part, session, taken) && NamesOwner(rest, session, more)
    requires more == taken + |part.text| && all == Join(part, rest)
    ensures NamesOwner(all, session, taken)
  {
    JoinNames(part, rest, session, taken, more);
    SameNames(Join(part, rest), all, session, taken);
  }

  /** A lifted section's marks name its recording and no other owner. */
  lemma {:induction false} LiftNames(segments: seq<Json>, cursor: nat, taken: nat, r: Range, session: string)
    requires AllWellFormed(segments) && AllOwned(Lifted(segments, cursor, r), session)
    ensures NamesOwner(Lift(segments, cursor, taken, r), session, taken)
    decreases |segments|
  {
    if segments != [] {
      var part := PartOf(segments[0], cursor, taken, r);
      var next, more := cursor + |TextOf(segments[0]).value|, taken + |part.text|;
      FirstNames(segments, cursor, taken, r, session, part, next);
      LiftNames(segments[1..], next, more, r, session);
      LiftIs(segments, cursor, taken, r, part, next, more);
      NamesNext(part, Lift(segments[1..], next, more, r), Lift(segments, cursor, taken, r), session, taken, more);
    }
  }

  // ------------------------------------------------------------------ main results

  /** A text put into a document, of whose characters some are the recording's. */
  ghost predicate Patched(target: seq<Cell>, patched: seq<Cell>, at: nat, len: nat, session: string, marks: seq<Mark>) {
    && at <= |target| && |patched| == |target| + len
    && patched[..at] == target[..at] && patched[at + len..] == target[at..]
    && forall q :: 0 <= q < len ==> OwnerIs(patched[at + q], session, Named(marks, q))
  }

  lemma InsertAt(target: seq<Cell>, at: nat, text: string)
    requires at <= |target|
    ensures var all := Insert(target, at, text);
            && |all| == |target| + |text|
            && all[..at] == target[..at] && all[at + |text|..] == target[at..]
            && forall p :: at <= p < at + |text| ==> all[p].attributes == map[]
  {
  }

  lemma MarkedIsPatched(target: seq<Cell>, at: nat, text: string, marks: seq<Mark>, session: string)
    requires at <= |target| && NameOnly(marks, session, 0, |text|)
    ensures Patched(target, SetMarks(Insert(target, at, text), at, marks), at, |text|, session, marks)
  {
    var plain := Insert(target, at, text);
    var marked := SetMarks(plain, at, marks);
    InsertAt(target, at, text);
    forall p | 0 <= p < |plain| && (p < at || at + |text| <= p)
      ensures marked[p] == plain[p]
    {
      SetMarksOutside(plain, at, marks, session, |text|, p);
    }
    assert marked[..at] == plain[..at] && marked[at + |text|..] == plain[at + |text|..];
    forall q | 0 <= q < |text|
      ensures OwnerIs(marked[at + q], session, Named(marks, q))
    {
      assert plain[at + q].attributes == map[];
      SetMarksInside(plain, at, marks, session, |text|, at + q, false);
    }
  }

  lemma PatchedParts(target: seq<Cell>, patched: seq<Cell>, at: nat, len: nat, session: string, marks: seq<Mark>)
    requires Patched(target, patched, at, len, session, marks)
    ensures patched == target[..at] + patched[at..at + len] + target[at..]
    ensures target == target[..at] + target[at..]
  {
  }

  lemma PatchedAt(target: seq<Cell>, patched: seq<Cell>, at: nat, len: nat, session: string, marks: seq<Mark>, p: nat)
    requires Patched(target, patched, at, len, session, marks) && p < |patched|
    ensures p < at ==> patched[p] == target[p]
    ensures at <= p < at + len ==> OwnerIs(patched[p], session, Named(marks, p - at))
    ensures at + len <= p ==> patched[p] == target[p - len]
  {
    if p < at {
      assert patched[p] == patched[..at][p] == target[..at][p];
    } else if p < at + len {
      assert patched[p] == patched[at + (p - at)];
    } else {
      assert patched[p] == patched[at + len..][p - at - len] == target[at..][p - at - len];
    }
  }

  lemma PatchedOwner(target: seq<Cell>, patched: seq<Cell>, at: nat, len: nat, session: string, marks: seq<Mark>, p: nat)
    requires OwnersAreNames(target) && NoSection(target, session) && AllNamed(marks, len)
    requires Patched(target, patched, at, len, session, marks) && p < |patched|
    ensures Owned(patched[p], session) <==> Inside(Range(at, len), p)
    ensures "session_id" in patched[p].attributes ==> patched[p].attributes["session_id"].Str?
  {
    PatchedAt(target, patched, at, len, session, marks, p);
  }

  lemma PatchedSection(b: Bridge, target: seq<Cell>, patched: seq<Cell>, at: nat, len: nat, session: string, marks: seq<Mark>)
    requires Lawful(b) && OwnersAreNames(target) && NoSection(target, session)
    requires Patched(target, patched, at, len, session, marks) && AllNamed(marks, len) && len > 0
    ensures RemoveFlat(b, patched, session) == Ok(target)
  {
    forall p | 0 <= p < |patched|
      ensures Owned(patched[p], session) <==> Inside(Range(at, len), p)
      ensures "session_id" in patched[p].attributes ==> patched[p].attributes["session_id"].Str?
    {
      PatchedOwner(target, patched, at, len, session, marks, p);
    }
    FoundSection(b, patched, session, Range(at, len));
    PatchedDelete(target, patched, at, len, session, marks);
  }

  lemma PatchedDelete(target: seq<Cell>, patched: seq<Cell>, at: nat, len: nat, session: string, marks: seq<Mark>)
    requires Patched(target, patched, at, len, session, marks)
    ensures Delete(patched, Range(at, len)) == target
  {
    PatchedParts(target, patched, at, len, session, marks);
  }

  lemma {:induction false} UnownedStays(cells: seq<Cell>, session: string, q: nat)
    requires q < |cells| && !Owned(cells[q], session)
    ensures |Others(cells, session)| > 0
  {
    if q > 0 { UnownedStays(cells[1..], session, q - 1); }
  }

  lemma PatchedOthers(target: seq<Cell>, patched: seq<Cell>, at: nat, len: nat, session: string, marks: seq<Mark>)
    requires NoSection(target, session) && Patched(target, patched, at, len, session, marks)
    ensures Others(patched, session) == target[..at] + Others(patched[at..at + len], session) + target[at..]
    ensures AllNamed(marks, len) || |Others(patched, session)| > |target|
  {
    PatchedParts(target, patched, at, len, session, marks);
    FilterThree(target[..at], patched[at..at + len], target[at..], session, false);
    FilterAll(target[..at], session, false);
    FilterAll(target[at..], session, false);
    if !AllNamed(marks, len) {
      var q :| 0 <= q < len && !Named(marks, q);
      assert patched[at..at + len][q] == patched[at + q] && OwnerIs(patched[at + q], session, false);
      UnownedStays(patched[at..at + len], session, q);
    }
  }

  lemma CarriedNames(b: Bridge, p: Pair, session: string)
    requires Lawful(b) && Edits(b, p, session)
    ensures var section := Carried(b, p, session);
            section.text != "" && NameOnly(section.marks, session, 0, |section.text|)
    ensures OwnersAreNames(p.target) && NoSection(p.target, session)
  {
    var r := FindSection(b, p.source, session).value.value;
    FoundSection(b, p.source, session, r);
    FindSectionIs(b, p.target, session);
    var segments := b.delta(p.source);
    LiftedIsClip(segments, 0, r);
    ClipFromStart(CellsOf(segments), r);
    assert AllOwned(Lifted(segments, 0, r), session);
    LiftNames(segments, 0, 0, r, session);
    LiftLength(segments, 0, 0, r);
  }

  lemma {:induction false} LiftLength(segments: seq<Json>, cursor: nat, taken: nat, r: Range)
    requires AllWellFormed(segments)
    ensures |Lift(segments, cursor, taken, r).text| == |Lifted(segments, cursor, r)|
    decreases |segments|
  {
    if segments != [] {
      var part := PartOf(segments[0], cursor, taken, r);
      var next, more := cursor + |TextOf(segments[0]).value|, taken + |part.text|;
      PartText(segments[0], cursor, taken, r);
      LiftIs(segments, cursor, taken, r, part, next, more);
      LiftedIs(segments, cursor, r, part.text, next);
      LiftLength(segments[1..], next, more, r);
    }
  }

  /** Whether a rollback can find all that the failed copy has inserted. */
  predicate Traceable(section: FlatSection, fault: Fault) {
    fault.InsertFails? || AllNamed(Set(section.marks, fault.after), |section.text|)
  }

  lemma SetNames(marks: seq<Mark>, after: nat, session: string, to: nat)
    requires NameOnly(marks, session, 0, to)
    ensures NameOnly(Set(marks, after), session, 0, to)
  {
  }

  /** A copy that fails midway is undone without a trace exactly when it failed at
      the insert or every inserted character had its owner's mark by then; any
      other character stays in the target as text of no recording. */
  lemma BrokenCopyIsUndoneIff(b: Bridge, p: Pair, session: string, fault: Fault)
    requires Lawful(b) && Edits(b, p, session)
    ensures UndoPair(b, Broken(b, p, session, fault), session) == p <==> Traceable(Carried(b, p, session), fault)
    ensures !Traceable(Carried(b, p, session), fault) ==>
              |Others(UndoPair(b, Broken(b, p, session, fault), session).target, session)| > |p.target|
  {
    CarriedNames(b, p, session);
    var section, broken := Carried(b, p, session), Broken(b, p, session, fault).target;
    match fault
    case InsertFails => NothingToUndo(b, p, session);
    case MarkFails(after) =>
      var marks, at, len := Set(section.marks, after), PlaceOf(b, p.target, p.later), |section.text|;
      SetNames(section.marks, after, session, len);
      MarkedIsPatched(p.target, at, section.text, marks, session);
      UndoPatched(b, p, broken, at, len, session, marks);
  }

  /** A copy of which only the save fails is always undone. */
  lemma UnsavedCopyIsUndone(b: Bridge, p: Pair, session: string, after: nat)
    requires Lawful(b) && Edits(b, p, session) && |Carried(b, p, session).marks| <= after
    ensures Traceable(Carried(b, p, session), MarkFails(after))
  {
    var section := Carried(b, p, session);
    assert Set(section.marks, after) == section.marks;
    FoundIff(b, p.source, session);
    FoundIff(b, p.target, session);
    NoSectionIff(p.target, session);
    RollbackUndoesCopy(b, p.source, p.target, session, p.later);
    BrokenCopyIsUndoneIff(b, p, session, MarkFails(after));
  }

  /** A copy that fails at its first mark never is: its text stays. */
  lemma UnmarkedTextStays(b: Bridge, p: Pair, session: string)
    requires Lawful(b) && Edits(b, p, session)
    ensures !Traceable(Carried(b, p, session), MarkFails(0))
    ensures UndoPair(b, Broken(b, p, session, MarkFails(0)), session) != p
  {
    CarriedNames(b, p, session);
    BrokenCopyIsUndoneIff(b, p, session, MarkFails(0));
    assert !Named(Set(Carried(b, p, session).marks, 0), 0);
  }

  lemma NothingToUndo(b: Bridge, p: Pair, session: string)
    requires Lawful(b) && FindSection(b, p.target, session) == Ok(None)
    ensures UndoPair(b, p, session) == p
  {
  }

  lemma UndoPatched(b: Bridge, p: Pair, broken: seq<Cell>, at: nat, len: nat, session: string, marks: seq<Mark>)
    requires Lawful(b) && OwnersAreNames(p.target) && NoSection(p.target, session) && len > 0
    requires Patched(p.target, broken, at, len, session, marks)
    ensures var undone := UndoPair(b, p.(target := broken), session);
            && (undone == p <==> AllNamed(marks, len))
            && (!AllNamed(marks, len) ==> |Others(undone.target, session)| > |p.target|)
  {
    if AllNamed(marks, len) {
      PatchedSection(b, p.target, broken, at, len, session, marks);
    } else {
      PatchedOthers(p.target, broken, at, len, session, marks);
      ClearRemovesSection(b, broken, session);
      NoSectionIff(Others(broken, session), session);
      OthersAreNotOwned(broken, session);
      NoSectionIff(p.target, session);
    }
  }

  /** How the copying of a move ends: after some copies, or in the middle of one. */
  ghost predicate Halted(b: Bridge, before: seq<Pair>, session: string, k: nat, fault: Option<Fault>, now: seq<Pair>)
    requires Lawful(b)
  {
    && k <= |before| && CopyFirst(b, before, session, k).Ok?
    && var done := CopyFirst(b, before, session, k).value;
       if fault.None? then now == done
       else k < |before| && Edits(b, before[k], session) && now == done[k := Broken(b, before[k], session, fault.value)]
  }

  ghost predicate RolledBack(b: Bridge, before: seq<Pair>, session: string, after: seq<Pair>)
    requires Lawful(b)
  {
    exists k: nat, fault, now :: Halted(b, before, session, k, fault, now) && after == UndoAll(b, now, session)
  }

  /** Some copy of the move meets its fault. */
  ghost predicate Meets(b: Bridge, pairs: seq<Pair>, session: string, faults: map<nat, Fault>) {
    exists i: nat :: i < |pairs| && i in faults && Edits(b, pairs[i], session)
  }

  /** Every copy of the move can be read, and none meets a fault. */
  ghost predicate AllCopied(b: Bridge, before: seq<Pair>, session: string, faults: map<nat, Fault>)
    requires Lawful(b)
  {
    CopyFirst(b, before, session, |before|).Ok? && !Meets(b, before, session, faults)
  }

  /** How the copying ends: with every copy made, or halted. */
  ghost predicate Copying(b: Bridge, before: seq<Pair>, session: string, ok: bool, now: seq<Pair>)
    requires Lawful(b)
  {
    && |now| == |before|
    && (ok ==> CopiedSome(b, before, session, |before|, now))
    && exists k: nat, fault :: Halted(b, before, session, k, fault, now)
  }

  /** The first copies are made. */
  ghost predicate CopiedSoFar(b: Bridge, before: seq<Pair>, session: string, faults: map<nat, Fault>, i: nat, now: seq<Pair>)
    requires Lawful(b)
  {
    && |now| == |before| && CopiedSome(b, before, session, i, now)
    && forall k: nat :: k < i ==> !(k in faults && Edits(b, before[k], session))
  }

  lemma CopyingStarts(b: Bridge, before: seq<Pair>, session: string, faults: map<nat, Fault>)
    requires Lawful(b)
    ensures CopiedSoFar(b, before, session, faults, 0, before)
  {
    NothingYet(b, before, session);
  }

  lemma CopyingGoesOn(b: Bridge, before: seq<Pair>, session: string, faults: map<nat, Fault>, i: nat, now: seq<Pair>)
    requires Lawful(b) && i < |before| && CopiedSoFar(b, before, session, faults, i, now)
    ensures now[i] == before[i]
    ensures CopyPair(b, now[i], session).Ok? && !(i in faults && Edits(b, now[i], session)) ==>
              CopiedSoFar(b, before, session, faults, i + 1, now[i := CopyPair(b, now[i], session).value])
  {
    CopyFirstIs(b, before, session, i);
    CopyFirstNext(b, before, session, i, now);
  }

  lemma CopyingStops(b: Bridge, before: seq<Pair>, session: string, faults: map<nat, Fault>, i: nat, now: seq<Pair>)
    requires Lawful(b) && i < |before| && CopiedSoFar(b, before, session, faults, i, now)
    ensures CopyPair(b, now[i], session).Err? ==> Copying(b, before, session, false, now) && !AllCopied(b, before, session, faults)
  {
    CopyFirstNext(b, before, session, i, now);
    assert Halted(b, before, session, i, None, now);
  }

  lemma CopyingBreaks(b: Bridge, before: seq<Pair>, session: string, faults: map<nat, Fault>, i: nat, now: seq<Pair>, fault: Fault)
    requires Lawful(b) && i < |before| && CopiedSoFar(b, before, session, faults, i, now)
    requires i in faults && faults[i] == fault && Edits(b, now[i], session)
    ensures Copying(b, before, session, false, now[i := Broken(b, now[i], session, fault)]) && !AllCopied(b, before, session, faults)
  {
    CopyFirstIs(b, before, session, i);
    assert Meets(b, before, session, faults);
    assert Halted(b, before, session, i, Some(fault), now[i := Broken(b, now[i], session, fault)]);
  }

  lemma CopyingEnds(b: Bridge, before: seq<Pair>, session: string, faults: map<nat, Fault>, now: seq<Pair>)
    requires Lawful(b) && CopiedSoFar(b, before, session, faults, |before|, now)
    ensures Copying(b, before, session, true, now) && AllCopied(b, before, session, faults)
  {
    assert Halted(b, before, session, |before|, None, now);
  }

  lemma HaltedAt(b: Bridge, pairs: seq<Pair>, session: string, k: nat, fault: Fault, now: seq<Pair>)
    requires Lawful(b) && Halted(b, pairs, session, k, Some(fault), now)
    ensures |now| == |pairs| && now[k] == Broken(b, pairs[k], session, fault)
    ensures UndoAll(b, now, session)[k] == UndoPair(b, now[k], session)
    ensures forall i :: 0 <= i < |pairs| && i != k ==>
              UndoAll(b, now, session)[i] == UndoAll(b, CopyFirst(b, pairs, session, k).value, session)[i]
    ensures UndoPair(b, now[k], session).source == pairs[k].source
  {
  }

  /** A failed move leaves every source as it was. A target that had no section is
      exactly as it was, except the one in the middle of whose copy the move
      failed: that one is exactly when the rollback can trace all inserted text. */
  lemma HaltedMoveRestoresIff(b: Bridge, pairs: seq<Pair>, session: string, k: nat, fault: Fault, now: seq<Pair>)
    requires Lawful(b) && Halted(b, pairs, session, k, Some(fault), now)
    ensures var undone := UndoAll(b, now, session);
            && (forall i :: 0 <= i < |pairs| ==> undone[i].source == pairs[i].source)
            && (forall i :: 0 <= i < |pairs| && i != k && Section(pairs[i].target, session) == [] ==> undone[i] == pairs[i])
            && (undone[k] == pairs[k] <==> Traceable(Carried(b, pairs[k], session), fault))
  {
    RollbackRestores(b, pairs, session, k);
    BrokenCopyIsUndoneIff(b, pairs[k], session, fault);
    CopyFirstIs(b, pairs, session, k);
    HaltedAt(b, pairs, session, k, fault, now);
  }

  lemma MoveIsUndone(b: Bridge, before: seq<Pair>, session: string, copied: bool, now: seq<Pair>)
    requires Lawful(b) && Copying(b, before, session, copied, now)
    ensures RolledBack(b, before, session, UndoAll(b, now, session))
  {
  }

  /** How the clearing of all sources ends. */
  ghost predicate Clearing(b: Bridge, before: seq<Pair>, session: string, ok: bool, now: seq<Pair>)
    requires Lawful(b)
  {
    && |now| == |before|
    && (!ok ==> ClearFirst(b, before, session, |before|).Err?)
    && (ok ==> ClearedSome(b, before, session, |before|, now))
  }

  lemma MoveIsMade(b: Bridge, before: seq<Pair>, session: string, now: seq<Pair>, cleared: bool, after: seq<Pair>)
    requires Lawful(b) && Copying(b, before, session, true, now) && Clearing(b, now, session, cleared, after)
    ensures cleared && Finished(b, before, session, after)
  {
    ClearsCannotFail(b, before, session, now, |now|);
  }
}
