/**
 A recording's section in a flat document: where it is, lifting it out with its
 marks, and putting it into another document.
 */
module FlatSections {
  import opened Wrappers
  import opened EditorDelta

  /** A character and its attributes. */
  datatype Cell = Cell(ch: char, attributes: map<string, Json>)

  /** One attribute over a stretch of a section, counted from its start. */
  datatype Mark = Mark(pos: nat, len: nat, key: string, value: Json)

  datatype FlatSection = FlatSection(text: string, marks: seq<Mark>)

  // ------------------------------------------------------- documents as segments

  function FieldsOf(segment: Json): seq<Field> {
    match Get(segment, "attributes")
    case Some(Obj(fields)) => fields
    case _ => []
  }

  predicate DistinctKeys(fields: seq<Field>) {
    forall i, j :: 0 <= i < j < |fields| ==> fields[i].key != fields[j].key
  }

  function AsMap(fields: seq<Field>): map<string, Json> {
    if fields == [] then map[] else AsMap(fields[..|fields| - 1])[fields[|fields| - 1].key := fields[|fields| - 1].value]
  }

  predicate WellFormed(segment: Json) {
    TextOf(segment).Ok? && DistinctKeys(FieldsOf(segment))
  }

  predicate AllWellFormed(segments: seq<Json>) { forall i :: 0 <= i < |segments| ==> WellFormed(segments[i]) }

  function Styled(text: string, attributes: map<string, Json>): (cells: seq<Cell>)
    ensures |cells| == |text|
  {
    seq(|text|, i requires 0 <= i < |text| => Cell(text[i], attributes))
  }

  /** The characters a Delta stands for. */
  function CellsOf(segments: seq<Json>): seq<Cell>
    requires AllWellFormed(segments)
  {
    if segments == [] then []
    else Styled(TextOf(segments[0]).value, AsMap(FieldsOf(segments[0]))) + CellsOf(segments[1..])
  }

  // ----------------------------------------------------------------- lifting

  function Min(a: int, b: int): int { if a <= b then a else b }

  function Max(a: int, b: int): int { if a >= b then a else b }

  /** The part of a segment's text inside the range, when the segment starts at `cursor`. */
  function Taken(text: string, cursor: nat, r: Range): string {
    if cursor + |text| <= r.pos || cursor >= r.pos + r.len then ""
    else text[Max(r.pos - cursor, 0)..Min(|text|, r.pos + r.len - cursor)]
  }

  function MarksOf(fields: seq<Field>, pos: nat, len: nat): seq<Mark> {
    if fields == [] then []
    else MarksOf(fields[..|fields| - 1], pos, len) + [Mark(pos, len, fields[|fields| - 1].key, fields[|fields| - 1].value)]
  }

  predicate TextsAreStrings(segments: seq<Json>) { forall i :: 0 <= i < |segments| ==> TextOf(segments[i]).Ok? }

  /** What one segment at `cursor` adds to a section of which `taken` characters are
      lifted; a segment outside the range adds nothing. */
  function PartOf(segment: Json, cursor: nat, taken: nat, r: Range): FlatSection
    requires TextOf(segment).Ok?
  {
    var text := TextOf(segment).value;
    var part := Taken(text, cursor, r);
    if cursor + |text| <= r.pos || cursor >= r.pos + r.len then FlatSection("", [])
    else FlatSection(part, MarksOf(FieldsOf(segment), taken, |part|))
  }

  function Join(a: FlatSection, b: FlatSection): FlatSection { FlatSection(a.text + b.text, a.marks + b.marks) }

  /** The range's text and marks, from the segments that start at `cursor`. */
  function Lift(segments: seq<Json>, cursor: nat, taken: nat, r: Range): FlatSection
    requires TextsAreStrings(segments)
    decreases |segments|
  {
    if segments == [] then FlatSection("", [])
    else
      var part := PartOf(segments[0], cursor, taken, r);
      Join(part, Lift(segments[1..], cursor + |TextOf(segments[0]).value|, taken + |part.text|, r))
  }

  // ------------------------------------------------------------- edits of a document

  /** Inserted text carries no attributes of its own. */
  function Insert(cells: seq<Cell>, pos: nat, text: string): seq<Cell>
    requires pos <= |cells|
  {
    cells[..pos] + Styled(text, map[]) + cells[pos..]
  }

  function Delete(cells: seq<Cell>, r: Range): seq<Cell>
    requires r.pos + r.len <= |cells|
  {
    cells[..r.pos] + cells[r.pos + r.len..]
  }

  function SetMark(cells: seq<Cell>, at: nat, mark: Mark): (after: seq<Cell>)
    ensures |after| == |cells|
  {
    seq(|cells|, i requires 0 <= i < |cells| =>
      if at + mark.pos <= i < at + mark.pos + mark.len
      then cells[i].(attributes := cells[i].attributes[mark.key := mark.value])
      else cells[i])
  }

  function SetMarks(cells: seq<Cell>, at: nat, marks: seq<Mark>): (after: seq<Cell>)
    ensures |after| == |cells|
    decreases |marks|
  {
    if marks == [] then cells else SetMarks(SetMark(cells, at, marks[0]), at, marks[1..])
  }

  lemma {:induction false} SetMarksTwice(cells: seq<Cell>, at: nat, a: seq<Mark>, b: seq<Mark>)
    ensures SetMarks(cells, at, a + b) == SetMarks(SetMarks(cells, at, a), at, b)
    decreases |a|
  {
    if a == [] {
      assert a + b == b;
    } else {
      assert (a + b)[1..] == a[1..] + b;
      SetMarksTwice(SetMark(cells, at, a[0]), at, a[1..], b);
    }
  }

  lemma OneMark(cells: seq<Cell>, at: nat, mark: Mark)
    ensures SetMarks(cells, at, [mark]) == SetMark(cells, at, mark)
  {
    assert [mark][1..] == [];
  }

  /** The marks of a segment give inserted text the segment's attributes. */
  lemma {:induction false} MarksStyle(before: seq<Cell>, text: string, after: seq<Cell>, fields: seq<Field>, at: nat, pos: nat)
    requires at + pos == |before|
    ensures SetMarks(before + Styled(text, map[]) + after, at, MarksOf(fields, pos, |text|))
         == before + Styled(text, AsMap(fields)) + after
  {
    if fields != [] {
      var front, last := fields[..|fields| - 1], fields[|fields| - 1];
      var mark := Mark(pos, |text|, last.key, last.value);
      MarksStyle(before, text, after, front, at, pos);
      SetMarksTwice(before + Styled(text, map[]) + after, at, MarksOf(front, pos, |text|), [mark]);
      OneMark(before + Styled(text, AsMap(front)) + after, at, mark);
      assert SetMark(before + Styled(text, AsMap(front)) + after, at, mark) == before + Styled(text, AsMap(fields)) + after;
    }
  }

  function Clip(cells: seq<Cell>, cursor: nat, r: Range): seq<Cell> {
    var from, to := Max(r.pos - cursor, 0), Min(|cells|, r.pos + r.len - cursor);
    if from <= to then cells[from..to] else []
  }

  lemma ClipSplit(a: seq<Cell>, b: seq<Cell>, cursor: nat, r: Range)
    ensures Clip(a + b, cursor, r) == Clip(a, cursor, r) + Clip(b, cursor + |a|, r)
  {
  }

  lemma TakenIsClip(text: string, attributes: map<string, Json>, cursor: nat, r: Range)
    ensures Styled(Taken(text, cursor, r), attributes) == Clip(Styled(text, attributes), cursor, r)
  {
  }

  lemma StyledAppend(a: string, b: string, attributes: map<string, Json>)
    ensures Styled(a + b, attributes) == Styled(a, attributes) + Styled(b, attributes)
  {
  }

  /** The characters of the range, segment by segment. */
  function Lifted(segments: seq<Json>, cursor: nat, r: Range): seq<Cell>
    requires AllWellFormed(segments)
  {
    if segments == [] then []
    else
      var first := Styled(TextOf(segments[0]).value, AsMap(FieldsOf(segments[0])));
      Clip(first, cursor, r) + Lifted(segments[1..], cursor + |first|, r)
  }

  lemma {:induction false} LiftedIsClip(segments: seq<Json>, cursor: nat, r: Range)
    requires AllWellFormed(segments)
    ensures Lifted(segments, cursor, r) == Clip(CellsOf(segments), cursor, r)
  {
    if segments == [] {
      assert Clip([], cursor, r) == [];
    } else {
      var first := Styled(TextOf(segments[0]).value, AsMap(FieldsOf(segments[0])));
      var next := cursor + |first|;
      LiftedIsClip(segments[1..], next, r);
      LiftedHead(segments, cursor, r, first, next);
      ClipSplit(first, CellsOf(segments[1..]), cursor, r);
      CellsOfFirst(segments);
    }
  }

  /** Marking the first of two inserted texts leaves the second to its own marks. */
  lemma MarkFirst(before: seq<Cell>, part: string, rest: string, after: seq<Cell>, fields: seq<Field>,
                  at: nat, pos: nat, marks: seq<Mark>, more: seq<Mark>)
    requires at + pos == |before|
    requires marks == MarksOf(fields, pos, |part|) || (part == "" && marks == [])
    ensures SetMarks(before + Styled(part + rest, map[]) + after, at, marks + more)
         == SetMarks(before + Styled(part, AsMap(fields)) + Styled(rest, map[]) + after, at, more)
  {
    var tail := Styled(rest, map[]) + after;
    StyledAppend(part, rest, map[]);
    assert before + Styled(part + rest, map[]) + after == before + Styled(part, map[]) + tail;
    SetMarksTwice(before + Styled(part, map[]) + tail, at, marks, more);
    if marks == MarksOf(fields, pos, |part|) {
      MarksStyle(before, part, tail, fields, at, pos);
    } else {
      assert Styled(part, map[]) == Styled(part, AsMap(fields));
    }
    assert before + Styled(part, AsMap(fields)) + tail == before + Styled(part, AsMap(fields)) + Styled(rest, map[]) + after;
  }

  /** The section's text, inserted plainly between two stretches, becomes `cells`
      when its marks are set. */
  ghost predicate Reproduces(before: seq<Cell>, section: FlatSection, cells: seq<Cell>, after: seq<Cell>, at: nat) {
    SetMarks(before + Styled(section.text, map[]) + after, at, section.marks) == before + cells + after
  }

  lemma SameReproduces(before: seq<Cell>, a: FlatSection, b: FlatSection, x: seq<Cell>, y: seq<Cell>, after: seq<Cell>, at: nat)
    requires Reproduces(before, a, x, after, at) && a == b && x == y
    ensures Reproduces(before, b, y, after, at)
  {
  }

  /** The lifted marks turn the lifted text into the characters of the range, one
      for one. */
  lemma {:induction false} LiftReproduces(segments: seq<Json>, cursor: nat, taken: nat, r: Range,
                                          before: seq<Cell>, after: seq<Cell>, at: nat)
    requires AllWellFormed(segments) && at + taken == |before|
    ensures Reproduces(before, Lift(segments, cursor, taken, r), Lifted(segments, cursor, r), after, at)
    decreases |segments|
  {
    if segments == [] {
      assert Styled("", map[]) == [];
    } else {
      var part := PartOf(segments[0], cursor, taken, r);
      var next, more := cursor + |TextOf(segments[0]).value|, taken + |part.text|;
      LiftReproduces(segments[1..], next, more, r, before + Styled(part.text, AsMap(FieldsOf(segments[0]))), after, at);
      ReproducesNext(segments, cursor, taken, r, before, after, at, part, next, more,
                     Lift(segments[1..], next, more, r), Lifted(segments[1..], next, r));
    }
  }

  lemma ReproducesNext(segments: seq<Json>, cursor: nat, taken: nat, r: Range, before: seq<Cell>, after: seq<Cell>, at: nat,
                       part: FlatSection, next: nat, more: nat, rest: FlatSection, cells: seq<Cell>)
    requires AllWellFormed(segments) && at + taken == |before| && segments != []
    requires part == PartOf(segments[0], cursor, taken, r)
    requires next == cursor + |TextOf(segments[0]).value| && more == taken + |part.text|
    requires rest == Lift(segments[1..], next, more, r) && cells == Lifted(segments[1..], next, r)
    requires Reproduces(before + Styled(part.text, AsMap(FieldsOf(segments[0]))), rest, cells, after, at)
    ensures Reproduces(before, Lift(segments, cursor, taken, r), Lifted(segments, cursor, r), after, at)
  {
    var fields := FieldsOf(segments[0]);
    PartOfIs(segments[0], cursor, taken, r);
    LiftCons(before, part, fields, rest, after, at, taken, cells);
    LiftIs(segments, cursor, taken, r, part, next, more);
    LiftedIs(segments, cursor, r, part.text, next);
    SameReproduces(before, Join(part, rest), Lift(segments, cursor, taken, r),
                   Styled(part.text, AsMap(fields)) + cells, Lifted(segments, cursor, r), after, at);
  }

  lemma LiftedIs(segments: seq<Json>, cursor: nat, r: Range, part: string, next: nat)
    requires AllWellFormed(segments) && segments != [] && part == Taken(TextOf(segments[0]).value, cursor, r)
    requires next == cursor + |TextOf(segments[0]).value|
    ensures AllWellFormed(segments[1..])
    ensures Lifted(segments, cursor, r) == Styled(part, AsMap(FieldsOf(segments[0]))) + Lifted(segments[1..], next, r)
  {
    TakenIsClip(TextOf(segments[0]).value, AsMap(FieldsOf(segments[0])), cursor, r);
    LiftedHead(segments, cursor, r, Styled(TextOf(segments[0]).value, AsMap(FieldsOf(segments[0]))), next);
  }

  lemma LiftedHead(segments: seq<Json>, cursor: nat, r: Range, first: seq<Cell>, next: nat)
    requires AllWellFormed(segments) && segments != [] && next == cursor + |first|
    requires first == Styled(TextOf(segments[0]).value, AsMap(FieldsOf(segments[0])))
    ensures AllWellFormed(segments[1..]) && Lifted(segments, cursor, r) == Clip(first, cursor, r) + Lifted(segments[1..], next, r)
  {
  }

  lemma PartOfIs(segment: Json, cursor: nat, taken: nat, r: Range)
    requires TextOf(segment).Ok?
    ensures var part := PartOf(segment, cursor, taken, r);
            && part.text == Taken(TextOf(segment).value, cursor, r)
            && (part.marks == MarksOf(FieldsOf(segment), taken, |part.text|) || (part.text == "" && part.marks == []))
  {
  }

  /** One segment's part and the rest make up a lifted section. */
  lemma LiftIs(segments: seq<Json>, cursor: nat, taken: nat, r: Range, part: FlatSection, next: nat, more: nat)
    requires TextsAreStrings(segments) && segments != [] && part == PartOf(segments[0], cursor, taken, r)
    requires next == cursor + |TextOf(segments[0]).value| && more == taken + |part.text|
    ensures TextsAreStrings(segments[1..])
    ensures Lift(segments, cursor, taken, r) == Join(part, Lift(segments[1..], next, more, r))
  {
  }

  lemma LiftCons(before: seq<Cell>, part: FlatSection, fields: seq<Field>, rest: FlatSection, after: seq<Cell>,
                 at: nat, pos: nat, cells: seq<Cell>)
    requires at + pos == |before|
    requires part.marks == MarksOf(fields, pos, |part.text|) || (part.text == "" && part.marks == [])
    requires Reproduces(before + Styled(part.text, AsMap(fields)), rest, cells, after, at)
    ensures Reproduces(before, Join(part, rest), Styled(part.text, AsMap(fields)) + cells, after, at)
  {
    MarkFirst(before, part.text, rest.text, after, fields, at, pos, part.marks, rest.marks);
    Regroup(before, Styled(part.text, AsMap(fields)), cells, after);
  }

  lemma Regroup(a: seq<Cell>, b: seq<Cell>, c: seq<Cell>, d: seq<Cell>)
    ensures a + b + c + d == a + (b + c) + d
  {
  }

  lemma ClipFromStart(cells: seq<Cell>, r: Range)
    requires r.pos + r.len <= |cells|
    ensures Clip(cells, 0, r) == cells[r.pos..r.pos + r.len]
  {
  }

  /** Inserting a lifted range and setting its marks puts exactly the range's
      characters, with exactly their attributes, at the chosen place. */
  lemma LiftedSectionArrives(segments: seq<Json>, r: Range, target: seq<Cell>, at: nat)
    requires AllWellFormed(segments) && r.pos + r.len <= |CellsOf(segments)| && at <= |target|
    ensures var lifted := Lift(segments, 0, 0, r);
            SetMarks(Insert(target, at, lifted.text), at, lifted.marks)
              == target[..at] + CellsOf(segments)[r.pos..r.pos + r.len] + target[at..]
  {
    LiftReproduces(segments, 0, 0, r, target[..at], target[at..], at);
    LiftedIsClip(segments, 0, r);
    ClipFromStart(CellsOf(segments), r);
  }

  // ------------------------------------------------------------- where a section is

  /** Whether a segment's mark names the recording. The mark must be a string; other
      attribute values are no error here. */
  function OwnedFlag(attributes: Option<Json>, session: string): Result<bool, DeltaError> {
    match attributes
    case None => Ok(false)
    case Some(value) =>
      match Get(value, "session_id")
      case None => Ok(false)
      case Some(Str(owner)) => Ok(owner == session)
      case Some(_) => Err(MarkNotString)
  }

  function OwnedPart(session: string): Json -> Result<Part, DeltaError> {
    segment =>
      match TextOf(segment)
      case Err(e) => Err(e)
      case Ok(text) =>
        match OwnedFlag(Get(segment, "attributes"), session)
        case Err(e) => Err(e)
        case Ok(owned) => Ok(Part(|text|, owned))
  }

  function SectionRange(delta: Json, session: string): Result<Option<Range>, DeltaError> {
    if !delta.Arr? then Err(NotAnArray)
    else
      match ReadParts(delta.items, OwnedPart(session))
      case Err(e) => Err(e)
      case Ok(parts) => TheRange(Collect(parts))
  }

  function TheRange(ranges: seq<Range>): Result<Option<Range>, DeltaError> {
    if |ranges| == 0 then Ok(None) else if |ranges| == 1 then Ok(Some(ranges[0])) else Err(SplitRanges)
  }

  /** A character of a recording's section. */
  predicate Owned(cell: Cell, session: string) {
    "session_id" in cell.attributes && cell.attributes["session_id"] == Str(session)
  }

  /** Every character's owner, if any, is named by a string. */
  predicate OwnersAreNames(cells: seq<Cell>) {
    forall i :: 0 <= i < |cells| ==> "session_id" in cells[i].attributes ==> cells[i].attributes["session_id"].Str?
  }

  lemma {:induction false} LookupIsMap(fields: seq<Field>, key: string)
    requires DistinctKeys(fields)
    ensures Lookup(fields, key).Some? <==> key in AsMap(fields)
    ensures key in AsMap(fields) ==> Lookup(fields, key) == Some(AsMap(fields)[key])
  {
    if fields != [] {
      LookupIsMap(fields[..|fields| - 1], key);
      LookupLast(fields, key);
    }
  }

  lemma {:induction false} LookupLast(fields: seq<Field>, key: string)
    requires DistinctKeys(fields) && fields != []
    ensures var front, last := fields[..|fields| - 1], fields[|fields| - 1];
            && (last.key == key ==> Lookup(fields, key) == Some(last.value))
            && (last.key != key ==> Lookup(fields, key) == Lookup(front, key))
  {
    if |fields| > 1 {
      LookupLast(fields[1..], key);
      assert fields[1..][..|fields| - 2] == fields[..|fields| - 1][1..];
    }
  }

  lemma CellsOfFirst(segments: seq<Json>)
    requires AllWellFormed(segments) && segments != []
    ensures AllWellFormed(segments[1..])
    ensures CellsOf(segments) == Styled(TextOf(segments[0]).value, AsMap(FieldsOf(segments[0]))) + CellsOf(segments[1..])
  {
  }

  lemma {:induction false} CellsOfAppend(front: seq<Json>, last: Json)
    requires AllWellFormed(front) && WellFormed(last)
    ensures AllWellFormed(front + [last])
    ensures CellsOf(front + [last]) == CellsOf(front) + Styled(TextOf(last).value, AsMap(FieldsOf(last)))
    decreases |front|
  {
    var all := front + [last];
    assert AllWellFormed(all);
    CellsOfFirst(all);
    if front == [] {
      assert all[1..] == [];
    } else {
      CellsOfFirst(front);
      assert all[1..] == front[1..] + [last] && all[0] == front[0];
      CellsOfAppend(front[1..], last);
    }
  }

  lemma OwnedFlagIs(attributes: Option<Json>, fields: seq<Field>, session: string)
    requires DistinctKeys(fields)
    requires fields == (match attributes case Some(Obj(f)) => f case _ => [])
    ensures var named, r := AsMap(fields), OwnedFlag(attributes, session);
            && (r.Ok? <==> ("session_id" in named ==> named["session_id"].Str?))
            && (r.Ok? ==> (r.value <==> "session_id" in named && named["session_id"] == Str(session)))
  {
    LookupIsMap(fields, "session_id");
  }

  /** A segment's part tells of each of its characters. */
  lemma OwnedPartIs(segment: Json, session: string)
    requires WellFormed(segment)
    ensures var attributes, r := AsMap(FieldsOf(segment)), OwnedPart(session)(segment);
            && (r.Ok? <==> ("session_id" in attributes ==> attributes["session_id"].Str?))
            && (r.Ok? ==> r.value == Part(|TextOf(segment).value|,
                                          "session_id" in attributes && attributes["session_id"] == Str(session)))
  {
    OwnedFlagIs(Get(segment, "attributes"), FieldsOf(segment), session);
  }

  /** Whether the characters picked by the parts are the owned ones. */
  ghost predicate PickOwned(parts: seq<Part>, cells: seq<Cell>, session: string) {
    && Total(parts) == |cells|
    && forall p :: PickedAt(parts, p) <==> 0 <= p < |cells| && Owned(cells[p], session)
  }

  lemma PickOwnedAppend(parts: seq<Part>, cells: seq<Cell>, session: string, part: Part, more: seq<Cell>)
    requires PickOwned(parts, cells, session) && part.len == |more|
    requires forall i :: 0 <= i < |more| ==> (Owned(more[i], session) <==> part.picked)
    ensures PickOwned(parts + [part], cells + more, session)
  {
    assert (parts + [part])[..|parts|] == parts;
    forall p ensures PickedAt(parts + [part], p) <==> 0 <= p < |cells + more| && Owned((cells + more)[p], session) {
      if p < |cells| {
        assert PickedAt(parts + [part], p) <==> PickedAt(parts, p);
      }
    }
  }

  lemma PartPicksOwned(segment: Json, session: string, part: Part)
    requires WellFormed(segment) && OwnedPart(session)(segment) == Ok(part)
    ensures var more := Styled(TextOf(segment).value, AsMap(FieldsOf(segment)));
            part.len == |more| && forall i :: 0 <= i < |more| ==> (Owned(more[i], session) <==> part.picked)
  {
    OwnedPartIs(segment, session);
  }

  lemma CellsOfLast(segments: seq<Json>)
    requires AllWellFormed(segments) && segments != []
    ensures var front, last := segments[..|segments| - 1], segments[|segments| - 1];
            && AllWellFormed(front) && WellFormed(last)
            && CellsOf(segments) == CellsOf(front) + Styled(TextOf(last).value, AsMap(FieldsOf(last)))
  {
    var front, last := segments[..|segments| - 1], segments[|segments| - 1];
    CellsOfAppend(front, last);
    assert segments == front + [last];
  }

  /** The parts of a Delta read as its characters. */
  lemma {:induction false} PartsAreCells(segments: seq<Json>, session: string, parts: seq<Part>)
    requires AllWellFormed(segments) && ReadParts(segments, OwnedPart(session)) == Ok(parts)
    ensures PickOwned(parts, CellsOf(segments), session)
    decreases |segments|
  {
    if segments != [] {
      var last := segments[|segments| - 1];
      var read, part := ReadPartsSplit(segments, OwnedPart(session), parts);
      CellsOfLast(segments);
      PartsAreCells(segments[..|segments| - 1], session, read);
      PartPicksOwned(last, session, part);
      PickOwnedAppend(read, CellsOf(segments[..|segments| - 1]), session, part, Styled(TextOf(last).value, AsMap(FieldsOf(last))));
    }
  }

  ghost predicate IsSection(cells: seq<Cell>, session: string, r: Range) {
    r.len > 0 && r.pos + r.len <= |cells| && forall p :: 0 <= p < |cells| ==> (Owned(cells[p], session) <==> Inside(r, p))
  }

  ghost predicate NoSection(cells: seq<Cell>, session: string) {
    forall p :: 0 <= p < |cells| ==> !Owned(cells[p], session)
  }

  /** The ranges hold exactly the owned positions. */
  ghost predicate HoldOwned(ranges: seq<Range>, cells: seq<Cell>, session: string) {
    && (forall p :: InRanges(ranges, p) ==> 0 <= p < |cells|)
    && forall p :: 0 <= p < |cells| ==> (InRanges(ranges, p) <==> Owned(cells[p], session))
  }

  lemma CollectHoldsOwned(parts: seq<Part>, cells: seq<Cell>, session: string)
    requires PickOwned(parts, cells, session)
    ensures HoldOwned(Collect(parts), cells, session) && Apart(Collect(parts))
  {
    CollectIs(parts);
  }

  lemma SingleIsSection(parts: seq<Part>, cells: seq<Cell>, session: string, r: Range)
    requires HoldOwned(Collect(parts), cells, session)
    ensures Collect(parts) == [r] <==> IsSection(cells, session, r)
  {
    SingleRangeIff(parts, r);
    assert IsSection(cells, session, r) ==> forall p :: InRanges(Collect(parts), p) <==> Inside(r, p);
    if Collect(parts) == [r] {
      assert Inside(r, r.pos + r.len - 1);
    }
  }

  lemma RangesAreSection(parts: seq<Part>, cells: seq<Cell>, session: string)
    requires PickOwned(parts, cells, session)
    ensures var ranges := Collect(parts);
            && (ranges == [] <==> NoSection(cells, session))
            && (forall r :: ranges == [r] <==> IsSection(cells, session, r))
  {
    CollectHoldsOwned(parts, cells, session);
    var ranges := Collect(parts);
    if ranges != [] {
      assert Inside(ranges[0], ranges[0].pos);
      assert InRanges(ranges, ranges[0].pos);
    }
    forall r ensures ranges == [r] <==> IsSection(cells, session, r) {
      SingleIsSection(parts, cells, session, r);
    }
  }

  lemma TheRangeIs(ranges: seq<Range>)
    ensures TheRange(ranges) == Ok(None) <==> ranges == []
    ensures forall r :: TheRange(ranges) == Ok(Some(r)) <==> ranges == [r]
  {
    assert |ranges| == 1 ==> ranges == [ranges[0]];
  }

  /** In a Delta whose segments are not empty the section is found exactly when its
      characters stand together, and every owner is named by a string. */
  lemma SectionRangeIs(segments: seq<Json>, session: string)
    requires AllWellFormed(segments)
    requires forall i :: 0 <= i < |segments| ==> TextOf(segments[i]).value != ""
    ensures var found, cells := SectionRange(Arr(segments), session), CellsOf(segments);
            && (found == Ok(None) <==> OwnersAreNames(cells) && NoSection(cells, session))
            && (forall r :: found == Ok(Some(r)) <==> OwnersAreNames(cells) && IsSection(cells, session, r))
  {
    ReadPartsIs(segments, OwnedPart(session));
    NamesIff(segments, session);
    var read := ReadParts(segments, OwnedPart(session));
    if read.Ok? {
      PartsAreCells(segments, session, read.value);
      RangesAreSection(read.value, CellsOf(segments), session);
      TheRangeIs(Collect(read.value));
    }
  }

  lemma NamesSplit(a: seq<Cell>, b: seq<Cell>)
    ensures OwnersAreNames(a + b) <==> OwnersAreNames(a) && OwnersAreNames(b)
  {
    assert forall i :: 0 <= i < |a| ==> (a + b)[i] == a[i];
    assert forall i :: 0 <= i < |b| ==> (a + b)[|a| + i] == b[i];
  }

  lemma StyledNames(text: string, attributes: map<string, Json>)
    requires text != ""
    ensures OwnersAreNames(Styled(text, attributes)) <==> ("session_id" in attributes ==> attributes["session_id"].Str?)
  {
    assert Styled(text, attributes)[0] == Cell(text[0], attributes);
  }

  lemma {:induction false} NamesIff(segments: seq<Json>, session: string)
    requires AllWellFormed(segments)
    requires forall i :: 0 <= i < |segments| ==> TextOf(segments[i]).value != ""
    ensures OwnersAreNames(CellsOf(segments)) <==> forall i :: 0 <= i < |segments| ==> OwnedPart(session)(segments[i]).Ok?
  {
    if segments != [] {
      var tail := segments[1..];
      NamesIff(tail, session);
      OwnedPartIs(segments[0], session);
      assert forall i :: 0 <= i < |tail| ==> tail[i] == segments[i + 1];
      assert forall i :: 1 <= i < |segments| ==> segments[i] == tail[i - 1];
      StyledNames(TextOf(segments[0]).value, AsMap(FieldsOf(segments[0])));
      NamesSplit(Styled(TextOf(segments[0]).value, AsMap(FieldsOf(segments[0]))), CellsOf(tail));
    }
  }
}
