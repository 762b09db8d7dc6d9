/** The loops and edits by which a recording is moved. */
module SessionMover {
  import opened Wrappers
  import opened EditorDelta
  import opened FlatSections
  import opened SessionMove
  import opened SessionMoveRuns
  import opened CopyFaults

  /** One pass over the Delta, joining runs that touch. */
  method SessionSectionRange(delta: Json, session: string) returns (r: Result<Option<Range>, DeltaError>)
    ensures r == SectionRange(delta, session)
  {
    if !delta.Arr? {
      return Err(NotAnArray);
    }
    var segments := delta.items;
    ghost var parts: seq<Part> := [];
    var cursor, ranges := 0, [];
    for i := 0 to |segments|
      invariant ReadParts(segments[..i], OwnedPart(session)) == Ok(parts)
      invariant cursor == Total(parts) && ranges == Collect(parts)
    {
      var text := TextOf(segments[i]);
      if text.Err? {
        FirstPartErrorStays(segments, OwnedPart(session), i);
        return Err(text.error);
      }
      var len := |text.value|;
      var marked := false;
      var attributes := Get(segments[i], "attributes");
      if attributes.Some? && !attributes.value.Null? {
        var owner := Get(attributes.value, "session_id");
        if owner.Some? {
          if !owner.value.Str? {
            FirstPartErrorStays(segments, OwnedPart(session), i);
            return Err(MarkNotString);
          }
          marked := owner.value.s == session;
        }
      }
      ReadNext(segments, OwnedPart(session), i, parts, Part(len, marked));
      if marked && len > 0 {
        ranges := PushRange(ranges, cursor, len);
      }
      cursor := cursor + len;
      parts := parts + [Part(len, marked)];
    }
    assert segments[..|segments|] == segments;
    r := TheRange(ranges);
  }

  lemma JoinTwice(a: FlatSection, b: FlatSection, c: FlatSection)
    ensures Join(a, Join(b, c)) == Join(Join(a, b), c)
  {
    AppendTwice(a.text, b.text, c.text);
    AppendTwice(a.marks, b.marks, c.marks);
  }

  lemma JoinNothing(a: FlatSection)
    ensures Join(FlatSection("", []), a) == a && Join(a, FlatSection("", [])) == a
  {
    assert "" + a.text == a.text && [] + a.marks == a.marks;
    assert a.text + "" == a.text && a.marks + [] == a.marks;
  }

  /** The section lifted so far and what the other segments add. */
  ghost predicate Lifting(segments: seq<Json>, r: Range, rest: seq<Json>, cursor: nat, taken: nat, done: FlatSection) {
    && TextsAreStrings(segments) && TextsAreStrings(rest) && taken == |done.text|
    && Join(done, Lift(rest, cursor, taken, r)) == Lift(segments, 0, 0, r)
  }

  lemma LiftingStarts(segments: seq<Json>, r: Range)
    requires TextsAreStrings(segments)
    ensures Lifting(segments, r, segments, 0, 0, FlatSection("", []))
  {
    JoinNothing(Lift(segments, 0, 0, r));
  }

  lemma LiftingNext(segments: seq<Json>, r: Range, rest: seq<Json>, cursor: nat, taken: nat, done: FlatSection,
                    part: FlatSection, next: nat, more: nat)
    requires Lifting(segments, r, rest, cursor, taken, done) && rest != [] && part == PartOf(rest[0], cursor, taken, r)
    requires next == cursor + |TextOf(rest[0]).value| && more == taken + |part.text|
    ensures Lifting(segments, r, rest[1..], next, more, Join(done, part))
  {
    LiftIs(rest, cursor, taken, r, part, next, more);
    JoinTwice(done, part, Lift(rest[1..], next, more, r));
  }

  lemma LiftingEnds(segments: seq<Json>, r: Range, cursor: nat, taken: nat, done: FlatSection)
    requires Lifting(segments, r, [], cursor, taken, done)
    ensures done == Lift(segments, 0, 0, r)
  {
    JoinNothing(done);
  }

  lemma AppendTwice<T>(a: seq<T>, b: seq<T>, c: seq<T>)
    ensures a + (b + c) == a + b + c
  {
  }

  /** Lifts a range out of a Delta, segment by segment. */
  method FlatSectionFromDelta(delta: Json, r: Range) returns (section: Result<FlatSection, DeltaError>)
    ensures match section
            case Ok(lifted) =>
              && delta.Arr? && (forall i :: 0 <= i < |delta.items| ==> TextOf(delta.items[i]).Ok?)
              && lifted == Lift(delta.items, 0, 0, r)
            case Err(_) => delta.Arr? ==> exists i :: 0 <= i < |delta.items| && TextOf(delta.items[i]).Err?
  {
    if !delta.Arr? {
      return Err(NotAnArray);
    }
    var segments := delta.items;
    for i := 0 to |segments|
      invariant forall k :: 0 <= k < i ==> TextOf(segments[k]).Ok?
    {
      if TextOf(segments[i]).Err? {
        return Err(TextNotString);
      }
    }
    var lifted := LiftSegments(segments, r);
    section := Ok(lifted);
  }

  method LiftSegments(segments: seq<Json>, r: Range) returns (section: FlatSection)
    requires TextsAreStrings(segments)
    ensures section == Lift(segments, 0, 0, r)
  {
    section := FlatSection("", []);
    var cursor: nat, taken: nat, rest := 0, 0, segments;
    LiftingStarts(segments, r);
    while rest != []
      invariant Lifting(segments, r, rest, cursor, taken, section)
      decreases |rest|
    {
      var part := TakeSegment(rest[0], cursor, taken, r);
      var next, more := cursor + |TextOf(rest[0]).value|, taken + |part.text|;
      LiftingNext(segments, r, rest, cursor, taken, section, part, next, more);
      cursor, taken, section, rest := next, more, Join(section, part), rest[1..];
    }
    LiftingEnds(segments, r, cursor, taken, section);
  }

  /** What one segment adds: a segment outside the range is passed over. */
  method TakeSegment(segment: Json, cursor: nat, taken: nat, r: Range) returns (part: FlatSection)
    requires TextOf(segment).Ok?
    ensures part == PartOf(segment, cursor, taken, r)
  {
    var chars := TextOf(segment).value;
    var segmentStart, segmentEnd := cursor, cursor + |chars|;
    if segmentEnd <= r.pos || segmentStart >= r.pos + r.len {
      return FlatSection("", []);
    }
    var takeFrom := if r.pos >= segmentStart then r.pos - segmentStart else 0;
    var takeTo := if |chars| <= r.pos + r.len - segmentStart then |chars| else r.pos + r.len - segmentStart;
    var marks := AddMarks([], FieldsOf(segment), taken, takeTo - takeFrom);
    part := FlatSection(chars[takeFrom..takeTo], marks);
  }

  method AddMarks(marks: seq<Mark>, fields: seq<Field>, pos: nat, len: nat) returns (all: seq<Mark>)
    ensures all == marks + MarksOf(fields, pos, len)
  {
    all := marks;
    for i := 0 to |fields|
      invariant all == marks + MarksOf(fields[..i], pos, len)
    {
      assert fields[..i + 1][..i] == fields[..i];
      all := all + [Mark(pos, len, fields[i].key, fields[i].value)];
    }
    assert fields[..|fields|] == fields;
  }

  /** Sets marks one after another. */
  method ApplyMarks(cells: seq<Cell>, at: nat, marks: seq<Mark>) returns (after: seq<Cell>)
    ensures after == SetMarks(cells, at, marks)
  {
    after := cells;
    for k := 0 to |marks|
      invariant SetMarks(after, at, marks[k..]) == SetMarks(cells, at, marks)
    {
      assert marks[k..][1..] == marks[k + 1..];
      after := SetMark(after, at, marks[k]);
    }
  }

  /** Inserts and marks a section, or meets a fault on the way. */
  method PlaceSection(b: Bridge, section: FlatSection, target: seq<Cell>, later: seq<string>, fault: Option<Fault>)
    returns (after: seq<Cell>, r: Result<(), MoveError>)
    requires Lawful(b)
    ensures Anchor(b, target, later).Err? ==>
              after == target && r == Err(Unreadable(Anchor(b, target, later).error))
    ensures Anchor(b, target, later).Ok? && fault.None? ==> r == Ok(()) && Placed(b, section, target, later) == Ok(after)
    ensures Anchor(b, target, later).Ok? && fault.Some? ==>
              r == Err(EditRefused) && after == PlacedInPart(b, section, target, later, fault.value)
  {
    var anchor := Anchor(b, target, later);
    if anchor.Err? {
      return target, Err(Unreadable(anchor.error));
    }
    if fault == Some(InsertFails) {
      return target, Err(EditRefused);
    }
    AnchorIs(b, target, later);
    var at := if anchor.value.Some? then anchor.value.value else |target|;
    var cells := Insert(target, at, section.text);
    if fault.Some? && fault.value.after < |section.marks| {
      after := ApplyMarks(cells, at, section.marks[..fault.value.after]);
      return after, Err(EditRefused);
    }
    after := ApplyMarks(cells, at, section.marks);
    if fault.Some? {
      assert section.marks[..|section.marks|] == section.marks;
      return after, Err(EditRefused);
    }
    r := Ok(());
  }

  /** The target after a copy, or after the part of it that was done. */
  method CopySection(b: Bridge, p: Pair, session: string, fault: Option<Fault>)
    returns (after: seq<Cell>, r: Result<(), MoveError>)
    requires Lawful(b)
    ensures CopyPair(b, p, session).Err? ==>
              after == p.target && r == Err(Unreadable(CopyPair(b, p, session).error))
    ensures CopyPair(b, p, session).Ok? && !(fault.Some? && Edits(b, p, session)) ==>
              r == Ok(()) && p.(target := after) == CopyPair(b, p, session).value
    ensures CopyPair(b, p, session).Ok? && fault.Some? && Edits(b, p, session) ==>
              r == Err(EditRefused) && p.(target := after) == Broken(b, p, session, fault.value)
  {
    var range := SessionSectionRange(Arr(b.delta(p.source)), session);
    if range.Err? {
      return p.target, Err(Unreadable(range.error));
    }
    if range.value.None? {
      return p.target, Ok(());
    }
    var section := LiftSegments(b.delta(p.source), range.value.value);
    var existing := SessionSectionRange(Arr(b.delta(p.target)), session);
    if existing.Err? {
      return p.target, Err(Unreadable(existing.error));
    }
    if existing.value.Some? {
      return p.target, Ok(());
    }
    after, r := PlaceSection(b, section, p.target, p.later, fault);
  }

  class Mover {
    var pairs: seq<Pair>
    var moved: bool
    const bridge: Bridge

    constructor (bridge: Bridge, pairs: seq<Pair>)
      requires Lawful(bridge)
      ensures this.bridge == bridge && this.pairs == pairs && !moved
    {
      this.bridge, this.pairs, moved := bridge, pairs, false;
    }

    /** One copy. Reading may fail, which changes nothing, and so may an edit,
        which leaves what was done before it. */
    method CopyFlatSection(i: nat, session: string, fault: Option<Fault>) returns (r: Result<(), MoveError>)
      requires Lawful(bridge) && i < |pairs|
      modifies this`pairs
      ensures CopyPair(bridge, old(pairs)[i], session).Err? ==>
                r == Err(Unreadable(CopyPair(bridge, old(pairs)[i], session).error)) && pairs == old(pairs)
      ensures CopyPair(bridge, old(pairs)[i], session).Ok? && !(fault.Some? && Edits(bridge, old(pairs)[i], session)) ==>
                r == Ok(()) && pairs == old(pairs)[i := CopyPair(bridge, old(pairs)[i], session).value]
      ensures CopyPair(bridge, old(pairs)[i], session).Ok? && fault.Some? && Edits(bridge, old(pairs)[i], session) ==>
                r == Err(EditRefused) && pairs == old(pairs)[i := Broken(bridge, old(pairs)[i], session, fault.value)]
    {
      var after: seq<Cell>;
      after, r := CopySection(bridge, pairs[i], session, fault);
      pairs := pairs[i := pairs[i].(target := after)];
    }

    method ClearSection(i: nat, session: string) returns (r: Result<(), DeltaError>)
      requires Lawful(bridge) && i < |pairs|
      modifies this`pairs
      ensures match ClearPair(bridge, old(pairs)[i], session)
              case Ok(p) => r == Ok(()) && pairs == old(pairs)[i := p]
              case Err(e) => r == Err(e) && pairs == old(pairs)
    {
      FindSectionIs(bridge, pairs[i].source, session);
      var range := SessionSectionRange(Arr(bridge.delta(pairs[i].source)), session);
      if range.Err? {
        return Err(range.error);
      }
      if range.value.Some? {
        pairs := pairs[i := pairs[i].(source := Delete(pairs[i].source, range.value.value))];
      }
      return Ok(());
    }

    method RollBack(session: string)
      requires Lawful(bridge)
      modifies this`pairs
      ensures pairs == UndoAll(bridge, old(pairs), session)
    {
      for i := 0 to |pairs|
        invariant |pairs| == |old(pairs)|
        invariant forall k :: 0 <= k < |pairs| ==>
                    pairs[k] == if k < i then UndoPair(bridge, old(pairs)[k], session) else old(pairs)[k]
      {
        pairs := pairs[i := UndoPair(bridge, pairs[i], session)];
      }
    }

    /** Copies every section, or as many as can be copied. */
    method CopyAll(session: string, faults: map<nat, Fault>) returns (r: Result<(), MoveError>)
      requires Lawful(bridge)
      modifies this`pairs
      ensures r.Ok? <==> AllCopied(bridge, old(pairs), session, faults)
      ensures Copying(bridge, old(pairs), session, r.Ok?, pairs)
    {
      ghost var before := pairs;
      CopyingStarts(bridge, before, session, faults);
      for i := 0 to |pairs|
        invariant |pairs| == |before| && CopiedSoFar(bridge, before, session, faults, i, pairs)
      {
        CopyingGoesOn(bridge, before, session, faults, i, pairs);
        CopyingStops(bridge, before, session, faults, i, pairs);
        if i in faults && Edits(bridge, pairs[i], session) {
          CopyingBreaks(bridge, before, session, faults, i, pairs, faults[i]);
        }
        var copied := CopyFlatSection(i, session, if i in faults then Some(faults[i]) else None);
        if copied.Err? {
          return copied;
        }
      }
      CopyingEnds(bridge, before, session, faults, pairs);
      return Ok(());
    }

    method ClearAll(session: string) returns (r: Result<(), DeltaError>)
      requires Lawful(bridge)
      modifies this`pairs
      ensures Clearing(bridge, old(pairs), session, r.Ok?, pairs)
    {
      ghost var before := pairs;
      NothingYet(bridge, before, session);
      for i := 0 to |pairs|
        invariant |pairs| == |before| && ClearedSome(bridge, before, session, i, pairs)
      {
        ClearFirstNext(bridge, before, session, i, pairs);
        var cleared := ClearSection(i, session);
        if cleared.Err? {
          return Err(cleared.error);
        }
      }
      return Ok(());
    }

    /** The rollback of a move that is not made. */
    method Abandon(session: string, copied: bool, ghost before: seq<Pair>)
      requires Lawful(bridge) && Copying(bridge, before, session, copied, pairs)
      modifies this`pairs
      ensures RolledBack(bridge, before, session, pairs)
    {
      MoveIsUndone(bridge, before, session, copied, pairs);
      RollBack(session);
    }

    /** The clears of a move that is made, none of which fails. */
    method Conclude(session: string, ghost before: seq<Pair>) returns (r: Result<(), MoveError>)
      requires Lawful(bridge) && Copying(bridge, before, session, true, pairs)
      modifies this`pairs
      ensures r == Ok(()) && Finished(bridge, before, session, pairs)
    {
      ghost var now := pairs;
      var cleared := ClearAll(session);
      MoveIsMade(bridge, before, session, now, cleared.Ok?, pairs);
      r := Ok(());
    }

    /** The whole move: copies, the commit, which may be refused, and the clears.
        Nothing fails after the commit. */
    method Move(session: string, accepted: bool, faults: map<nat, Fault>) returns (r: Result<(), MoveError>)
      requires Lawful(bridge) && !moved
      modifies this
      ensures moved == r.Ok? == (AllCopied(bridge, old(pairs), session, faults) && accepted)
      ensures if r.Ok? then Finished(bridge, old(pairs), session, pairs) else RolledBack(bridge, old(pairs), session, pairs)
    {
      r := CopyAll(session, faults);
      if r.Ok? && accepted {
        moved := true;
        r := Conclude(session, old(pairs));
      } else {
        Abandon(session, r.Ok?, old(pairs));
        r := if r.Ok? then Err(CommitRefused) else r;
      }
    }
  }
}
