/**
 Moving a recording's section into another notebook: copy into the target, commit,
 clear the source, with a crash possible between any two steps.
 */
module SessionMove {
  import opened Wrappers
  import opened EditorDelta
  import opened FlatSections

  /** How the editor renders a document as a Delta. */
  datatype Bridge = Bridge(delta: seq<Cell> -> seq<Json>)

  ghost predicate Lawful(b: Bridge) {
    forall cells {:trigger b.delta(cells)} ::
      && AllWellFormed(b.delta(cells)) && CellsOf(b.delta(cells)) == cells
      && forall i :: 0 <= i < |b.delta(cells)| ==> TextOf(b.delta(cells)[i]).value != ""
  }

  function FindSection(b: Bridge, cells: seq<Cell>, session: string): Result<Option<Range>, DeltaError> {
    SectionRange(Arr(b.delta(cells)), session)
  }

  function RemoveFlat(b: Bridge, cells: seq<Cell>, session: string): Result<seq<Cell>, DeltaError>
    requires Lawful(b)
  {
    match FindSection(b, cells, session)
    case Err(e) => Err(e)
    case Ok(None) => Ok(cells)
    case Ok(Some(r)) =>
      FindSectionIs(b, cells, session);
      Ok(Delete(cells, r))
  }

  /** The start of the first of the later sections that has content. */
  function Anchor(b: Bridge, target: seq<Cell>, later: seq<string>): Result<Option<nat>, DeltaError> {
    if later == [] then Ok(None)
    else
      match FindSection(b, target, later[0])
      case Err(e) => Err(e)
      case Ok(Some(r)) => Ok(Some(r.pos))
      case Ok(None) => Anchor(b, target, later[1..])
  }

  function CopyFlat(b: Bridge, source: seq<Cell>, target: seq<Cell>, session: string, later: seq<string>)
    : Result<seq<Cell>, DeltaError>
    requires Lawful(b)
  {
    match FindSection(b, source, session)
    case Err(e) => Err(e)
    case Ok(None) => Ok(target)
    case Ok(Some(r)) =>
      var section := Lift(b.delta(source), 0, 0, r);
      match FindSection(b, target, session)
      case Err(e) => Err(e)
      case Ok(Some(_)) => Ok(target)
      case Ok(None) => Placed(b, section, target, later)
  }

  /** The section before the first later one that has content, or at the end. */
  function Placed(b: Bridge, section: FlatSection, target: seq<Cell>, later: seq<string>): Result<seq<Cell>, DeltaError>
    requires Lawful(b)
  {
    match Anchor(b, target, later)
    case Err(e) => Err(e)
    case Ok(anchor) =>
      AnchorIs(b, target, later);
      var at := if anchor.Some? then anchor.value else |target|;
      Ok(SetMarks(Insert(target, at, section.text), at, section.marks))
  }

  lemma FindSectionIs(b: Bridge, cells: seq<Cell>, session: string)
    requires Lawful(b)
    ensures var found := FindSection(b, cells, session);
            && (found == Ok(None) <==> OwnersAreNames(cells) && NoSection(cells, session))
            && (forall r :: found == Ok(Some(r)) <==> OwnersAreNames(cells) && IsSection(cells, session, r))
  {
    SectionRangeIs(b.delta(cells), session);
  }

  /** An anchor is the start of a later section, and the later sections before it
      in the list have no content. */
  lemma {:induction false} AnchorIs(b: Bridge, target: seq<Cell>, later: seq<string>)
    requires Lawful(b)
    ensures match Anchor(b, target, later)
            case Ok(Some(at)) =>
              exists k, r: Range :: 0 <= k < |later| && r.pos == at && IsSection(target, later[k], r)
                && forall i :: 0 <= i < k ==> NoSection(target, later[i])
            case Ok(None) => forall i :: 0 <= i < |later| ==> NoSection(target, later[i])
            case Err(_) => true
    ensures Anchor(b, target, later).Ok? && Anchor(b, target, later).value.Some? ==>
              Anchor(b, target, later).value.value <= |target|
  {
    if later != [] {
      FindSectionIs(b, target, later[0]);
      var rest := later[1..];
      AnchorIs(b, target, rest);
      match FindSection(b, target, later[0]) {
        case Ok(Some(r)) =>
          assert IsSection(target, later[0], r);
        case Ok(None) =>
          assert forall i :: 1 <= i < |later| ==> later[i] == rest[i - 1];
          match Anchor(b, target, rest) {
            case Ok(Some(at)) =>
              var k, r: Range :| 0 <= k < |rest| && r.pos == at && IsSection(target, rest[k], r)
                && forall i :: 0 <= i < k ==> NoSection(target, rest[i]);
              assert later[k + 1] == rest[k];
              assert forall i :: 0 <= i < k + 1 ==> NoSection(target, later[i]);
            case _ =>
          }
        case Err(_) =>
      }
    }
  }

  // ------------------------------------------------ a document as section and others

  /** A recording's characters of a document, in order, or all the other ones. */
  function Filter(cells: seq<Cell>, session: string, owned: bool): seq<Cell> {
    if cells == [] then []
    else (if Owned(cells[0], session) == owned then [cells[0]] else []) + Filter(cells[1..], session, owned)
  }

  function Section(cells: seq<Cell>, session: string): seq<Cell> { Filter(cells, session, true) }

  function Others(cells: seq<Cell>, session: string): seq<Cell> { Filter(cells, session, false) }

  lemma FilterFirst(cells: seq<Cell>, session: string, owned: bool)
    requires cells != []
    ensures Filter(cells, session, owned)
         == (if Owned(cells[0], session) == owned then [cells[0]] else []) + Filter(cells[1..], session, owned)
  {
  }

  lemma {:induction false} FilterAppend(a: seq<Cell>, b: seq<Cell>, session: string, owned: bool)
    ensures Filter(a + b, session, owned) == Filter(a, session, owned) + Filter(b, session, owned)
  {
    if a == [] {
      assert a + b == b;
    } else {
      assert (a + b)[1..] == a[1..] + b && (a + b)[0] == a[0];
      FilterFirst(a + b, session, owned);
      FilterFirst(a, session, owned);
      FilterAppend(a[1..], b, session, owned);
    }
  }

  lemma {:induction false} FilterAll(cells: seq<Cell>, session: string, owned: bool)
    requires forall i :: 0 <= i < |cells| ==> Owned(cells[i], session) == owned
    ensures Filter(cells, session, owned) == cells && Filter(cells, session, !owned) == []
  {
    if cells != [] {
      FilterAll(cells[1..], session, owned);
    }
  }

  lemma {:induction false} NoSectionIff(cells: seq<Cell>, session: string)
    ensures NoSection(cells, session) <==> Section(cells, session) == []
    ensures NoSection(cells, session) <==> Others(cells, session) == cells
  {
    if NoSection(cells, session) {
      FilterAll(cells, session, false);
    } else {
      var p :| 0 <= p < |cells| && Owned(cells[p], session);
      assert cells == cells[..p] + [cells[p]] + cells[p + 1..];
      FilterAppend(cells[..p] + [cells[p]], cells[p + 1..], session, true);
      FilterAppend(cells[..p], [cells[p]], session, true);
      assert [cells[p]][1..] == [];
      OthersAreNotOwned(cells, session);
    }
  }

  lemma {:induction false} OthersAreNotOwned(cells: seq<Cell>, session: string)
    ensures NoSection(Others(cells, session), session)
  {
    if cells != [] {
      OthersAreNotOwned(cells[1..], session);
    }
  }

  lemma FilterThree(a: seq<Cell>, m: seq<Cell>, z: seq<Cell>, session: string, owned: bool)
    ensures Filter(a + m + z, session, owned)
         == Filter(a, session, owned) + Filter(m, session, owned) + Filter(z, session, owned)
  {
    FilterAppend(a + m, z, session, owned);
    FilterAppend(a, m, session, owned);
  }

  lemma FilterParts(a: seq<Cell>, m: seq<Cell>, z: seq<Cell>, session: string)
    requires NoSection(a, session) && NoSection(z, session)
    requires forall i :: 0 <= i < |m| ==> Owned(m[i], session)
    ensures Section(a + m + z, session) == m && Others(a + m + z, session) == a + z
  {
    FilterThree(a, m, z, session, true);
    FilterThree(a, m, z, session, false);
    FilterAll(a, session, false);
    FilterAll(m, session, true);
    FilterAll(z, session, false);
    assert [] + m + [] == m;
    assert a + [] + z == a + z;
  }

  /** A section that stands together is cut out as one piece. */
  lemma SectionIsSlice(cells: seq<Cell>, session: string, r: Range)
    requires IsSection(cells, session, r)
    ensures Section(cells, session) == cells[r.pos..r.pos + r.len]
    ensures Others(cells, session) == Delete(cells, r)
  {
    var a, m, z := cells[..r.pos], cells[r.pos..r.pos + r.len], cells[r.pos + r.len..];
    assert cells == a + m + z;
    FilterParts(a, m, z, session);
  }

  // ------------------------------------------------------------- copying and clearing

  /** Clearing leaves the other characters as they were, and nothing of the section. */
  lemma ClearRemovesSection(b: Bridge, cells: seq<Cell>, session: string)
    requires Lawful(b)
    ensures var r := RemoveFlat(b, cells, session);
            r.Ok? ==> r.value == Others(cells, session) && Section(r.value, session) == []
                      && RemoveFlat(b, r.value, session) == Ok(r.value)
  {
    FindSectionIs(b, cells, session);
    NoSectionIff(cells, session);
    var r := RemoveFlat(b, cells, session);
    if r.Ok? {
      var found := FindSection(b, cells, session).value;
      if found.Some? {
        SectionIsSlice(cells, session, found.value);
      }
      OthersAreNotOwned(cells, session);
      NoSectionIff(r.value, session);
      FindSectionIs(b, r.value, session);
      NamesOfDeleted(cells, r.value, session, found);
    }
  }

  lemma NamesOfDeleted(cells: seq<Cell>, after: seq<Cell>, session: string, found: Option<Range>)
    requires OwnersAreNames(cells)
    requires match found case None => after == cells
             case Some(r) => r.pos + r.len <= |cells| && after == Delete(cells, r)
    ensures OwnersAreNames(after)
  {
    if found.Some? {
      forall i | 0 <= i < |after|
        ensures "session_id" in after[i].attributes ==> after[i].attributes["session_id"].Str?
      {
        assert after[i] == cells[if i < found.value.pos then i else i + found.value.len];
      }
    }
  }

  /** A copy that is made puts the section, character for character, where the
      anchor says, and moves nothing else. */
  lemma CopiedSection(b: Bridge, source: seq<Cell>, target: seq<Cell>, session: string, later: seq<string>)
    requires Lawful(b) && CopyFlat(b, source, target, session, later).Ok?
    requires Section(source, session) != [] && Section(target, session) == []
    ensures Anchor(b, target, later).Ok?
    ensures var at := if Anchor(b, target, later).value.Some? then Anchor(b, target, later).value.value else |target|;
            var copied := CopyFlat(b, source, target, session, later).value;
            && at <= |target|
            && copied == target[..at] + Section(source, session) + target[at..]
            && IsSection(copied, session, Range(at, |Section(source, session)|))
            && Section(copied, session) == Section(source, session) && Others(copied, session) == target
            && OwnersAreNames(copied)
  {
    FindSectionIs(b, source, session);
    FindSectionIs(b, target, session);
    NoSectionIff(source, session);
    NoSectionIff(target, session);
    var r := FindSection(b, source, session).value.value;
    SectionIsSlice(source, session, r);
    AnchorIs(b, target, later);
    var anchor := Anchor(b, target, later).value;
    var at := if anchor.Some? then anchor.value else |target|;
    LiftedSectionArrives(b.delta(source), r, target, at);
    Arrived(source, target, session, r, at);
  }

  lemma Arrived(source: seq<Cell>, target: seq<Cell>, session: string, r: Range, at: nat)
    requires IsSection(source, session, r) && NoSection(target, session) && at <= |target|
    requires OwnersAreNames(source) && OwnersAreNames(target)
    ensures var section := source[r.pos..r.pos + r.len];
            var copied := target[..at] + section + target[at..];
            && IsSection(copied, session, Range(at, r.len))
            && Section(copied, session) == section && Others(copied, session) == target
            && OwnersAreNames(copied)
  {
    var section := source[r.pos..r.pos + r.len];
    var copied := target[..at] + section + target[at..];
    assert forall p :: 0 <= p < r.len ==> section[p] == source[r.pos + p];
    forall p | 0 <= p < |copied|
      ensures Owned(copied[p], session) <==> Inside(Range(at, r.len), p)
      ensures "session_id" in copied[p].attributes ==> copied[p].attributes["session_id"].Str?
    {
      if p < at {
        assert copied[p] == target[p];
      } else if p < at + r.len {
        assert copied[p] == source[r.pos + (p - at)];
      } else {
        assert copied[p] == target[p - r.len];
      }
    }
    SectionIsSlice(copied, session, Range(at, r.len));
    assert Delete(copied, Range(at, r.len)) == target;
  }

  lemma FoundSection(b: Bridge, cells: seq<Cell>, session: string, r: Range)
    requires Lawful(b)
    ensures FindSection(b, cells, session) == Ok(Some(r)) <==> OwnersAreNames(cells) && IsSection(cells, session, r)
  {
    FindSectionIs(b, cells, session);
  }

  /** Whether a section is found in a document whose marks can be read. */
  lemma FoundIff(b: Bridge, cells: seq<Cell>, session: string)
    requires Lawful(b) && FindSection(b, cells, session).Ok?
    ensures FindSection(b, cells, session).value.Some? <==> Section(cells, session) != []
  {
    FindSectionIs(b, cells, session);
    NoSectionIff(cells, session);
    var found := FindSection(b, cells, session).value;
    if found.Some? {
      FoundSection(b, cells, session, found.value);
      assert Owned(cells[found.value.pos], session);
    }
  }

  lemma IdleIf(b: Bridge, source: seq<Cell>, target: seq<Cell>, session: string, later: seq<string>)
    requires Lawful(b) && FindSection(b, source, session).Ok?
    requires FindSection(b, source, session).value.None?
             || (FindSection(b, target, session).Ok? && FindSection(b, target, session).value.Some?)
    ensures CopyFlat(b, source, target, session, later) == Ok(target)
  {
  }

  lemma IdleCopy(b: Bridge, source: seq<Cell>, target: seq<Cell>, session: string, later: seq<string>)
    requires Lawful(b) && CopyFlat(b, source, target, session, later).Ok?
    requires Section(source, session) == [] || Section(target, session) != []
    ensures CopyFlat(b, source, target, session, later) == Ok(target)
  {
    FoundIff(b, source, session);
    if Section(source, session) != [] {
      FoundIff(b, target, session);
    }
    IdleIf(b, source, target, session, later);
  }

  lemma CopyAgainIsIdle(b: Bridge, source: seq<Cell>, target: seq<Cell>, session: string, later: seq<string>, r: Range)
    requires Lawful(b) && CopyFlat(b, source, target, session, later).Ok?
    requires var copied := CopyFlat(b, source, target, session, later).value;
             OwnersAreNames(copied) && IsSection(copied, session, r)
    ensures var copied := CopyFlat(b, source, target, session, later).value;
            CopyFlat(b, source, copied, session, later) == Ok(copied)
  {
    FoundSection(b, CopyFlat(b, source, target, session, later).value, session, r);
    IdleIf(b, source, CopyFlat(b, source, target, session, later).value, session, later);
  }

  /** What a copy comes to: nothing when there is nothing to move or the section is
      there already; otherwise the section next to everything the target held. */
  lemma CopyIs(b: Bridge, source: seq<Cell>, target: seq<Cell>, session: string, later: seq<string>)
    requires Lawful(b) && CopyFlat(b, source, target, session, later).Ok?
    ensures var copied := CopyFlat(b, source, target, session, later).value;
            && Others(copied, session) == Others(target, session)
            && Section(copied, session)
                 == (if Section(target, session) == [] then Section(source, session) else Section(target, session))
            && (Section(source, session) == [] || Section(target, session) != [] ==> copied == target)
            && CopyFlat(b, source, copied, session, later) == Ok(copied)
  {
    if Section(source, session) != [] && Section(target, session) == [] {
      CopiedSection(b, source, target, session, later);
      var at := if Anchor(b, target, later).value.Some? then Anchor(b, target, later).value.value else |target|;
      CopyAgainIsIdle(b, source, target, session, later, Range(at, |Section(source, session)|));
      NoSectionIff(target, session);
    } else {
      IdleCopy(b, source, target, session, later);
    }
  }

  /** Undoing a copy leaves the target as it was without the section. */
  lemma RollbackUndoesCopy(b: Bridge, source: seq<Cell>, target: seq<Cell>, session: string, later: seq<string>)
    requires Lawful(b) && CopyFlat(b, source, target, session, later).Ok? && Section(source, session) != []
    ensures RemoveFlat(b, CopyFlat(b, source, target, session, later).value, session) == Ok(Others(target, session))
  {
    var copied := CopyFlat(b, source, target, session, later).value;
    FindSectionIs(b, source, session);
    NoSectionIff(source, session);
    FindSectionIs(b, target, session);
    NoSectionIff(target, session);
    CopyIs(b, source, target, session, later);
    if Section(target, session) == [] {
      CopiedSection(b, source, target, session, later);
    }
    FindSectionIs(b, copied, session);
    ClearRemovesSection(b, copied, session);
  }
}
