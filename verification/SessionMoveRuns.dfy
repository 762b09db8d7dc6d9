/** The whole move, its crash points, replays and rollback. */
module SessionMoveRuns {
  import opened Wrappers
  import opened EditorDelta
  import opened FlatSections
  import opened SessionMove

  /** One of the documents of the old notebook and its counterpart in the new one,
      with the recordings made later, earliest first. */
  datatype Pair = Pair(source: seq<Cell>, target: seq<Cell>, later: seq<string>)

  function CopyPair(b: Bridge, p: Pair, session: string): Result<Pair, DeltaError>
    requires Lawful(b)
  {
    match CopyFlat(b, p.source, p.target, session, p.later)
    case Ok(target) => Ok(p.(target := target))
    case Err(e) => Err(e)
  }

  function ClearPair(b: Bridge, p: Pair, session: string): Result<Pair, DeltaError>
    requires Lawful(b)
  {
    match RemoveFlat(b, p.source, session)
    case Ok(source) => Ok(p.(source := source))
    case Err(e) => Err(e)
  }

  /** Best effort: a target that cannot be read stays as it is. */
  function UndoPair(b: Bridge, p: Pair, session: string): Pair
    requires Lawful(b)
  {
    match RemoveFlat(b, p.target, session)
    case Ok(target) => p.(target := target)
    case Err(_) => p
  }

  /** The first `n` items changed in order, unless one fails. */
  function EachFirst<P(!new)>(step: P --> Result<P, DeltaError>, items: seq<P>, n: nat)
    : (r: Result<seq<P>, DeltaError>)
    requires n <= |items| && forall p :: step.requires(p)
    ensures r.Ok? ==> |r.value| == |items|
  {
    if n == 0 then Ok(items)
    else
      match EachFirst(step, items, n - 1)
      case Err(e) => Err(e)
      case Ok(done) =>
        match step(done[n - 1])
        case Err(e) => Err(e)
        case Ok(p) => Ok(done[n - 1 := p])
  }

  function CopyFirst(b: Bridge, pairs: seq<Pair>, session: string, n: nat): (r: Result<seq<Pair>, DeltaError>)
    requires Lawful(b) && n <= |pairs|
    ensures r.Ok? ==> |r.value| == |pairs|
  {
    EachFirst(p requires Lawful(b) => CopyPair(b, p, session), pairs, n)
  }

  function ClearFirst(b: Bridge, pairs: seq<Pair>, session: string, n: nat): (r: Result<seq<Pair>, DeltaError>)
    requires Lawful(b) && n <= |pairs|
    ensures r.Ok? ==> |r.value| == |pairs|
  {
    EachFirst(p requires Lawful(b) => ClearPair(b, p, session), pairs, n)
  }

  function UndoAll(b: Bridge, pairs: seq<Pair>, session: string): (undone: seq<Pair>)
    requires Lawful(b)
    ensures |undone| == |pairs|
  {
    seq(|pairs|, i requires 0 <= i < |pairs| => UndoPair(b, pairs[i], session))
  }

  // ------------------------------------------------------------ step by step facts

  lemma {:induction false} EachFirstIs<P(!new)>(step: P --> Result<P, DeltaError>, items: seq<P>, n: nat)
    requires n <= |items| && forall p :: step.requires(p)
    ensures var r := EachFirst(step, items, n);
            && (r.Ok? <==> forall i :: 0 <= i < n ==> step(items[i]).Ok?)
            && (r.Ok? ==> forall i :: 0 <= i < |items| ==>
                  (if i < n then step(items[i]) == Ok(r.value[i]) else r.value[i] == items[i]))
  {
    if n > 0 {
      EachFirstIs(step, items, n - 1);
    }
  }

  /** Steps that change nothing the second time may be started again. */
  lemma EachAgain<P(!new)>(step: P --> Result<P, DeltaError>, items: seq<P>, k: nat)
    requires k <= |items| && (forall p :: step.requires(p)) && EachFirst(step, items, k).Ok?
    requires forall i :: 0 <= i < k && step(items[i]).Ok? ==> step(step(items[i]).value) == step(items[i])
    ensures var again := EachFirst(step, EachFirst(step, items, k).value, |items|);
            var whole := EachFirst(step, items, |items|);
            (again.Ok? <==> whole.Ok?) && (again.Ok? ==> again == whole)
  {
    EachFirstIs(step, items, k);
    EachFirstIs(step, items, |items|);
    var done := EachFirst(step, items, k).value;
    EachFirstIs(step, done, |items|);
    assert forall i :: 0 <= i < |items| ==> step(done[i]) == step(items[i]);
    var again, whole := EachFirst(step, done, |items|), EachFirst(step, items, |items|);
    if again.Ok? {
      assert forall i :: 0 <= i < |items| ==> again.value[i] == whole.value[i];
      assert again.value == whole.value;
    }
  }

  lemma CopyFirstIs(b: Bridge, pairs: seq<Pair>, session: string, n: nat)
    requires Lawful(b) && n <= |pairs|
    ensures var r := CopyFirst(b, pairs, session, n);
            && (r.Ok? <==> forall i :: 0 <= i < n ==> CopyPair(b, pairs[i], session).Ok?)
            && (r.Ok? ==> forall i :: 0 <= i < |pairs| ==>
                  (if i < n then CopyPair(b, pairs[i], session) == Ok(r.value[i]) else r.value[i] == pairs[i]))
  {
    EachFirstIs(p requires Lawful(b) => CopyPair(b, p, session), pairs, n);
  }

  lemma ClearFirstIs(b: Bridge, pairs: seq<Pair>, session: string, n: nat)
    requires Lawful(b) && n <= |pairs|
    ensures var r := ClearFirst(b, pairs, session, n);
            && (r.Ok? <==> forall i :: 0 <= i < n ==> ClearPair(b, pairs[i], session).Ok?)
            && (r.Ok? ==> forall i :: 0 <= i < |pairs| ==>
                  (if i < n then ClearPair(b, pairs[i], session) == Ok(r.value[i]) else r.value[i] == pairs[i]))
  {
    EachFirstIs(p requires Lawful(b) => ClearPair(b, p, session), pairs, n);
  }

  ghost predicate CopiedSome(b: Bridge, before: seq<Pair>, session: string, k: nat, now: seq<Pair>)
    requires Lawful(b)
  {
    k <= |before| && CopyFirst(b, before, session, k) == Ok(now)
  }

  ghost predicate ClearedSome(b: Bridge, before: seq<Pair>, session: string, k: nat, now: seq<Pair>)
    requires Lawful(b)
  {
    k <= |before| && ClearFirst(b, before, session, k) == Ok(now)
  }

  lemma NothingYet(b: Bridge, before: seq<Pair>, session: string)
    requires Lawful(b)
    ensures CopiedSome(b, before, session, 0, before) && ClearedSome(b, before, session, 0, before)
  {
  }

  lemma CopyFirstNext(b: Bridge, before: seq<Pair>, session: string, i: nat, now: seq<Pair>)
    requires Lawful(b) && i < |before| && CopiedSome(b, before, session, i, now)
    ensures |now| == |before|
    ensures match CopyPair(b, now[i], session)
            case Ok(p) => CopiedSome(b, before, session, i + 1, now[i := p])
            case Err(_) => CopyFirst(b, before, session, |before|).Err?
  {
    CopyFirstIs(b, before, session, i);
    CopyFirstIs(b, before, session, |before|);
  }

  lemma ClearFirstNext(b: Bridge, before: seq<Pair>, session: string, i: nat, now: seq<Pair>)
    requires Lawful(b) && i < |before| && ClearedSome(b, before, session, i, now)
    ensures |now| == |before|
    ensures match ClearPair(b, now[i], session)
            case Ok(p) => ClearedSome(b, before, session, i + 1, now[i := p])
            case Err(_) => ClearFirst(b, before, session, |before|).Err?
  {
    ClearFirstIs(b, before, session, i);
    ClearFirstIs(b, before, session, |before|);
  }

  /** How a move ends: done, or with the copies of some first pairs undone. */
  ghost predicate Finished(b: Bridge, before: seq<Pair>, session: string, after: seq<Pair>)
    requires Lawful(b)
  {
    var copied := CopyFirst(b, before, session, |before|);
    copied.Ok? && ClearedSome(b, copied.value, session, |before|, after)
  }

  /** The target has no section yet, or has the source's from an earlier attempt. */
  predicate Movable(p: Pair, session: string) {
    Section(p.target, session) == [] || Section(p.target, session) == Section(p.source, session)
  }

  /** What a copy leaves in the target: a section that is there already stays. */
  function Arriving(p: Pair, session: string): seq<Cell> {
    if Section(p.target, session) == [] then Section(p.source, session) else Section(p.target, session)
  }

  /** What a move may do to a pair at any time; `copied` once its copy is made. */
  predicate Accounted(before: Pair, now: Pair, session: string, copied: bool, cleared: bool) {
    && now.later == before.later
    && Others(now.source, session) == Others(before.source, session)
    && Others(now.target, session) == Others(before.target, session)
    && (if copied then Section(now.target, session) == Arriving(before, session) else now.target == before.target)
    && (if cleared then Section(now.source, session) == [] else now.source == before.source)
  }

  lemma CopyAccounted(b: Bridge, p: Pair, session: string)
    requires Lawful(b) && CopyPair(b, p, session).Ok?
    ensures var copied := CopyPair(b, p, session).value;
            && Accounted(p, copied, session, true, false)
            && ClearPair(b, copied, session).Ok?
            && CopyPair(b, copied, session) == Ok(copied)
  {
    CopyIs(b, p.source, p.target, session, p.later);
  }

  lemma ClearAccounted(b: Bridge, before: Pair, p: Pair, session: string)
    requires Lawful(b) && ClearPair(b, p, session).Ok? && Accounted(before, p, session, true, false)
    ensures var cleared := ClearPair(b, p, session).value;
            Accounted(before, cleared, session, true, true) && ClearPair(b, cleared, session) == Ok(cleared)
  {
    ClearRemovesSection(b, p.source, session);
    NoSectionIff(Others(p.source, session), session);
  }

  // ----------------------------------------------------------------- main results

  /** A move whose first `copies` copies and first `clears` clears are made. */
  ghost predicate AllAccounted(before: seq<Pair>, now: seq<Pair>, session: string, copies: nat, clears: nat) {
    |now| == |before| && forall i :: 0 <= i < |before| ==> Accounted(before[i], now[i], session, i < copies, i < clears)
  }

  ghost predicate AllMovable(pairs: seq<Pair>, session: string) {
    forall i :: 0 <= i < |pairs| ==> Movable(pairs[i], session)
  }

  /** Every target holds the section that its source had. */
  ghost predicate AllArrived(before: seq<Pair>, now: seq<Pair>, session: string) {
    |now| == |before| && forall i :: 0 <= i < |before| ==> Section(now[i].target, session) == Section(before[i].source, session)
  }

  /** Wherever the process dies before the commit, every source is untouched, and
      every target reached so far has its own section or, having none, the
      source's; no source that was copied can refuse to be cleared. */
  lemma CopyingLosesNothing(b: Bridge, pairs: seq<Pair>, session: string, k: nat, copied: seq<Pair>)
    requires Lawful(b) && CopiedSome(b, pairs, session, k, copied)
    ensures AllAccounted(pairs, copied, session, k, 0)
    ensures forall i :: 0 <= i < k ==> ClearPair(b, copied[i], session).Ok?
  {
    CopyFirstIs(b, pairs, session, k);
    forall i | 0 <= i < |pairs|
      ensures Accounted(pairs[i], copied[i], session, i < k, false)
      ensures i < k ==> ClearPair(b, copied[i], session).Ok?
    {
      if i < k {
        CopyAccounted(b, pairs[i], session);
      }
    }
  }

  lemma ClearsAccounted(b: Bridge, pairs: seq<Pair>, copied: seq<Pair>, session: string, k: nat, cleared: seq<Pair>)
    requires Lawful(b) && ClearedSome(b, copied, session, k, cleared) && AllAccounted(pairs, copied, session, |pairs|, 0)
    ensures AllAccounted(pairs, cleared, session, |pairs|, k)
  {
    ClearFirstIs(b, copied, session, k);
    forall i | 0 <= i < |pairs|
      ensures Accounted(pairs[i], cleared[i], session, true, i < k)
    {
      if i < k {
        ClearAccounted(b, pairs[i], copied[i], session);
      }
    }
  }

  lemma {:induction false} ArrivedIff(before: seq<Pair>, now: seq<Pair>, session: string, clears: nat)
    requires AllAccounted(before, now, session, |before|, clears)
    ensures AllArrived(before, now, session) <==> AllMovable(before, session)
  {
    forall i | 0 <= i < |before|
      ensures Section(now[i].target, session) == Section(before[i].source, session) <==> Movable(before[i], session)
    {
      assert Accounted(before[i], now[i], session, true, i < clears);
    }
  }

  /** Wherever the process dies after the commit, everything but the recording is
      as it was, and every target holds the section its source had, character for
      character, exactly when no target came with a different one. */
  lemma ClearingLosesNothingIff(b: Bridge, pairs: seq<Pair>, session: string, copied: seq<Pair>, k: nat, cleared: seq<Pair>)
    requires Lawful(b)
    requires CopiedSome(b, pairs, session, |pairs|, copied) && ClearedSome(b, copied, session, k, cleared)
    ensures AllAccounted(pairs, cleared, session, |pairs|, k)
    ensures AllArrived(pairs, cleared, session) <==> AllMovable(pairs, session)
  {
    CopyingLosesNothing(b, pairs, session, |pairs|, copied);
    ClearsAccounted(b, pairs, copied, session, k, cleared);
    ArrivedIff(pairs, cleared, session, k);
  }

  /** Once every copy is made, no clear is refused. */
  lemma ClearsCannotFail(b: Bridge, pairs: seq<Pair>, session: string, copied: seq<Pair>, k: nat)
    requires Lawful(b) && k <= |pairs| == |copied| && CopiedSome(b, pairs, session, |pairs|, copied)
    ensures ClearFirst(b, copied, session, k).Ok?
  {
    CopyingLosesNothing(b, pairs, session, |pairs|, copied);
    ClearFirstIs(b, copied, session, k);
  }

  /** Starting the copies again after a crash gives what an uninterrupted run gives. */
  lemma CopyingAgainConverges(b: Bridge, pairs: seq<Pair>, session: string, k: nat)
    requires Lawful(b) && k <= |pairs| && CopyFirst(b, pairs, session, k).Ok?
    ensures var again := CopyFirst(b, CopyFirst(b, pairs, session, k).value, session, |pairs|);
            var whole := CopyFirst(b, pairs, session, |pairs|);
            (again.Ok? <==> whole.Ok?) && (again.Ok? ==> again == whole)
  {
    forall i | 0 <= i < k && CopyPair(b, pairs[i], session).Ok?
      ensures CopyPair(b, CopyPair(b, pairs[i], session).value, session) == CopyPair(b, pairs[i], session)
    {
      CopyAccounted(b, pairs[i], session);
    }
    EachAgain(p requires Lawful(b) => CopyPair(b, p, session), pairs, k);
  }

  // ------------------------------------------------ a copy that an edit has overtaken

  function Letter(session: string, ch: char): Cell { Cell(ch, map["session_id" := Str(session)]) }

  lemma LetterIsSection(b: Bridge, session: string, ch: char)
    requires Lawful(b)
    ensures FindSection(b, [Letter(session, ch)], session) == Ok(Some(Range(0, 1)))
    ensures FindSection(b, [], session) == Ok(None)
    ensures Section([Letter(session, ch)], session) == [Letter(session, ch)]
  {
    assert IsSection([Letter(session, ch)], session, Range(0, 1));
    FoundSection(b, [Letter(session, ch)], session, Range(0, 1));
    FindSectionIs(b, [], session);
    SectionIsSlice([Letter(session, ch)], session, Range(0, 1));
  }

  lemma LetterCopies(b: Bridge, session: string, ch: char)
    requires Lawful(b)
    ensures CopyPair(b, Pair([Letter(session, ch)], [], []), session)
         == Ok(Pair([Letter(session, ch)], [Letter(session, ch)], []))
  {
    LetterIsSection(b, session, ch);
    CopiedSection(b, [Letter(session, ch)], [], session, []);
    assert [] + [Letter(session, ch)] + [] == [Letter(session, ch)];
  }

  lemma OneStep<P(!new)>(step: P --> Result<P, DeltaError>, item: P)
    requires forall p :: step.requires(p)
    ensures EachFirst(step, [item], 1) == match step(item) case Ok(p) => Ok([p]) case Err(e) => Err(e)
  {
    assert EachFirst(step, [item], 0) == Ok([item]);
    if step(item).Ok? { assert [item][0 := step(item).value] == [step(item).value]; }
  }

  /** The process dies between the copy and the commit; the user corrects the old
      notebook, where the recording still is, and moves it again. The move
      succeeds and what the user wrote is in neither notebook. */
  lemma EditAfterCrashIsLost(b: Bridge, session: string, was: char, corrected: char)
    requires Lawful(b) && was != corrected
    ensures var before := [Pair([Letter(session, was)], [], [])];
            var crashed := [Pair([Letter(session, was)], [Letter(session, was)], [])];
            var edited := [Pair([Letter(session, corrected)], [Letter(session, was)], [])];
            var after := [Pair([], [Letter(session, was)], [])];
            && CopiedSome(b, before, session, 1, crashed) && Finished(b, edited, session, after)
            && !AllMovable(edited, session) && Letter(session, corrected) !in after[0].source + after[0].target
  {
    CrashedCopy(b, session, was);
    EditedMove(b, session, was, corrected);
    NotMovable(b, session, was, corrected);
  }

  lemma CrashedCopy(b: Bridge, session: string, was: char)
    requires Lawful(b)
    ensures CopiedSome(b, [Pair([Letter(session, was)], [], [])], session, 1, [Pair([Letter(session, was)], [Letter(session, was)], [])])
  {
    CopyOfOne(b, Pair([Letter(session, was)], [], []), session);
    LetterCopies(b, session, was);
  }

  lemma NotMovable(b: Bridge, session: string, was: char, corrected: char)
    requires Lawful(b) && was != corrected
    ensures !AllMovable([Pair([Letter(session, corrected)], [Letter(session, was)], [])], session)
  {
    LetterIsSection(b, session, was);
    LetterIsSection(b, session, corrected);
    assert !Movable([Pair([Letter(session, corrected)], [Letter(session, was)], [])][0], session);
  }

  lemma CopyOfOne(b: Bridge, p: Pair, session: string)
    requires Lawful(b)
    ensures CopyFirst(b, [p], session, 1) == match CopyPair(b, p, session) case Ok(q) => Ok([q]) case Err(e) => Err(e)
  {
    OneStep(q requires Lawful(b) => CopyPair(b, q, session), p);
  }

  lemma ClearOfOne(b: Bridge, p: Pair, session: string)
    requires Lawful(b)
    ensures ClearFirst(b, [p], session, 1) == match ClearPair(b, p, session) case Ok(q) => Ok([q]) case Err(e) => Err(e)
  {
    OneStep(q requires Lawful(b) => ClearPair(b, q, session), p);
  }

  lemma EditedMove(b: Bridge, session: string, was: char, corrected: char)
    requires Lawful(b)
    ensures Finished(b, [Pair([Letter(session, corrected)], [Letter(session, was)], [])], session, [Pair([], [Letter(session, was)], [])])
  {
    var edited := Pair([Letter(session, corrected)], [Letter(session, was)], []);
    LetterIsSection(b, session, was);
    LetterIsSection(b, session, corrected);
    IdleIf(b, edited.source, edited.target, session, edited.later);
    CopyOfOne(b, edited, session);
    assert Delete(edited.source, Range(0, 1)) == [];
    ClearOfOne(b, edited, session);
  }

  /** So does clearing again. */
  lemma ClearingAgainConverges(b: Bridge, copied: seq<Pair>, session: string, k: nat)
    requires Lawful(b) && k <= |copied| && ClearFirst(b, copied, session, k).Ok?
    ensures var again := ClearFirst(b, ClearFirst(b, copied, session, k).value, session, |copied|);
            var whole := ClearFirst(b, copied, session, |copied|);
            (again.Ok? <==> whole.Ok?) && (again.Ok? ==> again == whole)
  {
    forall i | 0 <= i < k && ClearPair(b, copied[i], session).Ok?
      ensures ClearPair(b, ClearPair(b, copied[i], session).value, session) == ClearPair(b, copied[i], session)
    {
      ClearRemovesSection(b, copied[i].source, session);
    }
    EachAgain(p requires Lawful(b) => ClearPair(b, p, session), copied, k);
  }

  /** A move that fails after any number of copies leaves every source as it was and
      every target it could read without the section; a target that had none is
      exactly as it was. */
  lemma RollbackRestores(b: Bridge, pairs: seq<Pair>, session: string, k: nat)
    requires Lawful(b) && k <= |pairs| && CopyFirst(b, pairs, session, k).Ok?
    ensures var undone := UndoAll(b, CopyFirst(b, pairs, session, k).value, session);
            forall i :: 0 <= i < |pairs| ==>
              && undone[i].source == pairs[i].source
              && (undone[i].target == Others(pairs[i].target, session)
                  || (undone[i].target == pairs[i].target && RemoveFlat(b, pairs[i].target, session).Err?))
              && (Section(pairs[i].target, session) == [] ==> undone[i] == pairs[i])
  {
    CopyFirstIs(b, pairs, session, k);
    var copied := CopyFirst(b, pairs, session, k).value;
    var undone := UndoAll(b, copied, session);
    forall i | 0 <= i < |pairs|
      ensures undone[i].source == pairs[i].source && undone[i].later == pairs[i].later
      ensures undone[i].target == Others(pairs[i].target, session)
              || (undone[i].target == pairs[i].target && RemoveFlat(b, pairs[i].target, session).Err?)
      ensures Section(pairs[i].target, session) == [] ==> undone[i] == pairs[i]
    {
      var p := pairs[i];
      NoSectionIff(p.target, session);
      ClearRemovesSection(b, p.target, session);
      if i < k {
        CopyIs(b, p.source, p.target, session, p.later);
        if Section(p.source, session) != [] {
          RollbackUndoesCopy(b, p.source, p.target, session, p.later);
        }
      }
    }
  }
}
