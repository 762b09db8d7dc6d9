/** Finding text by its ownership marks. */
module MarkedRanges {
  import opened Wrappers
  import opened EditorDelta

  datatype Selector = Selector(sessionId: Option<string>, utteranceId: Option<string>, laneLanguage: Option<string>)

  /** What one mark must be, if anything. */
  datatype Choice = Choice(key: string, expected: Option<string>)

  function Choices(sel: Selector): seq<Choice> {
    [Choice("session_id", sel.sessionId), Choice("utterance_id", sel.utteranceId),
     Choice("lane_language", sel.laneLanguage)]
  }

  predicate Selects(sel: Selector) { sel.sessionId.Some? || sel.utteranceId.Some? || sel.laneLanguage.Some? }

  /** The attributes of a segment; a missing or null value is none. */
  function AttributesOf(segment: Json): Result<seq<Field>, DeltaError> {
    match Get(segment, "attributes")
    case None => Ok([])
    case Some(Null) => Ok([])
    case Some(Obj(fields)) => Ok(fields)
    case _ => Err(AttributesNotObject)
  }

  /** Whether the first `n` choices match; a chosen mark that is not a string is
      an error, whatever the other marks are. */
  function MatchChoices(attributes: seq<Field>, choices: seq<Choice>, n: nat): Result<bool, DeltaError>
    requires n <= |choices|
  {
    if n == 0 then Ok(true)
    else
      match MatchChoices(attributes, choices, n - 1)
      case Err(e) => Err(e)
      case Ok(matched) =>
        var choice := choices[n - 1];
        if choice.expected.None? then Ok(matched)
        else
          match Lookup(attributes, choice.key)
          case None => Ok(false)
          case Some(Str(actual)) => Ok(matched && actual == choice.expected.value)
          case Some(_) => Err(MarkNotString)
  }

  function MarkedPart(sel: Selector): Json -> Result<Part, DeltaError> {
    segment =>
      match TextOf(segment)
      case Err(e) => Err(e)
      case Ok(text) =>
        match AttributesOf(segment)
        case Err(e) => Err(e)
        case Ok(attributes) =>
          match MatchChoices(attributes, Choices(sel), 3)
          case Err(e) => Err(e)
          case Ok(matched) => Ok(Part(|text|, matched))
  }

  function FindMarked(delta: Json, sel: Selector): Result<seq<Range>, DeltaError> {
    if !Selects(sel) then Err(NoSelector)
    else if !delta.Arr? then Err(NotAnArray)
    else
      match ReadParts(delta.items, MarkedPart(sel))
      case Err(e) => Err(e)
      case Ok(parts) => Ok(Collect(parts))
  }

  function FindUniqueMarked(delta: Json, sel: Selector): Result<Option<Range>, DeltaError> {
    match FindMarked(delta, sel)
    case Err(e) => Err(e)
    case Ok(ranges) =>
      if |ranges| == 0 then Ok(None) else if |ranges| == 1 then Ok(Some(ranges[0])) else Err(SplitRanges)
  }

  // ------------------------------------------------- what the found ranges mean

  /** A mark that is chosen and present is a string. */
  predicate MarksAreStrings(attributes: seq<Field>, sel: Selector) {
    && (sel.sessionId.Some? ==> IsStringIfThere(Lookup(attributes, "session_id")))
    && (sel.utteranceId.Some? ==> IsStringIfThere(Lookup(attributes, "utterance_id")))
    && (sel.laneLanguage.Some? ==> IsStringIfThere(Lookup(attributes, "lane_language")))
  }

  predicate IsStringIfThere(mark: Option<Json>) { mark.Some? ==> mark.value.Str? }

  /** Every chosen mark is there and is the chosen one. */
  predicate Carries(attributes: seq<Field>, sel: Selector) {
    && (sel.sessionId.Some? ==> Lookup(attributes, "session_id") == Some(Str(sel.sessionId.value)))
    && (sel.utteranceId.Some? ==> Lookup(attributes, "utterance_id") == Some(Str(sel.utteranceId.value)))
    && (sel.laneLanguage.Some? ==> Lookup(attributes, "lane_language") == Some(Str(sel.laneLanguage.value)))
  }

  /** A text, and attributes that are an object, missing or null. */
  predicate IsSegment(segment: Json) {
    && (match Get(segment, "insert") case Some(Str(_)) => true case _ => false)
    && (match Get(segment, "attributes") case None => true case Some(Null) => true case Some(Obj(_)) => true case _ => false)
  }

  /** The marks of a segment; a missing or null value is none. */
  function MarksOn(segment: Json): seq<Field> {
    match Get(segment, "attributes") case Some(Obj(fields)) => fields case _ => []
  }

  predicate WellFormed(segment: Json, sel: Selector) {
    IsSegment(segment) && MarksAreStrings(MarksOn(segment), sel)
  }

  ghost predicate AllWellFormed(segments: seq<Json>, sel: Selector)
    ensures AllWellFormed(segments, sel) ==> forall i :: 0 <= i < |segments| ==> IsSegment(segments[i])
  {
    forall i :: 0 <= i < |segments| ==> WellFormed(segments[i], sel)
  }

  lemma SegmentIs(segment: Json)
    ensures IsSegment(segment) <==> TextOf(segment).Ok? && AttributesOf(segment).Ok?
    ensures IsSegment(segment) ==> AttributesOf(segment).value == MarksOn(segment)
  {
  }

  lemma MatchIs(attributes: seq<Field>, sel: Selector)
    ensures var r := MatchChoices(attributes, Choices(sel), 3);
            && (r.Ok? <==> MarksAreStrings(attributes, sel))
            && (r.Ok? ==> (r.value <==> Carries(attributes, sel)))
  {
    var choices := Choices(sel);
    assert MatchChoices(attributes, choices, 0) == Ok(true);
    MatchStep(attributes, choices, 1);
    MatchStep(attributes, choices, 2);
    MatchStep(attributes, choices, 3);
  }

  predicate StringIfChosen(attributes: seq<Field>, choice: Choice) {
    choice.expected.Some? && Lookup(attributes, choice.key).Some? ==> Lookup(attributes, choice.key).value.Str?
  }

  predicate AsChosen(attributes: seq<Field>, choice: Choice) {
    choice.expected.Some? ==> Lookup(attributes, choice.key) == Some(Str(choice.expected.value))
  }

  lemma MatchStep(attributes: seq<Field>, choices: seq<Choice>, n: nat)
    requires 1 <= n <= |choices|
    ensures var before, r := MatchChoices(attributes, choices, n - 1), MatchChoices(attributes, choices, n);
            && (r.Ok? <==> before.Ok? && StringIfChosen(attributes, choices[n - 1]))
            && (r.Ok? ==> (r.value <==> before.value && AsChosen(attributes, choices[n - 1])))
  {
  }

  /** The length of the text before segment `i`. */
  function Offset(segments: seq<Json>, i: nat): nat
    requires i <= |segments| && forall k :: 0 <= k < |segments| ==> TextOf(segments[k]).Ok?
  {
    if i == 0 then 0 else Offset(segments, i - 1) + |TextOf(segments[i - 1]).value|
  }

  lemma {:induction false} TotalIsOffset(segments: seq<Json>, parts: seq<Part>, n: nat)
    requires forall k :: 0 <= k < |segments| ==> TextOf(segments[k]).Ok?
    requires |parts| == |segments| && forall k :: 0 <= k < |segments| ==> parts[k].len == |TextOf(segments[k]).value|
    requires n <= |parts|
    ensures Total(parts[..n]) == Offset(segments, n)
  {
    if n > 0 {
      TotalIsOffset(segments, parts, n - 1);
      assert parts[..n][..n - 1] == parts[..n - 1];
    }
  }

  lemma {:induction false} TotalGrows(parts: seq<Part>, n: nat)
    requires n <= |parts|
    ensures Total(parts[..n]) <= Total(parts)
    decreases |parts|
  {
    if n < |parts| {
      TotalGrows(parts[..|parts| - 1], n);
      assert parts[..|parts| - 1][..n] == parts[..n];
    } else {
      assert parts[..n] == parts;
    }
  }

  /** A character is picked exactly when its segment is. */
  lemma {:induction false} PickedInSegment(parts: seq<Part>, i: nat, p: nat)
    requires i < |parts| && Total(parts[..i]) <= p < Total(parts[..i]) + parts[i].len
    ensures PickedAt(parts, p) <==> parts[i].picked
    decreases |parts|
  {
    var front := parts[..|parts| - 1];
    if i == |parts| - 1 {
      assert parts[..i] == front;
    } else {
      assert front[..i] == parts[..i] && front[..i + 1] == parts[..i + 1];
      assert parts[..i + 1][..i] == parts[..i];
      TotalGrows(front, i + 1);
      PickedInSegment(front, i, p);
    }
  }

  /** Searching succeeds exactly on well-formed segments. The ranges found are
      non-empty, in order and with text between them, and hold a character exactly
      when its segment carries every chosen mark. */
  lemma FindMarkedIs(segments: seq<Json>, sel: Selector)
    requires Selects(sel)
    ensures var r := FindMarked(Arr(segments), sel);
            && (r.Ok? <==> AllWellFormed(segments, sel))
            && (r.Ok? ==>
                  && Apart(r.value)
                  && (forall i, p: nat :: 0 <= i < |segments|
                        && Offset(segments, i) <= p < Offset(segments, i) + |TextOf(segments[i]).value|
                        ==> (InRanges(r.value, p) <==> Carries(MarksOn(segments[i]), sel)))
                  && (forall p :: InRanges(r.value, p) ==> 0 <= p < Offset(segments, |segments|)))
  {
    ReadPartsIs(segments, MarkedPart(sel));
    forall i | 0 <= i < |segments| ensures MarkedPart(sel)(segments[i]).Ok? <==> WellFormed(segments[i], sel) {
      SegmentIs(segments[i]);
      MatchIs(MarksOn(segments[i]), sel);
    }
    var read := ReadParts(segments, MarkedPart(sel));
    if read.Ok? {
      FoundMeans(segments, sel, read.value);
    }
  }

  lemma FoundMeans(segments: seq<Json>, sel: Selector, parts: seq<Part>)
    requires |parts| == |segments| && AllWellFormed(segments, sel)
    requires forall i :: 0 <= i < |segments| ==> MarkedPart(sel)(segments[i]) == Ok(parts[i])
    ensures Apart(Collect(parts))
    ensures forall i, p: nat :: 0 <= i < |segments|
              && Offset(segments, i) <= p < Offset(segments, i) + |TextOf(segments[i]).value|
              ==> (InRanges(Collect(parts), p) <==> Carries(MarksOn(segments[i]), sel))
    ensures forall p :: InRanges(Collect(parts), p) ==> 0 <= p < Offset(segments, |segments|)
  {
    CollectIs(parts);
    forall i, p: nat | 0 <= i < |segments|
                       && Offset(segments, i) <= p < Offset(segments, i) + |TextOf(segments[i]).value|
      ensures InRanges(Collect(parts), p) <==> Carries(MarksOn(segments[i]), sel)
    {
      TotalIsOffset(segments, parts, i);
      PickedInSegment(parts, i, p);
      MatchIs(MarksOn(segments[i]), sel);
    }
    TotalIsOffset(segments, parts, |parts|);
    assert parts[..|parts|] == parts;
    forall p | InRanges(Collect(parts), p) ensures 0 <= p < Offset(segments, |segments|) {
      PickedAtIsInText(parts, p);
    }
  }

  /** The unique range is found exactly when the characters carrying every chosen
      mark form one non-empty interval; none, when there are none; anything else is
      an error. */
  lemma UniqueRangeIff(segments: seq<Json>, sel: Selector, r: Range)
    requires Selects(sel) && AllWellFormed(segments, sel)
    ensures FindMarked(Arr(segments), sel).Ok?
    ensures var held := FindMarked(Arr(segments), sel).value;
            && (FindUniqueMarked(Arr(segments), sel) == Ok(Some(r))
                <==> r.len > 0 && forall p :: InRanges(held, p) <==> Inside(r, p))
            && (FindUniqueMarked(Arr(segments), sel) == Ok(None) <==> forall p :: !InRanges(held, p))
  {
    FindMarkedIs(segments, sel);
    var read := ReadParts(segments, MarkedPart(sel));
    var held := FindMarked(Arr(segments), sel).value;
    CollectIs(read.value);
    SingleRangeIff(read.value, r);
    assert |held| == 1 ==> held == [held[0]];
  }

  // -------------------------------------------------------------------- the loops

  method MatchMarks(attributes: seq<Field>, sel: Selector) returns (r: Result<bool, DeltaError>)
    ensures r == MatchChoices(attributes, Choices(sel), 3)
  {
    var matches := true;
    var choices := Choices(sel);
    var i := 0;
    while i < |choices|
      invariant i <= |choices| == 3
      invariant MatchChoices(attributes, choices, i) == Ok(matches)
      invariant forall k: nat :: k <= i ==> MatchChoices(attributes, choices, k).Ok?
    {
      MatchStep(attributes, choices, i + 1);
      if choices[i].expected.Some? {
        match Lookup(attributes, choices[i].key) {
          case None => matches := false;
          case Some(Str(actual)) => matches := matches && actual == choices[i].expected.value;
          case Some(_) =>
            FirstErrorStays(attributes, choices, i + 1, |choices|);
            return Err(MarkNotString);
        }
      }
      i := i + 1;
    }
    r := Ok(matches);
  }

  lemma {:induction false} FirstErrorStays(attributes: seq<Field>, choices: seq<Choice>, n: nat, m: nat)
    requires n <= m <= |choices| && MatchChoices(attributes, choices, n).Err?
    ensures MatchChoices(attributes, choices, m) == MatchChoices(attributes, choices, n)
  {
    if n < m {
      FirstErrorStays(attributes, choices, n, m - 1);
    }
  }

  /** Joins a matching run to the one it touches. */
  method PushMatch(ranges: seq<Range>, cursor: nat, len: nat) returns (pushed: seq<Range>)
    ensures pushed == PushRange(ranges, cursor, len)
  {
    if ranges != [] && ranges[|ranges| - 1].pos + ranges[|ranges| - 1].len == cursor {
      var previous := ranges[|ranges| - 1];
      return ranges[..|ranges| - 1] + [previous.(len := previous.len + len)];
    }
    pushed := ranges + [Range(cursor, len)];
  }

  method FindMarkedRanges(delta: Json, sel: Selector) returns (r: Result<seq<Range>, DeltaError>)
    ensures r == FindMarked(delta, sel)
  {
    if sel.sessionId.None? && sel.utteranceId.None? && sel.laneLanguage.None? {
      return Err(NoSelector);
    }
    if !delta.Arr? {
      return Err(NotAnArray);
    }
    var segments := delta.items;
    ghost var parts: seq<Part> := [];
    var cursor, ranges := 0, [];
    for i := 0 to |segments|
      invariant ReadParts(segments[..i], MarkedPart(sel)) == Ok(parts)
      invariant cursor == Total(parts) && ranges == Collect(parts)
    {
      var text := TextOf(segments[i]);
      if text.Err? {
        FirstPartErrorStays(segments, MarkedPart(sel), i);
        return Err(text.error);
      }
      var attributes := AttributesOf(segments[i]);
      if attributes.Err? {
        FirstPartErrorStays(segments, MarkedPart(sel), i);
        return Err(attributes.error);
      }
      var matches := MatchMarks(attributes.value, sel);
      if matches.Err? {
        FirstPartErrorStays(segments, MarkedPart(sel), i);
        return Err(matches.error);
      }
      var len := |text.value|;
      ReadNext(segments, MarkedPart(sel), i, parts, Part(len, matches.value));
      if matches.value && len > 0 {
        ranges := PushMatch(ranges, cursor, len);
      }
      cursor := cursor + len;
      parts := parts + [Part(len, matches.value)];
    }
    assert segments[..|segments|] == segments;
    r := Ok(ranges);
  }

  method FindUniqueMarkedRange(delta: Json, sel: Selector) returns (r: Result<Option<Range>, DeltaError>)
    ensures r == FindUniqueMarked(delta, sel)
  {
    var ranges := FindMarkedRanges(delta, sel);
    if ranges.Err? {
      return Err(ranges.error);
    }
    match |ranges.value| {
      case 0 => r := Ok(None);
      case 1 => r := Ok(Some(ranges.value[|ranges.value| - 1]));
      case _ => r := Err(SplitRanges);
    }
  }
}
