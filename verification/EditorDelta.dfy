/**
 An editor document as a Delta: text segments with attributes, as JSON values, and
 the runs of positions that a condition on the segments picks out.
 */
module EditorDelta {
  import opened Wrappers

  datatype Json = Null | Bool(b: bool) | Num(n: int) | Str(s: string) | Arr(items: seq<Json>) | Obj(fields: seq<Field>)

  datatype Field = Field(key: string, value: Json)

  datatype DeltaError = NoSelector | NotAnArray | TextNotString | AttributesNotObject | MarkNotString | SplitRanges

  datatype Range = Range(pos: nat, len: nat)

  /** A segment's length in characters and whether it is picked. */
  datatype Part = Part(len: nat, picked: bool)

  function Lookup(fields: seq<Field>, key: string): Option<Json> {
    if fields == [] then None
    else if fields[0].key == key then Some(fields[0].value)
    else Lookup(fields[1..], key)
  }

  /** A member of an object; other values have none. */
  function Get(value: Json, key: string): Option<Json> {
    if value.Obj? then Lookup(value.fields, key) else None
  }

  function TextOf(segment: Json): Result<string, DeltaError> {
    match Get(segment, "insert")
    case Some(Str(text)) => Ok(text)
    case _ => Err(TextNotString)
  }

  // ------------------------------------------------------------- picking segments

  /** The parts of the segments, or the first error among them. */
  function ReadParts(segments: seq<Json>, part: Json -> Result<Part, DeltaError>): Result<seq<Part>, DeltaError> {
    if segments == [] then Ok([])
    else
      match ReadParts(segments[..|segments| - 1], part)
      case Err(e) => Err(e)
      case Ok(parts) =>
        match part(segments[|segments| - 1])
        case Err(e) => Err(e)
        case Ok(last) => Ok(parts + [last])
  }

  lemma {:induction false} ReadPartsIs(segments: seq<Json>, part: Json -> Result<Part, DeltaError>)
    ensures var r := ReadParts(segments, part);
            && (r.Ok? <==> forall i :: 0 <= i < |segments| ==> part(segments[i]).Ok?)
            && (r.Ok? ==> |r.value| == |segments|
                          && forall i :: 0 <= i < |segments| ==> part(segments[i]) == Ok(r.value[i]))
  {
    if segments != [] {
      var front := segments[..|segments| - 1];
      ReadPartsIs(front, part);
      assert forall i :: 0 <= i < |front| ==> front[i] == segments[i];
    }
  }

  lemma ReadPartsSplit(segments: seq<Json>, part: Json -> Result<Part, DeltaError>, parts: seq<Part>)
    returns (read: seq<Part>, last: Part)
    requires segments != [] && ReadParts(segments, part) == Ok(parts)
    ensures parts == read + [last] && ReadParts(segments[..|segments| - 1], part) == Ok(read)
    ensures part(segments[|segments| - 1]) == Ok(last)
  {
    read, last := parts[..|parts| - 1], parts[|parts| - 1];
  }

  /** Reading ends at the first segment that is wrong. */
  lemma {:induction false} FirstPartErrorStays(segments: seq<Json>, part: Json -> Result<Part, DeltaError>, n: nat)
    requires n < |segments| && ReadParts(segments[..n], part).Ok? && part(segments[n]).Err?
    ensures ReadParts(segments, part) == Err(part(segments[n]).error)
    decreases |segments|
  {
    var front := segments[..|segments| - 1];
    if n == |segments| - 1 {
      assert segments[..n] == front;
    } else {
      assert front[..n] == segments[..n];
      FirstPartErrorStays(front, part, n);
    }
  }

  function Total(parts: seq<Part>): nat {
    if parts == [] then 0 else Total(parts[..|parts| - 1]) + parts[|parts| - 1].len
  }

  // ------------------------------------------------------------- ranges and runs

  function PushRange(ranges: seq<Range>, pos: nat, len: nat): seq<Range> {
    if ranges != [] && ranges[|ranges| - 1].pos + ranges[|ranges| - 1].len == pos
    then ranges[..|ranges| - 1] + [Range(ranges[|ranges| - 1].pos, ranges[|ranges| - 1].len + len)]
    else ranges + [Range(pos, len)]
  }

  function Collect(parts: seq<Part>): seq<Range> {
    if parts == [] then []
    else
      var ranges, last := Collect(parts[..|parts| - 1]), parts[|parts| - 1];
      if last.picked && last.len > 0 then PushRange(ranges, Total(parts[..|parts| - 1]), last.len) else ranges
  }

  /** One segment more is read. */
  lemma ReadNext(segments: seq<Json>, part: Json -> Result<Part, DeltaError>, i: nat, parts: seq<Part>, p: Part)
    requires i < |segments| && ReadParts(segments[..i], part) == Ok(parts) && part(segments[i]) == Ok(p)
    ensures ReadParts(segments[..i + 1], part) == Ok(parts + [p])
    ensures Total(parts + [p]) == Total(parts) + p.len
    ensures Collect(parts + [p]) == if p.picked && p.len > 0 then PushRange(Collect(parts), Total(parts), p.len) else Collect(parts)
  {
    assert segments[..i + 1][..i] == segments[..i] && segments[..i + 1][i] == segments[i];
    assert (parts + [p])[..|parts|] == parts && (parts + [p])[|parts|] == p;
  }

  predicate Inside(r: Range, p: int) { r.pos <= p < r.pos + r.len }

  ghost predicate InRanges(ranges: seq<Range>, p: int) { exists i :: 0 <= i < |ranges| && Inside(ranges[i], p) }

  /** Whether the character at `p` is in a picked segment. */
  predicate PickedAt(parts: seq<Part>, p: int) {
    parts != [] &&
    if p >= Total(parts[..|parts| - 1])
    then p < Total(parts) && parts[|parts| - 1].picked
    else PickedAt(parts[..|parts| - 1], p)
  }

  /** Non-empty, in order, with a gap between any two. */
  ghost predicate Apart(ranges: seq<Range>) {
    && (forall i :: 0 <= i < |ranges| ==> ranges[i].len > 0)
    && (forall i, j :: 0 <= i < j < |ranges| ==> ranges[i].pos + ranges[i].len < ranges[j].pos)
  }

  lemma {:induction false} PickedAtIsInText(parts: seq<Part>, p: int)
    requires PickedAt(parts, p)
    ensures 0 <= p < Total(parts)
  {
    if p < Total(parts[..|parts| - 1]) {
      PickedAtIsInText(parts[..|parts| - 1], p);
    }
  }

  lemma PushInside(ranges: seq<Range>, pos: nat, len: nat, p: int)
    requires len > 0
    ensures InRanges(PushRange(ranges, pos, len), p) <==> InRanges(ranges, p) || pos <= p < pos + len
  {
    var after := PushRange(ranges, pos, len);
    if InRanges(ranges, p) {
      var i :| 0 <= i < |ranges| && Inside(ranges[i], p);
      assert Inside(after[i], p);
    }
    if pos <= p < pos + len {
      assert Inside(after[|after| - 1], p);
    }
    if InRanges(after, p) {
      var i :| 0 <= i < |after| && Inside(after[i], p);
      assert (i < |ranges| && Inside(ranges[i], p)) || pos <= p < pos + len;
    }
  }

  /** The collected ranges lie apart and hold exactly the picked positions. */
  lemma {:induction false} CollectIs(parts: seq<Part>)
    ensures Apart(Collect(parts))
    ensures forall i :: 0 <= i < |Collect(parts)| ==> Collect(parts)[i].pos + Collect(parts)[i].len <= Total(parts)
    ensures forall p :: InRanges(Collect(parts), p) <==> PickedAt(parts, p)
  {
    if parts != [] {
      var front, last := parts[..|parts| - 1], parts[|parts| - 1];
      CollectIs(front);
      forall p ensures InRanges(Collect(parts), p) <==> PickedAt(parts, p) {
        if last.picked && last.len > 0 {
          PushInside(Collect(front), Total(front), last.len, p);
        }
        if PickedAt(front, p) {
          PickedAtIsInText(front, p);
        }
      }
    }
  }

  /** Ranges apart are determined by the positions they hold. */
  lemma {:induction false} ApartAreUnique(a: seq<Range>, b: seq<Range>)
    requires Apart(a) && Apart(b) && forall p :: InRanges(a, p) <==> InRanges(b, p)
    ensures a == b
    decreases |a|
  {
    if a != [] && b != [] {
      FirstIsUnique(a, b);
      FirstIsUnique(b, a);
      assert a[0] == b[0];
      forall p ensures InRanges(a[1..], p) <==> InRanges(b[1..], p) {
        WithoutFirst(a, p);
        WithoutFirst(b, p);
      }
      assert Apart(a[1..]) && Apart(b[1..]);
      ApartAreUnique(a[1..], b[1..]);
      assert a == [a[0]] + a[1..] && b == [b[0]] + b[1..];
    } else if a != [] {
      assert Inside(a[0], a[0].pos);
      assert InRanges(a, a[0].pos);
    } else if b != [] {
      assert Inside(b[0], b[0].pos);
      assert InRanges(b, b[0].pos);
    }
  }

  lemma WithoutFirst(a: seq<Range>, p: int)
    requires Apart(a) && a != []
    ensures InRanges(a[1..], p) <==> InRanges(a, p) && !Inside(a[0], p)
  {
    if InRanges(a, p) {
      var i :| 0 <= i < |a| && Inside(a[i], p);
      if i > 0 {
        assert a[1..][i - 1] == a[i];
      }
    }
    if InRanges(a[1..], p) {
      var i :| 0 <= i < |a[1..]| && Inside(a[1..][i], p);
      assert a[i + 1] == a[1..][i];
    }
  }

  lemma FirstIsUnique(a: seq<Range>, b: seq<Range>)
    requires Apart(a) && Apart(b) && forall p :: InRanges(a, p) <==> InRanges(b, p)
    requires a != [] && b != []
    ensures a[0].pos >= b[0].pos && (a[0].pos == b[0].pos ==> a[0].len <= b[0].len)
  {
    assert Inside(a[0], a[0].pos);
    assert InRanges(a, a[0].pos);
    var end := b[0].pos + b[0].len;
    assert !InRanges(b, end);
    assert Inside(a[0], end) ==> InRanges(a, end);
  }

  /** One range, exactly when the positions held form one non-empty interval. */
  lemma SingleRangeIff(parts: seq<Part>, r: Range)
    ensures Collect(parts) == [r] <==> r.len > 0 && forall p :: InRanges(Collect(parts), p) <==> Inside(r, p)
    ensures Collect(parts) == [] <==> forall p :: !InRanges(Collect(parts), p)
  {
    CollectIs(parts);
    var ranges := Collect(parts);
    assert [r][0] == r;
    assert forall p :: InRanges([r], p) <==> Inside(r, p);
    if r.len > 0 && forall p :: InRanges(ranges, p) <==> Inside(r, p) {
      ApartAreUnique(ranges, [r]);
    }
    if ranges != [] {
      assert Inside(ranges[0], ranges[0].pos);
      assert InRanges(ranges, ranges[0].pos);
    }
  }
}
