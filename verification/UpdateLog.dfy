/**
 The file of appended updates beside a block document's snapshot: framed
 records, the last of which a crash may have cut short.

 A document is the set of its operations; an encoded export decodes to exactly
 the operations it was made of.
 */
module UpdateLog {
  import opened Wrappers
  import opened LittleEndian

  type Ops = set<nat>

  /** How exports are turned into bytes and back. */
  datatype Codec = Codec(encode: Ops -> seq<byte>, decode: seq<byte> -> Option<Ops>)

  /** An export decodes to what it was made of, and no cut-off export decodes. */
  ghost predicate Lawful(c: Codec) {
    && (forall ops {:trigger c.encode(ops)} :: c.decode(c.encode(ops)) == Some(ops))
    && (forall ops, k {:trigger c.encode(ops)[..k]} :: 0 <= k < |c.encode(ops)| ==> c.decode(c.encode(ops)[..k]).None?)
  }

  function Frame(record: seq<byte>): seq<byte> { U32Bytes(|record|) + record }

  // ---------------------------------------------------------------- the reader

  /** Where the reader goes from a record that starts at `at`: past it if it is
      all there and decodes, nowhere otherwise. */
  function NextRecord(c: Codec, log: seq<byte>, at: nat): (next: Option<nat>)
    ensures next.Some? ==> at + 4 <= next.value <= |log|
  {
    if at + 4 > |log| then None
    else
      var length := U32At(log, at);
      if at + 4 + length > |log| then None
      else if c.decode(log[at + 4..at + 4 + length]).None? then None
      else Some(at + 4 + length)
  }

  function RecordAt(c: Codec, log: seq<byte>, at: nat): Ops
    requires NextRecord(c, log, at).Some?
  {
    c.decode(log[at + 4..NextRecord(c, log, at).value]).value
  }

  /** The operations of every record from `at` on that the reader takes in. */
  function Scan(c: Codec, log: seq<byte>, at: nat): Ops
    decreases |log| - at
  {
    match NextRecord(c, log, at)
    case None => {}
    case Some(next) => RecordAt(c, log, at) + Scan(c, log, next)
  }

  /** The offset at which the reader stops. */
  function Stop(c: Codec, log: seq<byte>, at: nat): (stop: nat)
    ensures at <= stop && (at <= |log| ==> stop <= |log|)
    decreases |log| - at
  {
    match NextRecord(c, log, at)
    case None => at
    case Some(next) => Stop(c, log, next)
  }

  /** The reader comes to the offset `target`, starting from `at`. */
  predicate Reaches(c: Codec, log: seq<byte>, at: nat, target: nat)
    decreases |log| - at
  {
    at == target ||
    match NextRecord(c, log, at)
    case None => false
    case Some(next) => Reaches(c, log, next, target)
  }

  /** Nothing is torn: the reader takes in the log to its end. */
  predicate Whole(c: Codec, log: seq<byte>) { Stop(c, log, 0) == |log| }

  // --------------------------------------------------------- appending a record

  /** Records that end inside `log` are read alike after something is appended. */
  lemma NextRecordAppend(c: Codec, log: seq<byte>, tail: seq<byte>, at: nat)
    requires NextRecord(c, log, at).Some?
    ensures NextRecord(c, log + tail, at) == NextRecord(c, log, at)
    ensures RecordAt(c, log + tail, at) == RecordAt(c, log, at)
  {
    var length := U32At(log, at);
    assert U32At(log + tail, at) == length;
    assert (log + tail)[at + 4..at + 4 + length] == log[at + 4..at + 4 + length];
  }

  /** A record that ends inside `log` was readable before anything was appended. */
  lemma NextRecordInside(c: Codec, log: seq<byte>, tail: seq<byte>, at: nat)
    requires at < |log|
    requires NextRecord(c, log + tail, at).Some? && NextRecord(c, log + tail, at).value <= |log|
    ensures NextRecord(c, log, at).Some?
  {
    var all := log + tail;
    assert U32At(all, at) == U32At(log, at);
    var next := NextRecord(c, all, at).value;
    assert all[at + 4..next] == log[at + 4..next];
  }

  /** A reader that stops before the end of a log never again starts at that end,
      whatever is appended. */
  lemma StuckBeforeEnd(c: Codec, log: seq<byte>, tail: seq<byte>, at: nat)
    requires at < |log| && NextRecord(c, log, at).None?
    ensures !Reaches(c, log + tail, at, |log|)
  {
    match NextRecord(c, log + tail, at)
    case None =>
    case Some(next) =>
      assert next > |log| by {
        if next <= |log| { NextRecordInside(c, log, tail, at); }
      }
      NeverBackwards(c, log + tail, next, |log|);
  }

  lemma {:induction false} NeverBackwards(c: Codec, log: seq<byte>, at: nat, target: nat)
    requires target < at
    ensures !Reaches(c, log, at, target)
    decreases |log| - at
  {
    if NextRecord(c, log, at).Some? {
      NeverBackwards(c, log, NextRecord(c, log, at).value, target);
    }
  }

  /** What is appended to a log is found by the reader exactly when the log was
      whole: a torn tail hides everything appended after it. */
  lemma {:induction false} AppendedIsReachedIff(c: Codec, log: seq<byte>, tail: seq<byte>, at: nat)
    requires at <= |log|
    ensures Reaches(c, log + tail, at, |log|) <==> Stop(c, log, at) == |log|
    decreases |log| - at
  {
    if at < |log| {
      match NextRecord(c, log, at)
      case None => StuckBeforeEnd(c, log, tail, at);
      case Some(next) =>
        NextRecordAppend(c, log, tail, at);
        AppendedIsReachedIff(c, log, tail, next);
    }
  }

  /** Reading on after a whole prefix: what the prefix gave, then what follows. */
  lemma {:induction false} ScanAppend(c: Codec, log: seq<byte>, tail: seq<byte>, at: nat)
    requires at <= |log| && Stop(c, log, at) == |log|
    ensures Scan(c, log + tail, at) == Scan(c, log, at) + Scan(c, log + tail, |log|)
    ensures Stop(c, log + tail, at) == Stop(c, log + tail, |log|)
    decreases |log| - at
  {
    if at < |log| {
      NextRecordAppend(c, log, tail, at);
      ScanAppend(c, log, tail, NextRecord(c, log, at).value);
    } else {
      assert NextRecord(c, log, at).None?;
    }
  }

  lemma RecordIsNext(c: Codec, log: seq<byte>, record: seq<byte>)
    requires c.decode(record).Some? && |record| < U32_LIMIT
    ensures var all := log + Frame(record);
            NextRecord(c, all, |log|) == Some(|all|) && RecordAt(c, all, |log|) == c.decode(record).value
  {
    var all := log + Frame(record);
    assert all == log + U32Bytes(|record|) + record;
    U32Framed(log, |record|, record);
    assert all[|log| + 4..|log| + 4 + |record|] == record;
  }

  /** A whole record at the end of a log is read and leaves the log whole. */
  lemma WholeRecordIsRead(c: Codec, log: seq<byte>, ops: Ops)
    requires Lawful(c) && Whole(c, log) && |c.encode(ops)| < U32_LIMIT
    ensures Whole(c, log + Frame(c.encode(ops)))
    ensures Scan(c, log + Frame(c.encode(ops)), 0) == Scan(c, log, 0) + ops
  {
    var all := log + Frame(c.encode(ops));
    ScanAppend(c, log, Frame(c.encode(ops)), 0);
    RecordIsNext(c, log, c.encode(ops));
    assert NextRecord(c, all, |all|).None?;
  }

  /** A record cut short anywhere is ignored, and what stood before it is read. */
  lemma TornRecordIsIgnored(c: Codec, log: seq<byte>, ops: Ops, k: nat)
    requires Lawful(c) && Whole(c, log) && |c.encode(ops)| < U32_LIMIT
    requires k < |Frame(c.encode(ops))|
    ensures Scan(c, log + Frame(c.encode(ops))[..k], 0) == Scan(c, log, 0)
    ensures Whole(c, log + Frame(c.encode(ops))[..k]) <==> k == 0
  {
    ScanAppend(c, log, Frame(c.encode(ops))[..k], 0);
    TornIsNotRead(c, log, c.encode(ops), k);
  }

  lemma TornIsNotRead(c: Codec, log: seq<byte>, record: seq<byte>, k: nat)
    requires |record| < U32_LIMIT && k < |Frame(record)|
    ensures NextRecord(c, log + Frame(record)[..k], |log|).None?
  {
    if k >= 4 {
      CutFrame(record, k);
      AppendTwice(log, U32Bytes(|record|), record[..k - 4]);
      U32Framed(log, |record|, record[..k - 4]);
    }
  }

  lemma CutFrame(record: seq<byte>, k: nat)
    requires 4 <= k < |Frame(record)|
    ensures Frame(record)[..k] == U32Bytes(|record|) + record[..k - 4]
  {
  }

  lemma AppendTwice(a: seq<byte>, b: seq<byte>, d: seq<byte>)
    ensures a + (b + d) == a + b + d
  {
  }

  /** The bytes at the torn place do not decode now that more stands behind them. */
  predicate StaysTorn(c: Codec, log: seq<byte>, tail: seq<byte>) {
    NextRecord(c, log + tail, Stop(c, log, 0)).None?
  }

  /** Reading on behind a torn place gives what stood in front of it. */
  lemma {:induction false} ScanStuck(c: Codec, log: seq<byte>, tail: seq<byte>, at: nat)
    requires at <= |log| && Stop(c, log, at) < |log| && NextRecord(c, log + tail, Stop(c, log, at)).None?
    ensures Scan(c, log + tail, at) == Scan(c, log, at)
    decreases |log| - at
  {
    if NextRecord(c, log, at).Some? {
      NextRecordAppend(c, log, tail, at);
      ScanStuck(c, log, tail, NextRecord(c, log, at).value);
    }
  }

  // ------------------------------------------------------- the format of the file

  /** A file of exports: each behind its length in four bytes, lowest first. */
  function Written(c: Codec, exports: seq<Ops>): seq<byte> {
    if exports == [] then []
    else
      var record := c.encode(exports[|exports| - 1]);
      var n := |record|;
      Written(c, exports[..|exports| - 1]) + [n % 256, n / 256 % 256, n / 65536 % 256, n / 16777216 % 256] + record
  }

  function UnionOf(exports: seq<Ops>): Ops {
    if exports == [] then {} else UnionOf(exports[..|exports| - 1]) + exports[|exports| - 1]
  }

  /** A file of exports reads as all their operations. */
  lemma {:induction false} WrittenIsRead(c: Codec, exports: seq<Ops>)
    requires Lawful(c) && forall i :: 0 <= i < |exports| ==> |c.encode(exports[i])| < U32_LIMIT
    ensures Whole(c, Written(c, exports)) && Scan(c, Written(c, exports), 0) == UnionOf(exports)
  {
    if exports != [] {
      var front, last := exports[..|exports| - 1], exports[|exports| - 1];
      WrittenIsRead(c, front);
      WholeRecordIsRead(c, Written(c, front), last);
      WrittenNext(c, exports, front, last);
    }
  }

  lemma WrittenNext(c: Codec, exports: seq<Ops>, front: seq<Ops>, last: Ops)
    requires exports != [] && front == exports[..|exports| - 1] && last == exports[|exports| - 1]
    ensures Written(c, exports) == Written(c, front) + Frame(c.encode(last))
    ensures UnionOf(exports) == UnionOf(front) + last
  {
    AppendTwice(Written(c, front), U32Bytes(|c.encode(last)|), c.encode(last));
  }

  /** The length that stands before a record. */
  function LengthBefore(tail: seq<byte>): nat
    requires |tail| >= 4
  {
    tail[0] as int + 256 * (tail[1] as int) + 65536 * (tail[2] as int) + 16777216 * (tail[3] as int)
  }

  /** No length, not as many bytes as the length says, or bytes that do not decode. */
  predicate Bad(c: Codec, tail: seq<byte>) {
    |tail| < 4 || LengthBefore(tail) > |tail| - 4 || c.decode(tail[4..4 + LengthBefore(tail)]).None?
  }

  /** The reader takes in a file up to its end or to the first record that is torn or
      does not decode, whatever stands behind it. */
  lemma ReaderStopsAtFirstBad(c: Codec, exports: seq<Ops>, tail: seq<byte>)
    requires Lawful(c) && forall i :: 0 <= i < |exports| ==> |c.encode(exports[i])| < U32_LIMIT
    requires Bad(c, tail)
    ensures Scan(c, Written(c, exports) + tail, 0) == UnionOf(exports)
  {
    WrittenIsRead(c, exports);
    ScanAppend(c, Written(c, exports), tail, 0);
    BadIsNotRead(c, Written(c, exports), tail);
  }

  lemma LengthBehind(log: seq<byte>, tail: seq<byte>)
    requires |tail| >= 4
    ensures U32At(log + tail, |log|) == LengthBefore(tail)
  {
    var all := log + tail;
    assert all[|log|] == tail[0] && all[|log| + 1] == tail[1] && all[|log| + 2] == tail[2] && all[|log| + 3] == tail[3];
  }

  lemma BadIsNotRead(c: Codec, log: seq<byte>, tail: seq<byte>)
    requires Bad(c, tail)
    ensures NextRecord(c, log + tail, |log|).None?
  {
    if |tail| >= 4 {
      LengthBehind(log, tail);
      SliceBehind(log, tail, LengthBefore(tail));
    }
  }

  lemma SliceBehind(log: seq<byte>, tail: seq<byte>, n: nat)
    ensures 4 + n <= |tail| ==> (log + tail)[|log| + 4..|log| + 4 + n] == tail[4..4 + n]
  {
  }
}
