/**
 One backup as a single blob: a magic, a header, and the documents one after
 another, every part behind its length.
 */
module BackupSnapshot {
  import opened Wrappers
  import opened LittleEndian

  /** `ZTBK1` and a newline. */
  const MAGIC: seq<byte> := [90, 84, 66, 75, 49, 10]

  datatype Header = Header(createdAtMs: int, sourceId: string, sourceName: string, recordings: nat, topics: nat)

  datatype Doc = Doc(id: string, data: seq<byte>)

  datatype DecodeError = NotABackup | Incomplete | BadHeader | BadId

  /** The encodings of headers (JSON) and ids (UTF-8). */
  datatype Codec = Codec(
    head: Header -> seq<byte>, readHead: seq<byte> -> Option<Header>,
    text: string -> seq<byte>, readText: seq<byte> -> Option<string>)

  /** A header is read back as it was written; a string has one encoding. */
  ghost predicate Lawful(c: Codec) {
    && (forall h {:trigger c.head(h)} :: c.readHead(c.head(h)) == Some(h))
    && (forall s {:trigger c.text(s)} :: c.readText(c.text(s)) == Some(s))
    && (forall b {:trigger c.readText(b)} :: c.readText(b).Some? ==> c.text(c.readText(b).value) == b)
  }

  // ------------------------------------------------------------------- writing

  /** A part behind its length. */
  function Framed(part: seq<byte>): seq<byte> { U32Bytes(|part|) + part }

  function EncodeDoc(c: Codec, doc: Doc): seq<byte> {
    Framed(c.text(doc.id)) + Framed(doc.data)
  }

  function EncodeDocs(c: Codec, docs: seq<Doc>): seq<byte> {
    if docs == [] then [] else EncodeDoc(c, docs[0]) + EncodeDocs(c, docs[1..])
  }

  function Lead(c: Codec, h: Header): seq<byte> { Framed(c.head(h)) }

  function Encode(c: Codec, h: Header, docs: seq<Doc>): seq<byte> {
    MAGIC + (Lead(c, h) + EncodeDocs(c, docs))
  }

  // ------------------------------------------------------------------- reading

  /** A part behind its length, and what follows it. */
  function Take(rest: seq<byte>): (r: Option<(seq<byte>, seq<byte>)>)
    ensures r.Some? ==> |r.value.1| < |rest|
  {
    if |rest| < 4 then None
    else
      var length := U32At(rest, 0);
      if |rest| - 4 < length then None else Some((rest[4..4 + length], rest[4 + length..]))
  }

  function DecodeDocs(c: Codec, rest: seq<byte>): Result<seq<Doc>, DecodeError>
    decreases |rest|
  {
    if rest == [] then Ok([])
    else
      match Take(rest)
      case None => Err(Incomplete)
      case Some((name, rest1)) =>
        match c.readText(name)
        case None => Err(BadId)
        case Some(id) =>
          match Take(rest1)
          case None => Err(Incomplete)
          case Some((data, rest2)) => Prepend([Doc(id, data)], DecodeDocs(c, rest2))
  }

  function Prepend(docs: seq<Doc>, r: Result<seq<Doc>, DecodeError>): Result<seq<Doc>, DecodeError> {
    match r
    case Ok(more) => Ok(docs + more)
    case Err(e) => Err(e)
  }

  function Decode(c: Codec, bytes: seq<byte>): Result<(Header, seq<Doc>), DecodeError> {
    if !(MAGIC <= bytes) then Err(NotABackup)
    else
      match Take(bytes[|MAGIC|..])
      case None => Err(Incomplete)
      case Some((head, rest)) =>
        match c.readHead(head)
        case None => Err(BadHeader)
        case Some(h) =>
          match DecodeDocs(c, rest)
          case Ok(docs) => Ok((h, docs))
          case Err(e) => Err(e)
  }

  // ---------------------------------------------------------------- round trips

  predicate FitsDoc(c: Codec, doc: Doc) { |c.text(doc.id)| < U32_LIMIT && |doc.data| < U32_LIMIT }

  predicate Fits(c: Codec, docs: seq<Doc>) { forall i :: 0 <= i < |docs| ==> FitsDoc(c, docs[i]) }

  /** A part is taken back whole exactly when its length fits 32 bits. */
  lemma TakePart(part: seq<byte>, rest: seq<byte>)
    ensures |part| < U32_LIMIT ==> Take(Framed(part) + rest) == Some((part, rest))
    ensures |part| >= U32_LIMIT ==>
              Take(Framed(part) + rest).Some? && |Take(Framed(part) + rest).value.0| < |part|
  {
    var all := Framed(part) + rest;
    U32RoundTripIff(|part|);
    assert U32At(all, 0) == U32At(U32Bytes(|part|), 0);
    if |part| < U32_LIMIT {
      assert all[4..4 + |part|] == part;
      assert all[4 + |part|..] == rest;
    }
  }

  lemma DocInParts(c: Codec, doc: Doc, rest: seq<byte>)
    ensures EncodeDoc(c, doc) + rest == Framed(c.text(doc.id)) + (Framed(doc.data) + rest)
  {
  }

  lemma DecodeDoc(c: Codec, doc: Doc, rest: seq<byte>)
    requires Lawful(c) && FitsDoc(c, doc)
    ensures DecodeDocs(c, EncodeDoc(c, doc) + rest) == Prepend([doc], DecodeDocs(c, rest))
  {
    DocInParts(c, doc, rest);
    TakePart(c.text(doc.id), Framed(doc.data) + rest);
    TakePart(doc.data, rest);
  }

  /** A document whose parts do not both fit never comes back as it was. */
  lemma LongDocIsLost(c: Codec, doc: Doc, rest: seq<byte>)
    requires Lawful(c) && !FitsDoc(c, doc)
    ensures var r := DecodeDocs(c, EncodeDoc(c, doc) + rest);
            r.Ok? ==> r.value != [] && r.value[0] != doc
  {
    DocInParts(c, doc, rest);
    TakePart(c.text(doc.id), Framed(doc.data) + rest);
    TakePart(doc.data, rest);
  }

  lemma FitsCons(c: Codec, doc: Doc, more: seq<Doc>)
    ensures Fits(c, [doc] + more) <==> FitsDoc(c, doc) && Fits(c, more)
  {
    assert ([doc] + more)[0] == doc;
    assert forall i :: 0 <= i < |more| ==> ([doc] + more)[i + 1] == more[i];
  }

  lemma EncodeCons(c: Codec, doc: Doc, more: seq<Doc>)
    ensures EncodeDocs(c, [doc] + more) == EncodeDoc(c, doc) + EncodeDocs(c, more)
  {
    assert ([doc] + more)[1..] == more;
  }

  lemma PrependIs(doc: Doc, r: Result<seq<Doc>, DecodeError>, more: seq<Doc>)
    ensures Prepend([doc], r) == Ok([doc] + more) <==> r == Ok(more)
  {
    if r.Ok? {
      assert ([doc] + r.value)[1..] == r.value && ([doc] + more)[1..] == more;
    }
  }

  lemma DocsRoundTripStep(c: Codec, doc: Doc, more: seq<Doc>, bytes: seq<byte>)
    requires Lawful(c) && (DecodeDocs(c, bytes) == Ok(more) <==> Fits(c, more))
    ensures DecodeDocs(c, EncodeDoc(c, doc) + bytes) == Ok([doc] + more) <==> FitsDoc(c, doc) && Fits(c, more)
  {
    if FitsDoc(c, doc) {
      DecodeDoc(c, doc, bytes);
      PrependIs(doc, DecodeDocs(c, bytes), more);
    } else {
      LongDocIsLost(c, doc, bytes);
    }
  }

  /** The documents come back exactly when each of them fits. */
  ghost predicate ComesBackIff(c: Codec, docs: seq<Doc>) {
    DecodeDocs(c, EncodeDocs(c, docs)) == Ok(docs) <==> Fits(c, docs)
  }

  lemma ComesBackCons(c: Codec, doc: Doc, more: seq<Doc>)
    requires Lawful(c) && ComesBackIff(c, more)
    ensures ComesBackIff(c, [doc] + more)
  {
    EncodeCons(c, doc, more);
    DocsRoundTripStep(c, doc, more, EncodeDocs(c, more));
    FitsCons(c, doc, more);
  }

  lemma {:induction false} DocsRoundTripIff(c: Codec, docs: seq<Doc>)
    requires Lawful(c)
    ensures ComesBackIff(c, docs)
  {
    if docs != [] {
      DocsRoundTripIff(c, docs[1..]);
      ComesBackCons(c, docs[0], docs[1..]);
      assert docs == [docs[0]] + docs[1..];
    }
  }

  lemma DecodeLead(c: Codec, h: Header, rest: seq<byte>)
    requires Lawful(c) && |c.head(h)| < U32_LIMIT
    ensures Decode(c, MAGIC + (Lead(c, h) + rest))
         == (match DecodeDocs(c, rest) case Ok(docs) => Ok((h, docs)) case Err(e) => Err(e))
  {
    var all := MAGIC + (Lead(c, h) + rest);
    assert all[|MAGIC|..] == Framed(c.head(h)) + rest;
    TakePart(c.head(h), rest);
  }

  /** A snapshot is read back as it was written exactly when every id and every
      document is shorter than 2^32 bytes. */
  lemma SnapshotRoundTripIff(c: Codec, h: Header, docs: seq<Doc>)
    requires Lawful(c) && |c.head(h)| < U32_LIMIT
    ensures Decode(c, Encode(c, h, docs)) == Ok((h, docs)) <==> Fits(c, docs)
  {
    DecodeLead(c, h, EncodeDocs(c, docs));
    DocsRoundTripIff(c, docs);
  }

  // ------------------------------------------------------------------ truncation

  /** Bytes cut inside a part do not yield it. */
  lemma TakeCut(part: seq<byte>, rest: seq<byte>, cut: nat)
    requires |part| < U32_LIMIT && cut < 4 + |part|
    ensures Take((Framed(part) + rest)[..cut]).None?
  {
    var all := Framed(part) + rest;
    U32RoundTripIff(|part|);
    if cut >= 4 {
      assert U32At(all[..cut], 0) == U32At(U32Bytes(|part|), 0);
    }
  }

  lemma CutPast(a: seq<byte>, b: seq<byte>, cut: nat)
    requires |a| <= cut <= |a + b|
    ensures (a + b)[..cut] == a + b[..cut - |a|]
  {
  }

  lemma DocCut(c: Codec, doc: Doc, rest: seq<byte>, cut: nat)
    requires Lawful(c) && FitsDoc(c, doc) && 0 < cut < |EncodeDoc(c, doc)|
    ensures DecodeDocs(c, (EncodeDoc(c, doc) + rest)[..cut]).Err?
  {
    var name, tail := c.text(doc.id), Framed(doc.data) + rest;
    DocInParts(c, doc, rest);
    if cut < 4 + |name| {
      TakeCut(name, tail, cut);
    } else {
      CutPast(Framed(name), tail, cut);
      TakePart(name, tail[..cut - 4 - |name|]);
      TakeCut(doc.data, rest, cut - 4 - |name|);
    }
  }

  /** How many whole documents come before a cut, and what of the next one. */
  function DocsBefore(c: Codec, docs: seq<Doc>, cut: nat): (r: (nat, nat))
    ensures r.0 <= |docs|
  {
    if docs == [] || cut < |EncodeDoc(c, docs[0])| then (0, cut)
    else
      var (whole, partial) := DocsBefore(c, docs[1..], cut - |EncodeDoc(c, docs[0])|);
      (whole + 1, partial)
  }

  /** Whether a reading is of the documents before a boundary, or fails off one. */
  predicate ReadsAs(r: Result<seq<Doc>, DecodeError>, before: seq<Doc>, partial: nat) {
    if partial == 0 then r == Ok(before) else r.Err?
  }

  /** What is read of the bytes of documents cut at `cut`: the first `whole` of them,
      if the cut is at their end; otherwise an error. */
  ghost predicate CutReads(c: Codec, docs: seq<Doc>, bytes: seq<byte>, cut: nat, whole: nat, partial: nat) {
    && whole <= |docs| && cut <= |bytes|
    && cut == |EncodeDocs(c, docs[..whole])| + partial
    && ReadsAs(DecodeDocs(c, bytes[..cut]), docs[..whole], partial)
  }

  lemma CutAt(a: seq<byte>, b: seq<byte>, all: seq<byte>, cut: nat, left: nat)
    requires left <= |b| && all == a + b && cut == |a| + left
    ensures cut <= |all| && all[..cut] == a + b[..left]
  {
  }

  /** A document before the cut is read whole. */
  lemma CutDecodes(c: Codec, bytes: seq<byte>, cut: nat, doc: Doc, rest: seq<byte>, left: nat)
    requires Lawful(c) && FitsDoc(c, doc) && left <= |rest|
    requires bytes == EncodeDoc(c, doc) + rest && cut == |EncodeDoc(c, doc)| + left
    ensures cut <= |bytes| && DecodeDocs(c, bytes[..cut]) == Prepend([doc], DecodeDocs(c, rest[..left]))
  {
    CutAt(EncodeDoc(c, doc), rest, bytes, cut, left);
    DecodeDoc(c, doc, rest[..left]);
  }

  lemma PrefixCons(c: Codec, docs: seq<Doc>, doc: Doc, more: seq<Doc>, n: nat)
    requires docs == [doc] + more && n <= |more|
    ensures docs[..n + 1] == [doc] + more[..n]
    ensures |EncodeDocs(c, docs[..n + 1])| == |EncodeDoc(c, doc)| + |EncodeDocs(c, more[..n])|
  {
    assert docs[..n + 1] == [doc] + more[..n];
    EncodeCons(c, doc, more[..n]);
  }

  lemma ReadsAsCons(doc: Doc, r: Result<seq<Doc>, DecodeError>, before: seq<Doc>, partial: nat)
    requires ReadsAs(r, before, partial)
    ensures ReadsAs(Prepend([doc], r), [doc] + before, partial)
  {
  }

  lemma CutReadsIs(c: Codec, docs: seq<Doc>, bytes: seq<byte>, cut: nat, whole: nat, partial: nat,
                   read: Result<seq<Doc>, DecodeError>, prefix: seq<Doc>)
    requires whole <= |docs| && cut <= |bytes| && prefix == docs[..whole] && read == DecodeDocs(c, bytes[..cut])
    requires cut == |EncodeDocs(c, prefix)| + partial && ReadsAs(read, prefix, partial)
    ensures CutReads(c, docs, bytes, cut, whole, partial)
  {
  }

  lemma CutReadsCons(c: Codec, docs: seq<Doc>, bytes: seq<byte>, cut: nat, doc: Doc, more: seq<Doc>, rest: seq<byte>,
                     left: nat, whole: nat, partial: nat, before: (nat, nat))
    requires Lawful(c) && FitsDoc(c, doc) && CutReads(c, more, rest, left, whole, partial)
    requires docs == [doc] + more && bytes == EncodeDoc(c, doc) + rest && cut == |EncodeDoc(c, doc)| + left
    requires before == (whole + 1, partial)
    ensures CutReads(c, docs, bytes, cut, before.0, before.1)
  {
    PrefixCons(c, docs, doc, more, whole);
    CutDecodes(c, bytes, cut, doc, rest, left);
    ReadsAsCons(doc, DecodeDocs(c, rest[..left]), more[..whole], partial);
    CutReadsIs(c, docs, bytes, cut, whole + 1, partial, Prepend([doc], DecodeDocs(c, rest[..left])), docs[..whole + 1]);
  }

  lemma CutBeforeFirst(c: Codec, docs: seq<Doc>, cut: nat)
    requires Lawful(c) && Fits(c, docs) && cut <= |EncodeDocs(c, docs)|
    requires docs == [] || cut < |EncodeDoc(c, docs[0])|
    ensures CutReads(c, docs, EncodeDocs(c, docs), cut, 0, cut)
  {
    assert docs[..0] == [];
    if cut == 0 {
      assert EncodeDocs(c, docs)[..0] == [];
    } else {
      DocCut(c, docs[0], EncodeDocs(c, docs[1..]), cut);
    }
  }

  lemma EncodeFirst(c: Codec, docs: seq<Doc>)
    requires docs != []
    ensures docs == [docs[0]] + docs[1..] && EncodeDocs(c, docs) == EncodeDoc(c, docs[0]) + EncodeDocs(c, docs[1..])
  {
  }

  lemma BeforeFirstOrLater(c: Codec, docs: seq<Doc>, cut: nat, left: nat)
    requires docs != [] && cut == |EncodeDoc(c, docs[0])| + left
    ensures DocsBefore(c, docs, cut) == (DocsBefore(c, docs[1..], left).0 + 1, DocsBefore(c, docs[1..], left).1)
  {
  }

  /** A cut reads as the documents before it. */
  ghost predicate TruncatedAt(c: Codec, docs: seq<Doc>, cut: nat) {
    CutReads(c, docs, EncodeDocs(c, docs), cut, DocsBefore(c, docs, cut).0, DocsBefore(c, docs, cut).1)
  }

  lemma TruncatedLater(c: Codec, docs: seq<Doc>, cut: nat, left: nat)
    requires Lawful(c) && docs != [] && FitsDoc(c, docs[0]) && cut == |EncodeDoc(c, docs[0])| + left
    requires TruncatedAt(c, docs[1..], left)
    ensures TruncatedAt(c, docs, cut)
  {
    var later := DocsBefore(c, docs[1..], left);
    EncodeFirst(c, docs);
    BeforeFirstOrLater(c, docs, cut, left);
    CutReadsCons(c, docs, EncodeDocs(c, docs), cut, docs[0], docs[1..], EncodeDocs(c, docs[1..]), left, later.0, later.1,
                 DocsBefore(c, docs, cut));
  }

  lemma {:induction false} DocsTruncated(c: Codec, docs: seq<Doc>, cut: nat)
    requires Lawful(c) && Fits(c, docs) && cut <= |EncodeDocs(c, docs)|
    ensures TruncatedAt(c, docs, cut)
  {
    if docs == [] || cut < |EncodeDoc(c, docs[0])| {
      CutBeforeFirst(c, docs, cut);
    } else {
      EncodeFirst(c, docs);
      DocsTruncated(c, docs[1..], cut - |EncodeDoc(c, docs[0])|);
      TruncatedLater(c, docs, cut, cut - |EncodeDoc(c, docs[0])|);
    }
  }

  /** A cut inside a document is no document's boundary. */
  lemma {:induction false} CutIsBetween(c: Codec, docs: seq<Doc>, cut: nat, k: nat)
    requires k <= |docs| && cut <= |EncodeDocs(c, docs)| && DocsBefore(c, docs, cut).1 != 0
    ensures cut != |EncodeDocs(c, docs[..k])|
    decreases |docs|
  {
    if docs != [] && k > 0 {
      assert docs[..k][0] == docs[0] && docs[..k][1..] == docs[1..][..k - 1];
      if cut >= |EncodeDoc(c, docs[0])| {
        CutIsBetween(c, docs[1..], cut - |EncodeDoc(c, docs[0])|, k - 1);
      }
    }
  }

  lemma CutInLead(c: Codec, h: Header, rest: seq<byte>, cut: nat)
    requires |c.head(h)| < U32_LIMIT && cut < |MAGIC| + |Lead(c, h)|
    ensures Decode(c, (MAGIC + (Lead(c, h) + rest))[..cut]).Err?
  {
    if |MAGIC| <= cut {
      CutPast(MAGIC, Lead(c, h) + rest, cut);
      assert (MAGIC + (Lead(c, h) + rest)[..cut - |MAGIC|])[|MAGIC|..] == (Lead(c, h) + rest)[..cut - |MAGIC|];
      TakeCut(c.head(h), rest, cut - |MAGIC|);
    }
  }

  lemma CutPastLead(c: Codec, h: Header, rest: seq<byte>, cut: nat)
    requires Lawful(c) && |c.head(h)| < U32_LIMIT && cut <= |rest|
    ensures Decode(c, (MAGIC + (Lead(c, h) + rest))[..|MAGIC| + |Lead(c, h)| + cut])
         == (match DecodeDocs(c, rest[..cut]) case Ok(docs) => Ok((h, docs)) case Err(e) => Err(e))
  {
    CutTwice(MAGIC, Lead(c, h), rest, cut);
    DecodeLead(c, h, rest[..cut]);
  }

  lemma CutTwice(a: seq<byte>, b: seq<byte>, rest: seq<byte>, cut: nat)
    requires cut <= |rest|
    ensures (a + (b + rest))[..|a| + |b| + cut] == a + (b + rest[..cut])
  {
  }

  /** What the cut snapshot decodes to, and when it does. */
  ghost predicate CutSnapshotReads(c: Codec, h: Header, docs: seq<Doc>, cut: nat)
    requires cut <= |Encode(c, h, docs)|
  {
    match Decode(c, Encode(c, h, docs)[..cut])
    case Ok((h', docs')) => h' == h && docs' <= docs && cut == |Encode(c, h, docs')|
    case Err(_) => forall k: nat :: k <= |docs| ==> cut != |Encode(c, h, docs[..k])|
  }

  lemma CutInDocs(c: Codec, h: Header, docs: seq<Doc>, cut: nat)
    requires Lawful(c) && |c.head(h)| < U32_LIMIT && Fits(c, docs) && cut <= |EncodeDocs(c, docs)|
    ensures CutSnapshotReads(c, h, docs, |MAGIC| + |Lead(c, h)| + cut)
  {
    CutPastLead(c, h, EncodeDocs(c, docs), cut);
    DocsTruncated(c, docs, cut);
    var (whole, partial) := DocsBefore(c, docs, cut);
    if partial == 0 {
      assert docs[..whole] <= docs;
    } else {
      forall k: nat | k <= |docs| ensures |MAGIC| + |Lead(c, h)| + cut != |Encode(c, h, docs[..k])| {
        CutIsBetween(c, docs, cut, k);
      }
    }
  }

  lemma CutInLeadReads(c: Codec, h: Header, docs: seq<Doc>, cut: nat)
    requires |c.head(h)| < U32_LIMIT && cut < |MAGIC| + |Lead(c, h)|
    ensures cut <= |Encode(c, h, docs)| && CutSnapshotReads(c, h, docs, cut)
  {
    CutInLead(c, h, EncodeDocs(c, docs), cut);
    forall k: nat | k <= |docs| ensures cut != |Encode(c, h, docs[..k])| {
      LeadIsWithin(c, h, docs[..k]);
    }
  }

  lemma LeadIsWithin(c: Codec, h: Header, docs: seq<Doc>)
    ensures |Encode(c, h, docs)| == |MAGIC| + |Lead(c, h)| + |EncodeDocs(c, docs)|
  {
  }

  /** A cut snapshot is read exactly when it was cut between two documents, and
      then as the documents before the cut: never with an altered document. */
  lemma CutSnapshotIff(c: Codec, h: Header, docs: seq<Doc>, cut: nat)
    requires Lawful(c) && |c.head(h)| < U32_LIMIT && Fits(c, docs) && cut <= |Encode(c, h, docs)|
    ensures CutSnapshotReads(c, h, docs, cut)
  {
    if cut < |MAGIC| + |Lead(c, h)| {
      CutInLeadReads(c, h, docs, cut);
    } else {
      CutInDocs(c, h, docs, cut - |MAGIC| - |Lead(c, h)|);
    }
  }

  // ------------------------------------------------------------------- the loops

  lemma EncodeStep(c: Codec, docs: seq<Doc>, i: nat, out: seq<byte>)
    requires i < |docs|
    ensures out + EncodeDocs(c, docs[i..])
         == out + Framed(c.text(docs[i].id)) + Framed(docs[i].data) + EncodeDocs(c, docs[i + 1..])
  {
    assert docs[i..][1..] == docs[i + 1..];
    Regroup(out, Framed(c.text(docs[i].id)), Framed(docs[i].data), EncodeDocs(c, docs[i + 1..]));
  }

  lemma Regroup(a: seq<byte>, b: seq<byte>, c: seq<byte>, d: seq<byte>)
    ensures a + ((b + c) + d) == a + b + c + d
  {
  }

  method WriteFramed(out: seq<byte>, part: seq<byte>) returns (now: seq<byte>)
    ensures now == out + Framed(part)
  {
    now := out + U32Bytes(|part|);
    now := now + part;
  }

  method EncodeSnapshot(c: Codec, header: Header, docs: seq<Doc>) returns (out: seq<byte>)
    ensures out == Encode(c, header, docs)
  {
    out := WriteFramed(MAGIC, c.head(header));
    ghost var lead := out;
    assert docs[0..] == docs;
    for i := 0 to |docs|
      invariant out + EncodeDocs(c, docs[i..]) == lead + EncodeDocs(c, docs)
    {
      EncodeStep(c, docs, i, out);
      out := WriteFramed(out, c.text(docs[i].id));
      out := WriteFramed(out, docs[i].data);
    }
    assert out + [] == out && docs[|docs|..] == [];
    assert lead + EncodeDocs(c, docs) == MAGIC + (Lead(c, header) + EncodeDocs(c, docs));
  }

  lemma PrependNothing(r: Result<seq<Doc>, DecodeError>)
    ensures Prepend([], r) == r
  {
    if r.Ok? {
      assert [] + r.value == r.value;
    }
  }

  lemma PrependTwice(a: seq<Doc>, b: seq<Doc>, r: Result<seq<Doc>, DecodeError>)
    ensures Prepend(a, Prepend(b, r)) == Prepend(a + b, r)
  {
    if r.Ok? {
      assert a + (b + r.value) == a + b + r.value;
    }
  }

  method DecodeSnapshot(c: Codec, bytes: seq<byte>) returns (r: Result<(Header, seq<Doc>), DecodeError>)
    ensures r == Decode(c, bytes)
  {
    if !(MAGIC <= bytes) {
      return Err(NotABackup);
    }
    var taken := Take(bytes[|MAGIC|..]);
    if taken.None? {
      return Err(Incomplete);
    }
    var (head, rest) := taken.value;
    var header := c.readHead(head);
    if header.None? {
      return Err(BadHeader);
    }
    ghost var body := rest;
    var docs := [];
    PrependNothing(DecodeDocs(c, rest));
    while rest != []
      invariant DecodeDocs(c, body) == Prepend(docs, DecodeDocs(c, rest))
      decreases |rest|
    {
      var name := Take(rest);
      if name.None? {
        return Err(Incomplete);
      }
      var id := c.readText(name.value.0);
      if id.None? {
        return Err(BadId);
      }
      var data := Take(name.value.1);
      if data.None? {
        return Err(Incomplete);
      }
      PrependTwice(docs, [Doc(id.value, data.value.0)], DecodeDocs(c, data.value.1));
      rest := data.value.1;
      docs := docs + [Doc(id.value, data.value.0)];
    }
    assert docs + [] == docs;
    r := Ok((header.value, docs));
  }

  // ------------------------------------------------------- every blob, read or refused

  /** A part behind its length in four bytes, lowest first. */
  function Behind(part: seq<byte>): seq<byte> {
    var n := |part|;
    [n % 256, n / 256 % 256, n / 65536 % 256, n / 16777216 % 256] + part
  }

  /** A blob of this header and these documents: the magic, the header in any of its
      encodings, and each document's id and data. */
  ghost predicate IsBlob(c: Codec, bytes: seq<byte>, h: Header, docs: seq<Doc>) {
    exists head: seq<byte> :: |head| < U32_LIMIT && c.readHead(head) == Some(h) && Fits(c, docs)
      && bytes == [90, 84, 66, 75, 49, 10] + Behind(head) + Parts(c, docs)
  }

  function Parts(c: Codec, docs: seq<Doc>): seq<byte> {
    if docs == [] then [] else Behind(c.text(docs[0].id)) + Behind(docs[0].data) + Parts(c, docs[1..])
  }

  lemma {:induction false} PartsAreEncoded(c: Codec, docs: seq<Doc>)
    ensures Parts(c, docs) == EncodeDocs(c, docs)
  {
    if docs != [] { PartsAreEncoded(c, docs[1..]); }
  }

  /** What was taken is what its length said. */
  lemma TakenIsFramed(rest: seq<byte>)
    requires Take(rest).Some?
    ensures var (part, more) := Take(rest).value;
            |part| < U32_LIMIT && rest == Framed(part) + more
  {
    var (part, more) := Take(rest).value;
    var n := U32At(rest, 0);
    BytesOfLength(n, rest[0], rest[1], rest[2], rest[3]);
    assert rest[..4] == [rest[0], rest[1], rest[2], rest[3]] == U32Bytes(n);
    assert rest == rest[..4] + rest[4..4 + n] + rest[4 + n..];
  }

  lemma LowByte(n: nat, a: byte, m: nat)
    requires n == a as int + 256 * m
    ensures n % 256 == a as int && n / 256 == m
  {
  }

  lemma BytesOfLength(n: nat, a: byte, b: byte, d: byte, e: byte)
    requires n == a as int + 256 * (b as int) + 65536 * (d as int) + 16777216 * (e as int)
    ensures U32Bytes(n) == [a, b, d, e]
  {
    var m2 := d as int + 256 * (e as int);
    var m1 := b as int + 256 * m2;
    LowByte(n, a, m1);
    LowByte(m1, b, m2);
    LowByte(m2, d, e);
    assert n / 65536 == n / 256 / 256 && n / 16777216 == n / 65536 / 256;
  }

  lemma {:induction false} DecodedDocsAreEncoded(c: Codec, rest: seq<byte>)
    requires Lawful(c) && DecodeDocs(c, rest).Ok?
    ensures rest == EncodeDocs(c, DecodeDocs(c, rest).value) && Fits(c, DecodeDocs(c, rest).value)
    decreases |rest|
  {
    if rest != [] {
      var (name, rest1) := Take(rest).value;
      TakenIsFramed(rest);
      var (data, rest2) := Take(rest1).value;
      TakenIsFramed(rest1);
      var id := c.readText(name).value;
      DecodedDocsAreEncoded(c, rest2);
      var docs, more := DecodeDocs(c, rest).value, DecodeDocs(c, rest2).value;
      assert docs == [Doc(id, data)] + more && docs[1..] == more;
      assert c.text(id) == name;
      EncodedCons(c, Doc(id, data), more, docs, rest2);
      assert rest == Framed(name) + (Framed(data) + rest2);
    }
  }

  lemma EncodedCons(c: Codec, doc: Doc, more: seq<Doc>, docs: seq<Doc>, rest: seq<byte>)
    requires docs == [doc] + more && rest == EncodeDocs(c, more) && FitsDoc(c, doc) && Fits(c, more)
    ensures EncodeDocs(c, docs) == Framed(c.text(doc.id)) + (Framed(doc.data) + rest) && Fits(c, docs)
  {
    assert docs[1..] == more;
  }

  lemma DecodedIsBlob(c: Codec, bytes: seq<byte>, h: Header, docs: seq<Doc>)
    requires Lawful(c) && Decode(c, bytes) == Ok((h, docs))
    ensures IsBlob(c, bytes, h, docs)
  {
    var rest := bytes[|MAGIC|..];
    var (head, docBytes) := Take(rest).value;
    TakenIsFramed(rest);
    DecodedDocsAreEncoded(c, docBytes);
    PartsAreEncoded(c, docs);
    BlobParts(bytes, rest, head, docBytes);
  }

  lemma BlobParts(bytes: seq<byte>, rest: seq<byte>, head: seq<byte>, docs: seq<byte>)
    requires MAGIC <= bytes && rest == bytes[|MAGIC|..] && rest == Framed(head) + docs
    ensures bytes == [90, 84, 66, 75, 49, 10] + Behind(head) + docs
  {
    assert bytes == MAGIC + rest;
  }

  lemma BlobIsDecoded(c: Codec, bytes: seq<byte>, h: Header, docs: seq<Doc>, head: seq<byte>)
    requires Lawful(c) && |head| < U32_LIMIT && c.readHead(head) == Some(h) && Fits(c, docs)
    requires bytes == [90, 84, 66, 75, 49, 10] + Behind(head) + EncodeDocs(c, docs)
    ensures Decode(c, bytes) == Ok((h, docs))
  {
    AfterMagic(bytes, Framed(head) + EncodeDocs(c, docs));
    TakePart(head, EncodeDocs(c, docs));
    DocsRoundTripIff(c, docs);
  }

  lemma AfterMagic(bytes: seq<byte>, rest: seq<byte>)
    requires bytes == [90, 84, 66, 75, 49, 10] + rest
    ensures MAGIC <= bytes && bytes[|MAGIC|..] == rest
  {
  }

  /** A blob is read as a header and documents exactly when it is their encoding. */
  lemma DecodeIffBlob(c: Codec, bytes: seq<byte>, h: Header, docs: seq<Doc>)
    requires Lawful(c)
    ensures Decode(c, bytes) == Ok((h, docs)) <==> IsBlob(c, bytes, h, docs)
  {
    if Decode(c, bytes) == Ok((h, docs)) {
      DecodedIsBlob(c, bytes, h, docs);
    }
    if IsBlob(c, bytes, h, docs) {
      var head: seq<byte> :| |head| < U32_LIMIT && c.readHead(head) == Some(h) && Fits(c, docs)
        && bytes == [90, 84, 66, 75, 49, 10] + Behind(head) + Parts(c, docs);
      PartsAreEncoded(c, docs);
      BlobIsDecoded(c, bytes, h, docs, head);
    }
  }

  /** Why other blobs are refused: first the magic is looked at, then the header. */
  lemma RefusedBlobs(c: Codec, bytes: seq<byte>)
    requires Lawful(c)
    ensures Decode(c, bytes) == Err(NotABackup) <==> |bytes| < 6 || bytes[..6] != [90, 84, 66, 75, 49, 10]
    ensures forall head: seq<byte>, rest {:trigger Behind(head) + rest} ::
              |head| < U32_LIMIT && bytes == [90, 84, 66, 75, 49, 10] + (Behind(head) + rest) ==>
                (Decode(c, bytes) == Err(BadHeader) <==> c.readHead(head).None?)
  {
    if |bytes| >= 6 { assert MAGIC <= bytes <==> bytes[..6] == MAGIC; }
    NeverOtherError(c, bytes);
    forall head: seq<byte>, rest | |head| < U32_LIMIT && bytes == [90, 84, 66, 75, 49, 10] + (Behind(head) + rest)
      ensures Decode(c, bytes) == Err(BadHeader) <==> c.readHead(head).None?
    {
      assert bytes == MAGIC + (Framed(head) + rest) && bytes[|MAGIC|..] == Framed(head) + rest;
      TakePart(head, rest);
    }
  }

  lemma {:induction false} DocErrors(c: Codec, rest: seq<byte>)
    ensures DecodeDocs(c, rest).Err? ==> DecodeDocs(c, rest).error == Incomplete || DecodeDocs(c, rest).error == BadId
    decreases |rest|
  {
    if rest != [] && Take(rest).Some? {
      var rest1 := Take(rest).value.1;
      if Take(rest1).Some? { DocErrors(c, Take(rest1).value.1); }
    }
  }

  lemma NeverOtherError(c: Codec, bytes: seq<byte>)
    ensures Decode(c, bytes) == Err(NotABackup) <==> !(MAGIC <= bytes)
    ensures forall head, rest :: MAGIC <= bytes && Take(bytes[|MAGIC|..]) == Some((head, rest)) ==>
              (Decode(c, bytes) == Err(BadHeader) <==> c.readHead(head).None?)
  {
    if MAGIC <= bytes && Take(bytes[|MAGIC|..]).Some? {
      DocErrors(c, Take(bytes[|MAGIC|..]).value.1);
    }
  }
}
