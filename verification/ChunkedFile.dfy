/**
 A file of encrypted chunks, each behind its length, and what reading it gives:
 whole, cut short, or damaged.
 */
module ChunkedFile {
  import opened Wrappers
  import opened LittleEndian

  const CHUNK_SIZE := 64 * 1024
  /** Nonce and tag of one sealed chunk. */
  const SEAL_OVERHEAD := 28

  /** Authenticated encryption under one key: a chunk sealed with a nonce, and
      what opening gives, if anything. */
  datatype Cipher = Cipher(seal: (nat, seq<byte>) -> seq<byte>, open: seq<byte> -> Option<seq<byte>>)

  ghost predicate Lawful(c: Cipher) {
    forall nonce: nat, plain: seq<byte> {:trigger c.seal(nonce, plain)} ::
      c.open(c.seal(nonce, plain)) == Some(plain) && |c.seal(nonce, plain)| == |plain| + 28
  }

  function Frame(chunk: seq<byte>): seq<byte> { U32Bytes(|chunk|) + chunk }

  // ------------------------------------------------------------------- writing

  function FirstChunk(data: seq<byte>): seq<byte> { if |data| <= CHUNK_SIZE then data else data[..CHUNK_SIZE] }

  function AfterFirst(data: seq<byte>): seq<byte> { if |data| <= CHUNK_SIZE then [] else data[CHUNK_SIZE..] }

  function Chunks(data: seq<byte>): seq<seq<byte>>
    decreases |data|
  {
    if data == [] then [] else [FirstChunk(data)] + Chunks(AfterFirst(data))
  }

  /** The file of a plaintext, the i-th chunk sealed with the i-th nonce. */
  function Encrypted(c: Cipher, nonces: nat -> nat, from: nat, data: seq<byte>): seq<byte>
    decreases |data|
  {
    if data == [] then []
    else Frame(c.seal(nonces(from), FirstChunk(data))) + Encrypted(c, nonces, from + 1, AfterFirst(data))
  }

  function Flat(chunks: seq<seq<byte>>): seq<byte> {
    if chunks == [] then [] else chunks[0] + Flat(chunks[1..])
  }

  lemma {:induction false} ChunksAreTheData(data: seq<byte>)
    ensures Flat(Chunks(data)) == data
    ensures forall i :: 0 <= i < |Chunks(data)| ==> 1 <= |Chunks(data)[i]| <= CHUNK_SIZE
    decreases |data|
  {
    if data != [] {
      ChunksAreTheData(AfterFirst(data));
      assert data == FirstChunk(data) + AfterFirst(data);
      assert Chunks(data)[1..] == Chunks(AfterFirst(data));
    }
  }

  // ------------------------------------------------------------------- reading

  /** The chunks that open one after another, and whether reading fails there:
      a missing or partial length is the end of the file, a partial or damaged
      chunk is a failure. */
  datatype Parsed = Parsed(chunks: seq<seq<byte>>, failed: bool)

  function Parse(c: Cipher, rest: seq<byte>): Parsed
    decreases |rest|
  {
    if |rest| < 4 then Parsed([], false)
    else
      var length := U32At(rest, 0);
      if 4 + length > |rest| then Parsed([], true)
      else
        match c.open(rest[4..4 + length])
        case None => Parsed([], true)
        case Some(plain) =>
          var more := Parse(c, rest[4 + length..]);
          Parsed([plain] + more.chunks, more.failed)
  }

  lemma ParseFrame(c: Cipher, chunk: seq<byte>, rest: seq<byte>, plain: seq<byte>)
    requires |chunk| < U32_LIMIT && c.open(chunk) == Some(plain)
    ensures var more := Parse(c, rest);
            Parse(c, Frame(chunk) + rest) == Parsed([plain] + more.chunks, more.failed)
  {
    var all := Frame(chunk) + rest;
    assert all == [] + U32Bytes(|chunk|) + (chunk + rest);
    U32Framed([], |chunk|, chunk + rest);
    assert all[4..4 + |chunk|] == chunk;
    assert all[4 + |chunk|..] == rest;
  }

  /** Reading what was written gives the chunks that were written, and no failure. */
  lemma {:induction false} ParseEncrypted(c: Cipher, nonces: nat -> nat, from: nat, data: seq<byte>)
    requires Lawful(c)
    ensures Parse(c, Encrypted(c, nonces, from, data)) == Parsed(Chunks(data), false)
    decreases |data|
  {
    if data != [] {
      var sealed := c.seal(nonces(from), FirstChunk(data));
      ParseEncrypted(c, nonces, from + 1, AfterFirst(data));
      ParseFrame(c, sealed, Encrypted(c, nonces, from + 1, AfterFirst(data)), FirstChunk(data));
    }
  }

  /** How many whole chunks a file cut at `cut` still holds, and how much of the
      next one's frame. */
  function Kept(data: seq<byte>, cut: nat): (nat, nat)
    decreases |data|
  {
    if data == [] then (0, 0)
    else
      var size := 4 + |FirstChunk(data)| + SEAL_OVERHEAD;
      if cut < size then (0, cut)
      else
        var (whole, partial) := Kept(AfterFirst(data), cut - size);
        (whole + 1, partial)
  }

  lemma ParseCutFrame(c: Cipher, chunk: seq<byte>, rest: seq<byte>, cut: nat)
    requires |chunk| < U32_LIMIT && cut < |Frame(chunk)|
    ensures Parse(c, (Frame(chunk) + rest)[..cut]) == Parsed([], cut >= 4)
  {
    var part := (Frame(chunk) + rest)[..cut];
    if cut >= 4 {
      U32RoundTripIff(|chunk|);
      assert part[0] == U32Bytes(|chunk|)[0] && part[1] == U32Bytes(|chunk|)[1];
      assert part[2] == U32Bytes(|chunk|)[2] && part[3] == U32Bytes(|chunk|)[3];
      assert U32At(part, 0) == |chunk|;
    }
  }

  lemma ParsePastFrame(c: Cipher, chunk: seq<byte>, rest: seq<byte>, plain: seq<byte>, cut: nat)
    requires |chunk| < U32_LIMIT && c.open(chunk) == Some(plain)
    requires |Frame(chunk)| <= cut <= |Frame(chunk) + rest|
    ensures var more := Parse(c, rest[..cut - |Frame(chunk)|]);
            Parse(c, (Frame(chunk) + rest)[..cut]) == Parsed([plain] + more.chunks, more.failed)
  {
    assert (Frame(chunk) + rest)[..cut] == Frame(chunk) + rest[..cut - |Frame(chunk)|];
    ParseFrame(c, chunk, rest[..cut - |Frame(chunk)|], plain);
  }

  /** What a cut file still says. */
  function CutParse(data: seq<byte>, cut: nat): (p: Parsed)
    ensures p.chunks <= Chunks(data)
    decreases |data|
  {
    if data == [] then Parsed([], false)
    else
      var size := 4 + |FirstChunk(data)| + SEAL_OVERHEAD;
      if cut < size then Parsed([], cut >= 4)
      else
        var more := CutParse(AfterFirst(data), cut - size);
        Parsed([FirstChunk(data)] + more.chunks, more.failed)
  }

  lemma {:induction false} CutParseIsKept(data: seq<byte>, cut: nat)
    ensures var (whole, partial) := Kept(data, cut);
            whole <= |Chunks(data)| && CutParse(data, cut) == Parsed(Chunks(data)[..whole], partial >= 4)
    decreases |data|
  {
    if data != [] {
      var size := 4 + |FirstChunk(data)| + SEAL_OVERHEAD;
      if cut >= size {
        CutParseIsKept(AfterFirst(data), cut - size);
        var (whole, partial) := Kept(AfterFirst(data), cut - size);
        assert Chunks(data)[..whole + 1] == [FirstChunk(data)] + Chunks(AfterFirst(data))[..whole];
      }
    }
  }

  lemma {:induction false} ParseCut(c: Cipher, nonces: nat -> nat, from: nat, data: seq<byte>, cut: nat)
    requires Lawful(c) && cut <= |Encrypted(c, nonces, from, data)|
    ensures Parse(c, Encrypted(c, nonces, from, data)[..cut]) == CutParse(data, cut)
    decreases |data|
  {
    if data == [] {
      assert Encrypted(c, nonces, from, data)[..cut] == [];
    } else {
      var first := FirstChunk(data);
      var sealed := c.seal(nonces(from), first);
      var rest := Encrypted(c, nonces, from + 1, AfterFirst(data));
      if cut < |Frame(sealed)| {
        ParseCutFrame(c, sealed, rest, cut);
      } else {
        ParsePastFrame(c, sealed, rest, first, cut);
        ParseCut(c, nonces, from + 1, AfterFirst(data), cut - |Frame(sealed)|);
      }
    }
  }

  /** A file cut anywhere reads as a prefix of its chunks; then it fails, unless
      fewer than four bytes of the next length are left, which pass for its end. */
  lemma ParseTruncated(c: Cipher, nonces: nat -> nat, from: nat, data: seq<byte>, cut: nat)
    requires Lawful(c) && cut <= |Encrypted(c, nonces, from, data)|
    ensures var (whole, partial) := Kept(data, cut);
            && whole <= |Chunks(data)|
            && Parse(c, Encrypted(c, nonces, from, data)[..cut]) == Parsed(Chunks(data)[..whole], partial >= 4)
  {
    ParseCut(c, nonces, from, data, cut);
    CutParseIsKept(data, cut);
  }

  // -------------------------------------------------------- the reader's states

  datatype Reader = Reader(file: seq<byte>, offset: nat, buffer: seq<byte>, at: nat)

  predicate InRange(r: Reader) { r.offset <= |r.file| && r.at <= |r.buffer| }

  /** The next chunk into the buffer: `Ok(false)` at the end of the file. */
  function Fill(c: Cipher, r: Reader): (Reader, Result<bool, ()>)
    requires InRange(r)
  {
    if r.offset + 4 > |r.file| then (r, Ok(false))
    else
      var length := U32At(r.file, r.offset);
      var start := r.offset + 4;
      if start + length > |r.file| then (r.(offset := start), Err(()))
      else
        match c.open(r.file[start..start + length])
        case None => (r.(offset := start + length), Err(()))
        case Some(plain) => (Reader(r.file, start + length, plain, 0), Ok(true))
  }

  /** One read of up to `n` bytes. */
  function ReadOnce(c: Cipher, r: Reader, n: nat): (result: (Reader, Result<seq<byte>, ()>))
    requires InRange(r)
    ensures InRange(result.0)
  {
    if r.at >= |r.buffer| then
      var (r', filled) := Fill(c, r);
      match filled
      case Err(_) => (r', Err(()))
      case Ok(more) => if more then Copy(r', n) else (r', Ok([]))
    else Copy(r, n)
  }

  function Copy(r: Reader, n: nat): (Reader, Result<seq<byte>, ()>)
    requires InRange(r)
  {
    var count := if |r.buffer| - r.at <= n then |r.buffer| - r.at else n;
    (r.(at := r.at + count), Ok(r.buffer[r.at..r.at + count]))
  }

  function Start(file: seq<byte>): Reader { Reader(file, 0, [], 0) }

  /** What a reader has still to give: the bytes of its buffer and of every chunk
      that opens, and then whether it fails. */
  function Left(c: Cipher, r: Reader): (seq<byte>, bool)
    requires InRange(r)
  {
    var parsed := Parse(c, r.file[r.offset..]);
    (r.buffer[r.at..] + Flat(parsed.chunks), parsed.failed)
  }

  ghost predicate NoneEmpty(chunks: seq<seq<byte>>) {
    forall i :: 0 <= i < |chunks| ==> chunks[i] != []
  }

  /** No chunk ahead opens to nothing. */
  ghost predicate NoEmptyChunk(c: Cipher, r: Reader)
    requires InRange(r)
  {
    NoneEmpty(Parse(c, r.file[r.offset..]).chunks)
  }

  lemma NoneEmptyTail(first: seq<byte>, more: seq<seq<byte>>)
    requires NoneEmpty([first] + more)
    ensures first != [] && NoneEmpty(more)
  {
    assert ([first] + more)[0] == first;
    assert forall i :: 0 <= i < |more| ==> ([first] + more)[i + 1] == more[i];
  }

  lemma FlatCons(first: seq<byte>, more: seq<seq<byte>>)
    ensures Flat([first] + more) == first + Flat(more)
  {
    assert ([first] + more)[1..] == more;
  }

  /** Filling the buffer takes the next chunk that a parse of the rest finds. */
  /** The frame at the reader's offset is the first one of the rest. */
  lemma FrameAtOffset(r: Reader)
    requires InRange(r) && r.offset + 4 <= |r.file|
    ensures var length, rest := U32At(r.file, r.offset), r.file[r.offset..];
            && U32At(rest, 0) == length
            && (r.offset + 4 + length <= |r.file| ==>
                  && rest[4..4 + length] == r.file[r.offset + 4..r.offset + 4 + length]
                  && rest[4 + length..] == r.file[r.offset + 4 + length..])
  {
  }

  lemma FillParses(c: Cipher, r: Reader)
    requires InRange(r)
    ensures var (r', filled) := Fill(c, r);
            var parsed := Parse(c, r.file[r.offset..]);
            && InRange(r') && r'.file == r.file
            && (match filled
                case Err(_) => parsed == Parsed([], true)
                case Ok(false) => r' == r && parsed == Parsed([], false)
                case Ok(true) =>
                  var more := Parse(c, r'.file[r'.offset..]);
                  r'.at == 0 && parsed == Parsed([r'.buffer] + more.chunks, more.failed))
  {
    var rest := r.file[r.offset..];
    if r.offset + 4 > |r.file| {
      assert Parse(c, rest) == Parsed([], false);
    } else {
      var length := U32At(r.file, r.offset);
      FrameAtOffset(r);
      if r.offset + 4 + length > |r.file| {
        assert Parse(c, rest) == Parsed([], true);
      } else {
        match c.open(r.file[r.offset + 4..r.offset + 4 + length])
        case None => assert Parse(c, rest) == Parsed([], true);
        case Some(plain) =>
          var more := Parse(c, r.file[r.offset + 4 + length..]);
          assert Parse(c, rest) == Parsed([plain] + more.chunks, more.failed);
      }
    }
  }

  lemma FillKeepsLeft(c: Cipher, r: Reader)
    requires InRange(r) && r.at == |r.buffer| && NoEmptyChunk(c, r) && Fill(c, r).1 == Ok(true)
    ensures var r' := Fill(c, r).0;
            InRange(r') && r'.at < |r'.buffer| && Left(c, r') == Left(c, r) && NoEmptyChunk(c, r')
  {
    FillParses(c, r);
    var r' := Fill(c, r).0;
    var more := Parse(c, r'.file[r'.offset..]).chunks;
    NoneEmptyTail(r'.buffer, more);
    FlatCons(r'.buffer, more);
    assert r'.buffer[0..] == r'.buffer && r.buffer[r.at..] == [];
    assert [] + Flat([r'.buffer] + more) == Flat([r'.buffer] + more);
  }

  /** What is left of a reader whose buffer is used up. */
  lemma LeftIs(c: Cipher, r: Reader)
    requires InRange(r) && r.at == |r.buffer|
    ensures var parsed := Parse(c, r.file[r.offset..]);
            Left(c, r) == (Flat(parsed.chunks), parsed.failed)
  {
    assert r.buffer[r.at..] == [];
    assert [] + Flat(Parse(c, r.file[r.offset..]).chunks) == Flat(Parse(c, r.file[r.offset..]).chunks);
  }

  lemma FillIs(c: Cipher, r: Reader)
    requires InRange(r) && r.at == |r.buffer| && NoEmptyChunk(c, r)
    ensures var (r', filled) := Fill(c, r);
            && InRange(r')
            && (filled == Ok(false) <==> Left(c, r) == ([], false))
            && (filled == Err(()) <==> Left(c, r) == ([], true))
            && (filled == Ok(false) ==> r' == r)
  {
    FillParses(c, r);
    LeftIs(c, r);
    assert Flat([]) == [];
    match Fill(c, r).1
    case Ok(true) =>
      FillKeepsLeft(c, r);
      assert Left(c, r).0 != [] by { SomethingLeft(c, Fill(c, r).0); }
    case Ok(false) => assert Left(c, r) == ([], false);
    case Err(()) => assert Left(c, r) == ([], true);
  }

  lemma SomethingLeft(c: Cipher, r: Reader)
    requires InRange(r) && r.at < |r.buffer|
    ensures Left(c, r).0 != []
  {
  }

  lemma CopyTakesPrefix(c: Cipher, r: Reader, n: nat)
    requires InRange(r) && NoEmptyChunk(c, r) && n >= 1 && r.at < |r.buffer|
    ensures var (r', result) := Copy(r, n);
            && result.Ok? && InRange(r') && NoEmptyChunk(c, r')
            && 1 <= |result.value| <= n
            && result.value + Left(c, r').0 == Left(c, r).0 && Left(c, r').1 == Left(c, r).1
  {
    var (r', result) := Copy(r, n);
    var flat := Flat(Parse(c, r.file[r.offset..]).chunks);
    assert r.buffer[r.at..] == result.value + r'.buffer[r'.at..];
    assert result.value + (r'.buffer[r'.at..] + flat) == r.buffer[r.at..] + flat;
  }

  /** A read into a non-empty buffer gives a non-empty prefix of what is left,
      until nothing is left; from then on the end of the file, or the failure. */
  lemma ReadTakesPrefix(c: Cipher, r: Reader, n: nat)
    requires InRange(r) && NoEmptyChunk(c, r) && n >= 1
    ensures var (r', result) := ReadOnce(c, r, n);
            var (bytes, failed) := Left(c, r);
            && (result.Err? <==> bytes == [] && failed)
            && (result.Ok? ==>
                  && |result.value| <= n && (result.value == [] <==> bytes == [])
                  && NoEmptyChunk(c, r')
                  && result.value + Left(c, r').0 == bytes && Left(c, r').1 == failed)
  {
    if r.at < |r.buffer| {
      CopyTakesPrefix(c, r, n);
    } else {
      FillIs(c, r);
      var (r', filled) := Fill(c, r);
      if filled == Ok(true) {
        FillKeepsLeft(c, r);
        CopyTakesPrefix(c, r', n);
      }
    }
  }

  /** The results of successive reads into buffers of the given sizes, up to and
      including the first failure. */
  function Reads(c: Cipher, r: Reader, sizes: seq<nat>): seq<Result<seq<byte>, ()>>
    requires InRange(r)
    decreases |sizes|
  {
    if sizes == [] then []
    else
      var (r', result) := ReadOnce(c, r, sizes[0]);
      [result] + (if result.Err? then [] else Reads(c, r', sizes[1..]))
  }

  function Bytes(results: seq<Result<seq<byte>, ()>>): seq<byte> {
    if results == [] then []
    else (match results[0] case Ok(bytes) => bytes case Err(_) => []) + Bytes(results[1..])
  }

  /** What `n` reads give of `bytes` that are left: a prefix, all of it once there
      were enough of them, and then the end of the file or one failure. */
  ghost predicate Delivered(results: seq<Result<seq<byte>, ()>>, n: nat, bytes: seq<byte>, failed: bool) {
    && Bytes(results) <= bytes
    && (n > |bytes| || (n == |bytes| && !failed) ==> Bytes(results) == bytes)
    && (n > |bytes| ==> (failed <==> results != [] && results[|results| - 1].Err?))
    && (forall i :: 0 <= i < |results| - 1 ==> results[i].Ok?)
    && (!failed ==> |results| == n && forall i :: 0 <= i < |results| ==> results[i].Ok?)
  }

  lemma DeliveredCons(first: seq<byte>, later: seq<Result<seq<byte>, ()>>, n: nat, bytes: seq<byte>, failed: bool)
    requires Delivered(later, n, bytes, failed) && (first == [] ==> bytes == [] && !failed)
    ensures Delivered([Ok(first)] + later, n + 1, first + bytes, failed)
  {
    var results := [Ok(first)] + later;
    assert results[1..] == later;
    assert Bytes(results) == first + Bytes(later);
    assert forall i :: 0 < i < |results| ==> results[i] == later[i - 1];
  }

  lemma DeliveredFailure(n: nat)
    requires n >= 1
    ensures Delivered([Err(())], n, [], true)
  {
    var results: seq<Result<seq<byte>, ()>> := [Err(())];
    assert results[1..] == [];
    assert Bytes(results) == [];
  }

  /** Reads deliver what is left in order: as long as anything is missing every
      read gives some of it, and afterwards every read gives the end of the file,
      or the first one fails. */
  lemma {:induction false} ReadsDeliver(c: Cipher, r: Reader, sizes: seq<nat>)
    requires InRange(r) && NoEmptyChunk(c, r)
    requires forall i :: 0 <= i < |sizes| ==> sizes[i] >= 1
    ensures Delivered(Reads(c, r, sizes), |sizes|, Left(c, r).0, Left(c, r).1)
    decreases |sizes|
  {
    if sizes != [] {
      ReadTakesPrefix(c, r, sizes[0]);
      var (r', result) := ReadOnce(c, r, sizes[0]);
      if result.Ok? {
        ReadsDeliver(c, r', sizes[1..]);
        DeliveredCons(result.value, Reads(c, r', sizes[1..]), |sizes| - 1, Left(c, r').0, Left(c, r').1);
      } else {
        DeliveredFailure(|sizes|);
      }
    }
  }

  /** For every plaintext, however it is read, the bytes come back in order, all
      of them after enough reads, and then the end of the file forever. */
  lemma DecryptingGivesPlaintext(c: Cipher, nonces: nat -> nat, data: seq<byte>, sizes: seq<nat>)
    requires Lawful(c)
    requires forall i :: 0 <= i < |sizes| ==> sizes[i] >= 1
    ensures var results := Reads(c, Start(Encrypted(c, nonces, 0, data)), sizes);
            && |results| == |sizes| && (forall i :: 0 <= i < |results| ==> results[i].Ok?)
            && Bytes(results) <= data
            && (|sizes| >= |data| ==> Bytes(results) == data)
  {
    var file := Encrypted(c, nonces, 0, data);
    var r := Start(file);
    assert file[0..] == file;
    ParseEncrypted(c, nonces, 0, data);
    ChunksAreTheData(data);
    assert [] + data == data;
    ReadsDeliver(c, r, sizes);
  }

  /** Cut anywhere, the file still gives only whole chunks from its start, and
      then a failure, or the end of the file if under four bytes of a length are
      left over. */
  lemma TruncationGivesWholeChunks(c: Cipher, nonces: nat -> nat, data: seq<byte>, cut: nat, sizes: seq<nat>)
    requires Lawful(c) && cut <= |Encrypted(c, nonces, 0, data)|
    requires forall i :: 0 <= i < |sizes| ==> sizes[i] >= 1
    requires |sizes| > |data|
    ensures var results := Reads(c, Start(Encrypted(c, nonces, 0, data)[..cut]), sizes);
            var (whole, partial) := Kept(data, cut);
            && whole <= |Chunks(data)|
            && Bytes(results) == Flat(Chunks(data)[..whole])
            && (results != [] && results[|results| - 1].Err? <==> partial >= 4)
  {
    var file := Encrypted(c, nonces, 0, data)[..cut];
    var r := Start(file);
    assert file[0..] == file;
    ParseTruncated(c, nonces, 0, data, cut);
    ChunksAreTheData(data);
    var (whole, partial) := Kept(data, cut);
    FlatPrefix(Chunks(data), whole);
    assert [] + Flat(Chunks(data)[..whole]) == Flat(Chunks(data)[..whole]);
    ReadsDeliver(c, r, sizes);
  }

  lemma {:induction false} FlatPrefix(chunks: seq<seq<byte>>, n: nat)
    requires n <= |chunks|
    ensures |Flat(chunks[..n])| <= |Flat(chunks)|
  {
    if n > 0 {
      FlatPrefix(chunks[1..], n - 1);
      assert chunks[..n][1..] == chunks[1..][..n - 1];
    }
  }

  /** A failure is not final: a reader that is asked again after a damaged chunk
      goes on with the one after it, as if nothing had been there. */
  lemma DamageIsSkipped(c: Cipher, damaged: seq<byte>, nonce: nat, plain: seq<byte>)
    requires Lawful(c) && c.open(damaged).None? && |damaged| < U32_LIMIT
    requires 1 <= |plain| <= CHUNK_SIZE
    ensures var r := Start(Frame(damaged) + Frame(c.seal(nonce, plain)));
            var (r1, first) := ReadOnce(c, r, CHUNK_SIZE);
            first.Err? && ReadOnce(c, r1, CHUNK_SIZE).1 == Ok(plain)
  {
    var sealed := c.seal(nonce, plain);
    var file := Frame(damaged) + Frame(sealed);
    assert file == [] + U32Bytes(|damaged|) + (damaged + Frame(sealed));
    U32Framed([], |damaged|, damaged + Frame(sealed));
    var next := |Frame(damaged)|;
    assert file[4..next] == damaged;
    assert Fill(c, Start(file)) == (Start(file).(offset := next), Err(()));
    assert file == Frame(damaged) + U32Bytes(|sealed|) + sealed;
    U32Framed(Frame(damaged), |sealed|, sealed);
    assert file[next + 4..next + 4 + |sealed|] == sealed;
    assert Fill(c, Start(file).(offset := next)) == (Reader(file, |file|, plain, 0), Ok(true));
    assert plain[0..|plain|] == plain;
  }

  // ------------------------------------------------------- the format of the file

  /** The chunks are the stretches of 65536 bytes of the data, the last one shorter. */
  lemma {:induction false} ChunkIsStretch(data: seq<byte>, i: nat)
    requires i < |Chunks(data)|
    ensures 65536 * i < |data|
    ensures Chunks(data)[i] == data[65536 * i..if 65536 * (i + 1) <= |data| then 65536 * (i + 1) else |data|]
    ensures i == |Chunks(data)| - 1 <==> |data| <= 65536 * (i + 1)
    decreases i
  {
    if i > 0 {
      ChunkIsStretch(AfterFirst(data), i - 1);
    } else {
      assert |Chunks(data)| == 1 <==> AfterFirst(data) == [];
    }
  }

  /** What is written: the sealed chunks in order, each behind its length in four
      bytes, lowest first, the i-th one sealed with the i-th nonce. */
  function SealedFile(c: Cipher, nonces: nat -> nat, from: nat, chunks: seq<seq<byte>>): seq<byte>
    decreases |chunks|
  {
    if chunks == [] then []
    else
      var sealed := c.seal(nonces(from), chunks[0]);
      var n := |sealed|;
      [n % 256, n / 256 % 256, n / 65536 % 256, n / 16777216 % 256] + sealed + SealedFile(c, nonces, from + 1, chunks[1..])
  }

  lemma {:induction false} EncryptedIsSealedFile(c: Cipher, nonces: nat -> nat, from: nat, data: seq<byte>)
    ensures Encrypted(c, nonces, from, data) == SealedFile(c, nonces, from, Chunks(data))
    decreases |data|
  {
    if data != [] {
      EncryptedIsSealedFile(c, nonces, from + 1, AfterFirst(data));
      assert Chunks(data)[1..] == Chunks(AfterFirst(data));
    }
  }
}
