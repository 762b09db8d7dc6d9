/**
 Content keys in one private document: every change reads the document, replaces
 it as a whole, and leaves it as it was if anything fails on the way.
 */
module FileKeyStore {
  import opened Wrappers
  import opened LittleEndian
  import opened PrivateFileRuns
  import Hex

  const CONTENT_KEY_STORE_VERSION := 1
  const KEY_SIZE := 32
  const MAX_IDENTIFIER_BYTES := 512

  /** What is in the data file. */
  datatype Content = Missing | Document(version: nat, keys: Keys) | Damaged

  datatype Error = InvalidIdentifier | Integrity | KeyNotFound | IoFailed

  /** Where a write is interrupted by the file system, if at all. */
  datatype Fault = NoFault | CannotCreate | CannotSync | CannotRename

  function IdentifierChar(c: char): bool {
    ('a' <= c <= 'z') || ('A' <= c <= 'Z') || ('0' <= c <= '9') || c in "._-:@+"
  }

  predicate ValidIdentifier(ref: string) {
    && ref != "" && |ref| <= MAX_IDENTIFIER_BYTES
    && (forall k :: 0 <= k < |ref| - 1 ==> !(ref[k] == '.' && ref[k + 1] == '.'))
    && (forall k :: 0 <= k < |ref| ==> IdentifierChar(ref[k]))
  }

  predicate ValidEncoding(text: string) {
    var bytes := Hex.Decode(text);
    bytes.Some? && |bytes.value| == KEY_SIZE
  }

  /** What opening the document gives: a missing one is empty, and one that is
      not entirely valid is refused. */
  function Read(content: Content): Result<Keys, Error> {
    match content
    case Missing => Ok(map[])
    case Damaged => Err(Integrity)
    case Document(version, keys) =>
      if version == CONTENT_KEY_STORE_VERSION
         && forall ref :: ref in keys ==> ValidIdentifier(ref) && ValidEncoding(keys[ref])
      then Ok(keys) else Err(Integrity)
  }

  /** What the file holds after one requested operation. */
  function After(content: Content, op: Op, fault: Fault): (Content, Result<(), Error>) {
    if !ValidIdentifier(op.ref) then (content, Err(InvalidIdentifier))
    else
      match Read(content)
      case Err(e) => (content, Err(e))
      case Ok(keys) =>
        if op.DeleteKey? && op.ref !in keys then (content, Ok(()))
        else if !fault.NoFault? then (content, Err(IoFailed))
        else (Document(CONTENT_KEY_STORE_VERSION, Perform(op, keys)), Ok(()))
  }

  // -------------------------------------------------------------- order of the keys

  /** The order in which the map of keys keeps its references. */
  predicate Before(a: string, b: string) {
    b != [] && (a == [] || a[0] < b[0] || (a[0] == b[0] && Before(a[1..], b[1..])))
  }

  predicate Ascending(refs: seq<string>) { forall i, j :: 0 <= i < j < |refs| ==> Before(refs[i], refs[j]) }

  lemma {:induction false} BeforeIsTotal(a: string, b: string)
    ensures a == b || Before(a, b) || Before(b, a)
    ensures !(Before(a, b) && Before(b, a)) && !Before(a, a)
  {
    if a != [] {
      BeforeIsTotal(a[1..], if b != [] then b[1..] else []);
      BeforeIsTotal(a[1..], a[1..]);
      assert a == [a[0]] + a[1..];
    }
    if b != [] { assert b == [b[0]] + b[1..]; }
  }

  lemma {:induction false} BeforeIsTransitive(a: string, b: string, c: string)
    requires Before(a, b) && Before(b, c)
    ensures Before(a, c)
  {
    if a != [] && a[0] == b[0] == c[0] {
      BeforeIsTransitive(a[1..], b[1..], c[1..]);
    }
  }

  predicate IsLeast(least: string, refs: set<string>) {
    least in refs && forall other :: other in refs && other != least ==> Before(least, other)
  }

  lemma {:induction false} LeastExists(refs: set<string>)
    requires refs != {}
    ensures exists least :: IsLeast(least, refs)
    decreases |refs|
  {
    var some :| some in refs;
    var rest := refs - {some};
    assert forall other :: other in refs && other != some ==> other in rest;
    if rest == {} {
      assert IsLeast(some, refs);
    } else {
      LeastExists(rest);
      var least :| IsLeast(least, rest);
      BeforeIsTotal(some, least);
      if Before(some, least) {
        forall other | other in refs && other != some ensures Before(some, other) {
          if other != least { BeforeIsTransitive(some, least, other); }
        }
        assert IsLeast(some, refs);
      } else {
        assert IsLeast(least, refs);
      }
    }
  }

  method InOrder(refs: set<string>) returns (list: seq<string>)
    ensures Ascending(list) && forall ref :: ref in list <==> ref in refs
    ensures refs == {} ==> list == []
  {
    list := [];
    var rest := refs;
    while rest != {}
      invariant Ascending(list) && rest <= refs && (refs == {} ==> list == [])
      invariant forall ref :: ref in refs <==> ref in rest || ref in list
      invariant forall i, ref :: 0 <= i < |list| && ref in rest ==> Before(list[i], ref)
      decreases |rest|
    {
      LeastExists(rest);
      var least :| least in rest && IsLeast(least, rest);
      list, rest := list + [least], rest - {least};
    }
  }


  class KeyStore {
    var content: Content
    /** Temporary files in the store's directory. */
    var temps: map<nat, Option<Content>>

    constructor (content: Content)
      ensures this.content == content && temps == map[]
    {
      this.content := content;
      temps := map[];
    }

    /** Writes a temporary file and renames it over the document; on failure the
        temporary file goes and the document stays. */
    method WriteJson(document: Content, fault: Fault, temp: nat) returns (result: Result<(), Error>)
      requires temp !in temps
      modifies this
      ensures temps == old(temps)
      ensures result == if fault.NoFault? then Ok(()) else Err(IoFailed)
      ensures content == if fault.NoFault? then document else old(content)
    {
      if fault.CannotCreate? {
        return Err(IoFailed);
      }
      temps := temps[temp := None];
      if !fault.CannotSync? {
        temps := temps[temp := Some(document)];
        if !fault.CannotRename? {
          content := temps[temp].value;
          temps := temps - {temp};
          return Ok(());
        }
      }
      temps := temps - {temp};
      result := Err(IoFailed);
    }

    method Store(ref: string, key: seq<byte>, fault: Fault, temp: nat) returns (result: Result<(), Error>)
      requires |key| == KEY_SIZE && temp !in temps
      modifies this
      ensures temps == old(temps)
      ensures (content, result) == After(old(content), StoreKey(ref, Hex.Encode(key)), fault)
    {
      if !ValidIdentifier(ref) {
        return Err(InvalidIdentifier);
      }
      var keys := Read(content);
      if keys.Err? {
        return Err(keys.error);
      }
      var document := Document(CONTENT_KEY_STORE_VERSION, keys.value[ref := Hex.Encode(key)]);
      result := WriteJson(document, fault, temp);
    }

    method Delete(ref: string, fault: Fault, temp: nat) returns (result: Result<(), Error>)
      requires temp !in temps
      modifies this
      ensures temps == old(temps)
      ensures (content, result) == After(old(content), DeleteKey(ref), fault)
    {
      if !ValidIdentifier(ref) {
        return Err(InvalidIdentifier);
      }
      var keys := Read(content);
      if keys.Err? {
        return Err(keys.error);
      }
      if ref !in keys.value {
        return Ok(());
      }
      var document := Document(CONTENT_KEY_STORE_VERSION, keys.value - {ref});
      result := WriteJson(document, fault, temp);
    }

    method Load(ref: string) returns (key: Result<seq<byte>, Error>)
      ensures key == LoadFrom(content, ref)
    {
      if !ValidIdentifier(ref) {
        return Err(InvalidIdentifier);
      }
      var keys := Read(content);
      if keys.Err? {
        return Err(keys.error);
      }
      if ref !in keys.value {
        return Err(KeyNotFound);
      }
      key := Ok(Hex.Decode(keys.value[ref]).value);
    }

    /** The references of all keys, in order. */
    method ListKeyRefs() returns (refs: Result<seq<string>, Error>)
      ensures refs.Err? <==> Refused(content)
      ensures refs.Ok? ==> Ascending(refs.value)
      ensures refs.Ok? ==> forall ref :: ref in refs.value <==> ref in KeysIn(content)
      ensures content.Missing? ==> refs == Ok([])
    {
      var keys := Read(content);
      if keys.Err? {
        return Err(keys.error);
      }
      var list := InOrder(keys.value.Keys);
      refs := Ok(list);
    }
  }

  function LoadFrom(content: Content, ref: string): Result<seq<byte>, Error> {
    if !ValidIdentifier(ref) then Err(InvalidIdentifier)
    else
      match Read(content)
      case Err(e) => Err(e)
      case Ok(keys) => if ref !in keys then Err(KeyNotFound) else Ok(Hex.Decode(keys[ref]).value)
  }

  /** A stored key loads back byte for byte, and no other key changes. */
  lemma StoredKeyLoads(content: Content, ref: string, key: seq<byte>, other: string)
    requires |key| == KEY_SIZE && ValidIdentifier(ref) && Read(content).Ok?
    ensures var after := After(content, StoreKey(ref, Hex.Encode(key)), NoFault).0;
            && LoadFrom(after, ref) == Ok(key)
            && (other != ref ==> LoadFrom(after, other) == LoadFrom(content, other))
  {
    Hex.DecodeEncode(key);
    ReadBack(Read(content).value, ref, Hex.Encode(key));
    ReadIsValid(content);
  }

  lemma ReadIsValid(content: Content)
    requires Read(content).Ok?
    ensures forall ref :: ref in Read(content).value ==> ValidIdentifier(ref) && ValidEncoding(Read(content).value[ref])
  {
  }

  lemma ReadBack(keys: Keys, ref: string, encoded: string)
    requires forall r :: r in keys ==> ValidIdentifier(r) && ValidEncoding(keys[r])
    requires ValidIdentifier(ref) && ValidEncoding(encoded)
    ensures Read(Document(CONTENT_KEY_STORE_VERSION, keys[ref := encoded])) == Ok(keys[ref := encoded])
  {
  }

  /** A deleted key is gone, deleting it again changes nothing, and no other key
      changes. */
  lemma DeletedKeyIsGone(content: Content, ref: string, other: string)
    requires ValidIdentifier(ref) && Read(content).Ok?
    ensures var after := After(content, DeleteKey(ref), NoFault).0;
            && LoadFrom(after, ref) == Err(KeyNotFound)
            && After(after, DeleteKey(ref), NoFault) == (after, Ok(()))
            && (other != ref ==> LoadFrom(after, other) == LoadFrom(content, other))
  {
  }

  /** A valid document stays valid, whatever is asked and wherever it fails. */
  lemma DocumentStaysReadable(content: Content, op: Op, fault: Fault)
    requires Read(content).Ok?
    requires op.StoreKey? ==> ValidEncoding(op.value)
    ensures Read(After(content, op, fault).0).Ok?
    ensures Read(After(content, op, fault).0).value == Read(content).value
         || (fault.NoFault? && Read(After(content, op, fault).0).value == Perform(op, Read(content).value))
  {
  }

  // ----------------------------------------------- every document, every request

  /** A hundred and twenty-eight bits twice over, in hexadecimal. */
  predicate IsEncodedKey(text: string) {
    Hex.Decode(text).Some? && |Hex.Decode(text).value| == 32
  }

  /** The documents that are refused as a whole: damaged ones, those of another
      version, and those with one bad reference or one bad encoding. A missing
      document is none of them. */
  predicate Refused(content: Content) {
    || content.Damaged?
    || (content.Document? && content.version != 1)
    || (content.Document? && exists ref :: ref in content.keys && (!ValidIdentifier(ref) || !IsEncodedKey(content.keys[ref])))
  }

  /** The keys of a document that is not refused; a missing one has none. */
  function KeysIn(content: Content): map<string, string> {
    if content.Document? then content.keys else map[]
  }

  /** What storing comes to, whatever there is: a bad reference or a refused
      document is an error without a write, and so is a write that fails; otherwise
      the new document holds the old keys and this one. */
  lemma StoringComesTo(content: Content, ref: string, key: seq<byte>, fault: Fault)
    requires |key| == KEY_SIZE
    ensures After(content, StoreKey(ref, Hex.Encode(key)), fault)
         == if !ValidIdentifier(ref) then (content, Err(InvalidIdentifier))
            else if Refused(content) then (content, Err(Integrity))
            else if fault != NoFault then (content, Err(IoFailed))
            else (Document(1, KeysIn(content)[ref := Hex.Encode(key)]), Ok(()))
  {
  }

  /** So with deleting; a key that is not there is no error and no write. */
  lemma DeletingComesTo(content: Content, ref: string, fault: Fault)
    ensures After(content, DeleteKey(ref), fault)
         == if !ValidIdentifier(ref) then (content, Err(InvalidIdentifier))
            else if Refused(content) then (content, Err(Integrity))
            else if ref !in KeysIn(content) then (content, Ok(()))
            else if fault != NoFault then (content, Err(IoFailed))
            else (Document(1, KeysIn(content) - {ref}), Ok(()))
  {
  }

  /** Loading gives the 32 bytes whose text the document holds. */
  lemma LoadingComesTo(content: Content, ref: string)
    ensures var loaded := LoadFrom(content, ref);
            && (loaded == Err(InvalidIdentifier) <==> !ValidIdentifier(ref))
            && (loaded == Err(Integrity) <==> ValidIdentifier(ref) && Refused(content))
            && (loaded == Err(KeyNotFound) <==> ValidIdentifier(ref) && !Refused(content) && ref !in KeysIn(content))
            && (loaded.Ok? ==> |loaded.value| == 32 && Hex.Decode(KeysIn(content)[ref]) == Some(loaded.value))
            && loaded != Err(IoFailed)
  {
  }

  /** The first key of a new device: there is no document, and after storing the
      key loads and no other does. */
  lemma FirstKeyIsStored(ref: string, key: seq<byte>, other: string, fault: Fault)
    requires |key| == KEY_SIZE && ValidIdentifier(ref) && ValidIdentifier(other) && other != ref
    ensures LoadFrom(Missing, ref) == Err(KeyNotFound)
    ensures After(Missing, DeleteKey(ref), fault) == (Missing, Ok(()))
    ensures var (after, result) := After(Missing, StoreKey(ref, Hex.Encode(key)), NoFault);
            && result == Ok(()) && after == Document(1, map[ref := Hex.Encode(key)])
            && LoadFrom(after, ref) == Ok(key) && LoadFrom(after, other) == Err(KeyNotFound)
  {
    StoringComesTo(Missing, ref, key, NoFault);
    DeletingComesTo(Missing, ref, fault);
    StoredKeyLoads(Missing, ref, key, other);
  }

  /** A reference names nothing outside the document: it is a bounded word of letters,
      digits and a few marks, none of them a separator of paths, with no two dots in
      a row. */
  lemma ReferencesAreNames(ref: string)
    ensures ValidIdentifier(ref) <==>
              && 1 <= |ref| <= 512
              && (forall k :: 0 <= k < |ref| ==>
                    'a' <= ref[k] <= 'z' || 'A' <= ref[k] <= 'Z' || '0' <= ref[k] <= '9'
                    || ref[k] == '.' || ref[k] == '_' || ref[k] == '-' || ref[k] == ':' || ref[k] == '@' || ref[k] == '+')
              && (forall k :: 0 <= k < |ref| - 1 && ref[k] == '.' ==> ref[k + 1] != '.')
  {
    var marks := "._-:@+";
    assert marks[0] == '.' && marks[1] == '_' && marks[2] == '-' && marks[3] == ':' && marks[4] == '@' && marks[5] == '+';
  }

  // ------------------------------------------ one call as steps of the protocol

  /** The steps of one undisturbed write. */
  function WriteSteps(p: nat, op: Op, temp: nat): seq<Step> {
    [LockToWrite(p, op), Load(p), CreateTemp(p, temp), SyncTemp(p), Rename(p), Unlock(p)]
  }

  lemma RunInTurn(s: State, a: Step, b: Step, c: Step, d: Step, e: Step, f: Step)
    ensures Run(s, [a, b, c, d, e, f]) == Next(Next(Next(Next(Next(Next(s, a), b), c), d), e), f)
  {
    var s1 := Next(s, a);
    var s2 := Next(s1, b);
    var s3 := Next(s2, c);
    var s4 := Next(s3, d);
    var s5 := Next(s4, e);
    var s6 := Next(s5, f);
    assert [a, b, c, d, e, f][1..] == [b, c, d, e, f] && [b, c, d, e, f][1..] == [c, d, e, f];
    assert [c, d, e, f][1..] == [d, e, f] && [d, e, f][1..] == [e, f] && [e, f][1..] == [f] && [f][1..] == [];
    assert Run(s6, []) == s6;
    assert Run(s5, [f]) == s6;
    assert Run(s4, [e, f]) == s6;
    assert Run(s3, [d, e, f]) == s6;
    assert Run(s2, [c, d, e, f]) == s6;
    assert Run(s1, [b, c, d, e, f]) == s6;
  }

  lemma LockAndLoad(s: State, p: nat, op: Op)
    requires At(s, p).Idle? && s.exclusive.None? && s.shared == {}
    ensures Next(Next(s, LockToWrite(p, op)), Load(p))
         == s.(phases := s.phases[p := Loaded(op, s.data)], exclusive := Some(p), ticket := s.ticket + 1)
  {
    var s1 := Next(s, LockToWrite(p, op));
    assert s1 == s.(phases := s.phases[p := WriteLocked(op)], exclusive := Some(p), ticket := s.ticket + 1);
    assert s.phases[p := WriteLocked(op)][p := Loaded(op, s.data)] == s.phases[p := Loaded(op, s.data)];
  }

  lemma CreateAndSync(s: State, p: nat, temp: nat)
    requires At(s, p).Loaded? && temp !in s.temps && temp !in s.odd
    ensures var op, keys := At(s, p).op, At(s, p).keys;
            Next(Next(s, CreateTemp(p, temp)), SyncTemp(p))
            == s.(phases := s.phases[p := Synced(op, keys, temp)], temps := s.temps[temp := Some(Perform(op, keys))])
  {
    var op, keys := At(s, p).op, At(s, p).keys;
    var s1 := Next(s, CreateTemp(p, temp));
    assert s1 == s.(phases := s.phases[p := Writing(op, keys, temp)], temps := s.temps[temp := None]);
    assert s1.phases[p := Synced(op, keys, temp)] == s.phases[p := Synced(op, keys, temp)];
    assert s1.temps[temp := Some(Perform(op, keys))] == s.temps[temp := Some(Perform(op, keys))];
  }

  lemma RenameAndUnlock(s: State, p: nat)
    requires At(s, p).Synced? && At(s, p).temp in s.temps && s.temps[At(s, p).temp].Some?
    ensures var end := Next(Next(s, Rename(p)), Unlock(p));
            && end.data == s.temps[At(s, p).temp].value && end.temps == s.temps - {At(s, p).temp}
            && end.commits == s.commits + [Commit(At(s, p).op, s.ticket)]
            && end.exclusive.None? && At(end, p).Idle?
  {
  }

  /** Run to its end with the lock free, a call's protocol steps commit exactly
      its operation, once, and leave no temporary file. */
  lemma UndisturbedWriteCommits(s: State, p: nat, op: Op, temp: nat)
    requires At(s, p).Idle? && s.exclusive.None? && s.shared == {} && temp !in s.temps && temp !in s.odd
    ensures var end := Run(s, WriteSteps(p, op, temp));
            && end.data == Perform(op, s.data)
            && end.commits == s.commits + [Commit(op, s.ticket + 1)]
            && end.temps == s.temps && end.exclusive.None? && At(end, p).Idle?
  {
    RunInTurn(s, LockToWrite(p, op), Load(p), CreateTemp(p, temp), SyncTemp(p), Rename(p), Unlock(p));
    LockAndLoad(s, p, op);
    var loaded := Next(Next(s, LockToWrite(p, op)), Load(p));
    CreateAndSync(loaded, p, temp);
    RenameAndUnlock(Next(Next(loaded, CreateTemp(p, temp)), SyncTemp(p)), p);
    assert s.temps[temp := Some(Perform(op, s.data))] - {temp} == s.temps;
  }
}
