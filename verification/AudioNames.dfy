/** Which session owns a file of the old flat audio layout, and its new name. */
module AudioNames {
  import opened Wrappers

  const CHUNK := ".chunk."
  const JOURNAL := "capture-journal.enc"
  const RECOVERING := ".recovering"

  predicate EndsWith(s: string, suffix: string) { |suffix| <= |s| && s[|s| - |suffix|..] == suffix }

  function StripSuffix(s: string, suffix: string): (r: Option<string>)
    ensures r.Some? <==> EndsWith(s, suffix)
    ensures r.Some? ==> s == r.value + suffix
  {
    if EndsWith(s, suffix) then Some(s[..|s| - |suffix|]) else None
  }

  predicate OccursAt(s: string, part: string, i: nat) { i + |part| <= |s| && s[i..i + |part|] == part }

  ghost predicate Occurs(s: string, part: string) { exists i: nat :: OccursAt(s, part, i) }

  function FirstAt(s: string, part: string, from: nat): (r: Option<nat>)
    requires from <= |s|
    ensures r.Some? ==> from <= r.value && OccursAt(s, part, r.value)
    ensures r.Some? ==> forall i: nat :: from <= i < r.value ==> !OccursAt(s, part, i)
    ensures r.None? ==> forall i: nat :: from <= i ==> !OccursAt(s, part, i)
    decreases |s| - from
  {
    if OccursAt(s, part, from) then Some(from)
    else if from == |s| then None
    else FirstAt(s, part, from + 1)
  }

  /** Splits around the first occurrence of a separator. */
  function SplitOnce(s: string, part: string): (r: Option<(string, string)>)
    ensures r.Some? <==> Occurs(s, part)
    ensures r.Some? ==> s == r.value.0 + part + r.value.1 && forall i: nat :: i < |r.value.0| ==> !OccursAt(s, part, i)
  {
    match FirstAt(s, part, 0)
    case Some(i) => assert s == s[..i] + part + s[i + |part|..]; Some((s[..i], s[i + |part|..]))
    case None => None
  }

  /** A session id becomes a directory name. */
  predicate IsPathComponent(session: string) {
    session != "" && session != "." && session != ".." && '/' !in session && '\\' !in session && '\0' !in session
  }

  /** The owner of a legacy file and the name it takes in the owner's directory. */
  function Classify(name: string): Option<(string, string)> {
    match Split(name)
    case Some((session, relocated)) => if IsPathComponent(session) then Some((session, relocated)) else None
    case None => None
  }

  function Split(name: string): Option<(string, string)> {
    if "." <= name then
      match StripSuffix(name[1..], RECOVERING)
      case None => None
      case Some(tail) =>
        match SplitOnce(tail, CHUNK)
        case None => None
        case Some((session, chunk)) => Some((session, CHUNK + chunk + RECOVERING))
    else if EndsWith(name, "." + JOURNAL) then
      Some((name[..|name| - |JOURNAL| - 1], JOURNAL))
    else if EndsWith(name, ".enc") then
      match SplitOnce(name, CHUNK)
      case None => None
      case Some((session, chunk)) => Some((session, "chunk." + chunk))
    else None
  }

  /** The legacy name that a relocated name came from. */
  function LegacyName(session: string, relocated: string): string {
    if "." <= relocated then "." + session + relocated else session + "." + relocated
  }

  lemma RecoveringInverts(session: string, chunk: string)
    ensures LegacyName(session, CHUNK + chunk + RECOVERING) == "." + (session + CHUNK + chunk + RECOVERING)
  {
    assert (CHUNK + chunk + RECOVERING)[0] == '.';
    assert "." + session + (CHUNK + chunk + RECOVERING) == "." + (session + CHUNK + chunk + RECOVERING);
  }

  lemma ChunkInverts(session: string, chunk: string)
    ensures LegacyName(session, "chunk." + chunk) == session + CHUNK + chunk
  {
    assert ("chunk." + chunk)[0] == 'c';
    assert "." + ("chunk." + chunk) == CHUNK + chunk;
    assert session + "." + ("chunk." + chunk) == session + ("." + ("chunk." + chunk));
    assert session + (CHUNK + chunk) == session + CHUNK + chunk;
  }

  lemma JournalInverts(name: string)
    requires EndsWith(name, "." + JOURNAL)
    ensures LegacyName(name[..|name| - |JOURNAL| - 1], JOURNAL) == name
  {
    assert JOURNAL[0] == 'c';
    assert name == name[..|name| - |JOURNAL| - 1] + ("." + JOURNAL);
  }

  /** A destination tells its legacy name. */
  lemma ClassifyInverts(name: string)
    requires Classify(name).Some?
    ensures LegacyName(Classify(name).value.0, Classify(name).value.1) == name
  {
    if "." <= name {
      var tail := StripSuffix(name[1..], RECOVERING).value;
      var (session, chunk) := SplitOnce(tail, CHUNK).value;
      RecoveringInverts(session, chunk);
      assert name == "." + name[1..];
    } else if EndsWith(name, "." + JOURNAL) {
      JournalInverts(name);
    } else {
      var (session, chunk) := SplitOnce(name, CHUNK).value;
      ChunkInverts(session, chunk);
    }
  }

  /** Different files go to different places. */
  lemma DestinationsDiffer(a: string, b: string)
    requires Classify(a).Some? && Classify(a) == Classify(b)
    ensures a == b
  {
    ClassifyInverts(a);
    ClassifyInverts(b);
  }

  lemma FirstSplit(session: string, rest: string)
    ensures SplitOnce(session + CHUNK + rest, CHUNK) == Some((session, rest)) <==> !Occurs(session + ".chunk", CHUNK)
  {
    var name := session + CHUNK + rest;
    assert OccursAt(name, CHUNK, |session|) by {
      assert name[|session|..|session| + |CHUNK|] == CHUNK;
    }
    assert name == session + ".chunk" + ("." + rest);
    assert forall i: nat :: i < |session| ==> (OccursAt(name, CHUNK, i) <==> OccursAt(session + ".chunk", CHUNK, i)) by {
      forall i: nat | i < |session|
        ensures OccursAt(name, CHUNK, i) <==> OccursAt(session + ".chunk", CHUNK, i)
      {
        if i + |CHUNK| <= |session + ".chunk"| {
          assert name[i..i + |CHUNK|] == (session + ".chunk")[i..i + |CHUNK|];
        }
      }
    }
    var (a, b) := SplitOnce(name, CHUNK).value;
    assert a + CHUNK + b == name;
    if !Occurs(session + ".chunk", CHUNK) {
      assert |a| == |session|;
      assert a == name[..|a|] == session && b == name[|a| + |CHUNK|..] == rest;
    } else {
      var i: nat :| OccursAt(session + ".chunk", CHUNK, i);
      assert i < |session|;
    }
  }

  predicate IsIndex(index: string) { index != "" && forall i :: 0 <= i < |index| ==> '0' <= index[i] <= '9' }

  lemma ChunkIsNoJournal(head: string, index: string)
    requires IsIndex(index)
    ensures EndsWith(head + index + ".enc", ".enc") && !EndsWith(head + index + ".enc", "." + JOURNAL)
  {
    var name, suffix := head + index + ".enc", "." + JOURNAL;
    assert name[|name| - 5] == index[|index| - 1];
    if |name| >= |suffix| {
      assert name[|name| - |suffix|..][|suffix| - 5] == name[|name| - 5];
      assert suffix[|suffix| - 5] == 'l';
    }
  }

  /** A chunk file is given back to its session exactly when the separator does not
      begin any earlier than where the session's id ends. */
  lemma ChunkGoesHomeIff(session: string, index: string)
    requires IsPathComponent(session) && session[0] != '.' && IsIndex(index)
    ensures Classify(session + CHUNK + index + ".enc") == Some((session, "chunk." + (index + ".enc")))
      <==> !Occurs(session + ".chunk", CHUNK)
  {
    var name, rest := session + CHUNK + index + ".enc", index + ".enc";
    assert name == session + CHUNK + rest;
    assert name[0] == session[0];
    ChunkIsNoJournal(session + CHUNK, index);
    FirstSplit(session, rest);
    assert OccursAt(name, CHUNK, |session|);
    var (a, b) := SplitOnce(name, CHUNK).value;
    assert ("chunk." + b)[6..] == b && ("chunk." + rest)[6..] == rest;
  }

  /** Ids without a dot, like UUIDs, are never torn apart. */
  lemma DotlessGoHome(session: string)
    requires '.' !in session
    ensures !Occurs(session + ".chunk", CHUNK)
  {
    var s := session + ".chunk";
    forall i: nat ensures !OccursAt(s, CHUNK, i) {
      if i + |CHUNK| <= |s| {
        assert s[i..i + |CHUNK|][0] == s[i];
        assert i < |session|;
        assert s[i] == session[i];
      }
    }
  }

  /** A journal goes to the session that its name begins with. */
  lemma JournalGoesHome(session: string)
    requires session != "" && session[0] != '.'
    ensures Classify(session + ".capture-journal.enc")
         == if '/' in session || '\\' in session || '\0' in session then None else Some((session, "capture-journal.enc"))
  {
    var name := session + ".capture-journal.enc";
    assert "." + JOURNAL == ".capture-journal.enc";
    assert name[0] == session[0];
    assert name[|name| - |"." + JOURNAL|..] == "." + JOURNAL;
    assert name[..|name| - |JOURNAL| - 1] == session;
  }

  lemma HiddenSplit(tail: string)
    ensures "." <= "." + tail + ".recovering"
    ensures StripSuffix(("." + tail + ".recovering")[1..], RECOVERING) == Some(tail)
  {
    var name := "." + tail + ".recovering";
    assert name[1..] == tail + ".recovering";
    assert EndsWith(name[1..], RECOVERING);
    var stripped := StripSuffix(name[1..], RECOVERING).value;
    assert stripped + RECOVERING == tail + RECOVERING;
    assert stripped == (tail + RECOVERING)[..|tail|] == tail;
  }

  lemma SameFront(a: string, b: string, x: string, y: string)
    requires a + x + b == a + y + b
    ensures x == y
  {
    assert |x| == |y|;
    assert x == (a + x + b)[|a|..|a| + |x|] && y == (a + y + b)[|a|..|a| + |y|];
  }

  /** A chunk that was being recovered goes to its session under the same condition
      as a finished one. */
  lemma RecoveringGoesHomeIff(session: string, chunk: string)
    requires IsPathComponent(session)
    ensures Classify("." + (session + CHUNK + chunk) + ".recovering") == Some((session, CHUNK + chunk + ".recovering"))
      <==> !Occurs(session + ".chunk", CHUNK)
  {
    HiddenSplit(session + CHUNK + chunk);
    FirstSplit(session, chunk);
    assert OccursAt(session + CHUNK + chunk, CHUNK, |session|) by {
      assert (session + CHUNK + chunk)[|session|..|session| + |CHUNK|] == CHUNK;
    }
    var (a, b) := SplitOnce(session + CHUNK + chunk, CHUNK).value;
    if CHUNK + b + RECOVERING == CHUNK + chunk + RECOVERING { SameFront(CHUNK, RECOVERING, b, chunk); }
  }

  /** No other file is touched: what is classified belongs to a directory name and is
      a journal, a chunk, or a chunk that was being recovered. */
  lemma OnlyAudioMoves(name: string)
    requires Classify(name).Some?
    ensures var (session, relocated) := Classify(name).value;
            && session != "" && session != "." && session != ".." && '/' !in session && '\\' !in session && '\0' !in session
            && (relocated == "capture-journal.enc"
                || ("chunk." <= relocated && EndsWith(name, ".enc"))
                || (".chunk." <= relocated && EndsWith(name, ".recovering")))
  {
    if "." <= name {
      var tail := StripSuffix(name[1..], RECOVERING).value;
      var (session, chunk) := SplitOnce(tail, CHUNK).value;
      assert CHUNK <= CHUNK + chunk + RECOVERING;
      assert name == "." + tail + RECOVERING;
      assert name[|name| - |RECOVERING|..] == RECOVERING;
    } else if !EndsWith(name, "." + JOURNAL) {
      var (session, chunk) := SplitOnce(name, CHUNK).value;
      assert "chunk." <= "chunk." + chunk;
    }
  }
}
