/**
 The names of a private store's temporary files: `.<file>.tmp-<pid>-<uuid>`.
 */
module TempNames {
  import opened Wrappers

  predicate IsDigit(c: char) { '0' <= c <= '9' }

  predicate IsLowerHex(c: char) { IsDigit(c) || 'a' <= c <= 'f' }

  function DecimalValue(digits: string): nat {
    if digits == [] then 0
    else
      var last := digits[|digits| - 1];
      10 * DecimalValue(digits[..|digits| - 1]) + (if IsDigit(last) then last as int - '0' as int else 0)
  }

  /** Decimal digits that fit an unsigned 32-bit process id. */
  predicate IsProcessId(s: string) {
    s != [] && (forall k :: 0 <= k < |s| ==> IsDigit(s[k])) && DecimalValue(s) < 0x1_0000_0000
  }

  /** A UUID as it is printed: lower-case hex in groups of 8, 4, 4, 4 and 12. */
  predicate IsPrintedUuid(s: string) {
    && |s| == 36
    && (forall k :: 0 <= k < 36 ==> if k == 8 || k == 13 || k == 18 || k == 23 then s[k] == '-' else IsLowerHex(s[k]))
  }

  function Prefix(file: string): string { "." + file + ".tmp-" }

  function TempName(file: string, pid: string, uuid: string): string { Prefix(file) + pid + "-" + uuid }

  /** The position of the first hyphen. */
  function FirstHyphen(s: string): (at: Option<nat>)
    ensures at.Some? ==> at.value < |s| && s[at.value] == '-' && '-' !in s[..at.value]
    ensures at.None? ==> '-' !in s
  {
    if s == [] then None
    else if s[0] == '-' then Some(0)
    else
      var rest := FirstHyphen(s[1..]);
      if rest.None? then None
      else
        assert s[..rest.value + 1] == [s[0]] + s[1..][..rest.value];
        Some(rest.value + 1)
  }

  /** Whether a name is one of this store's temporary files. */
  function IsTemporaryName(file: string, name: string): (temporary: bool)
    ensures temporary <==> exists pid, uuid ::
      IsProcessId(pid) && IsPrintedUuid(uuid) && name == TempName(file, pid, uuid)
  {
    var prefix := Prefix(file);
    if !(prefix <= name) then
      assert forall pid, uuid :: prefix <= TempName(file, pid, uuid);
      false
    else
      var suffix := name[|prefix|..];
      assert name == prefix + suffix;
      match FirstHyphen(suffix)
      case None =>
        SuffixHasHyphen(file, name);
        false
      case Some(at) =>
        SplitIsUnique(file, name, at);
        IsProcessId(suffix[..at]) && IsPrintedUuid(suffix[at + 1..])
  }

  lemma SuffixHasHyphen(file: string, name: string)
    requires Prefix(file) <= name && '-' !in name[|Prefix(file)|..]
    ensures forall pid, uuid :: name != TempName(file, pid, uuid)
  {
    forall pid, uuid ensures name != TempName(file, pid, uuid) {
      var made := TempName(file, pid, uuid);
      assert made[|Prefix(file)|..][|pid|] == '-';
    }
  }

  /** A process id has no hyphen, so the first hyphen is where the parts meet. */
  lemma SplitIsUnique(file: string, name: string, at: nat)
    requires Prefix(file) <= name
    requires at < |name[|Prefix(file)|..]| && name[|Prefix(file)|..][at] == '-' && '-' !in name[|Prefix(file)|..][..at]
    ensures var suffix := name[|Prefix(file)|..];
            name == TempName(file, suffix[..at], suffix[at + 1..])
    ensures var suffix := name[|Prefix(file)|..];
            forall pid, uuid :: IsProcessId(pid) && name == TempName(file, pid, uuid) ==>
              pid == suffix[..at] && uuid == suffix[at + 1..]
  {
    var prefix := Prefix(file);
    var suffix := name[|prefix|..];
    assert suffix == suffix[..at] + "-" + suffix[at + 1..];
    assert name == prefix + suffix;
    assert prefix + suffix == prefix + suffix[..at] + "-" + suffix[at + 1..];
    forall pid, uuid | IsProcessId(pid) && name == TempName(file, pid, uuid)
      ensures pid == suffix[..at] && uuid == suffix[at + 1..]
    {
      assert name[|prefix|..] == pid + "-" + uuid;
      HyphenAt(pid, uuid, at);
    }
  }

  lemma HyphenAt(pid: string, uuid: string, at: nat)
    requires forall k :: 0 <= k < |pid| ==> IsDigit(pid[k])
    requires at < |pid + "-" + uuid| && (pid + "-" + uuid)[at] == '-' && '-' !in (pid + "-" + uuid)[..at]
    ensures pid == (pid + "-" + uuid)[..at] && uuid == (pid + "-" + uuid)[at + 1..]
  {
    var s := pid + "-" + uuid;
    assert s[|pid|] == '-';
    assert forall k :: 0 <= k < |pid| ==> s[k] == pid[k] && s[k] != '-';
    assert forall k :: 0 <= k < at ==> s[..at][k] == s[k] && s[k] != '-';
    assert at == |pid|;
  }

  /** No name is a temporary file of two different stores, so a sweep never
      touches a file that another store's writer will rename. */
  lemma TempNamesTellStoresApart(file: string, other: string, name: string)
    requires IsTemporaryName(file, name) && IsTemporaryName(other, name)
    ensures file == other
  {
    var pid, uuid :| IsProcessId(pid) && IsPrintedUuid(uuid) && name == TempName(file, pid, uuid);
    var pid', uuid' :| IsProcessId(pid') && IsPrintedUuid(uuid') && name == TempName(other, pid', uuid');
    // Both end in 36 characters of UUID, the hyphen, the digits and the marker.
    TempNameParts(file, pid, uuid);
    TempNameParts(other, pid', uuid');
    var n := |name| - 37;
    assert name[..n] == Prefix(file) + pid == Prefix(other) + pid';
    DigitsEndAlike(Prefix(file), pid, Prefix(other), pid');
    assert Prefix(file)[1..|Prefix(file)| - 5] == file && Prefix(other)[1..|Prefix(other)| - 5] == other;
  }

  lemma TempNameParts(file: string, pid: string, uuid: string)
    requires |uuid| == 36
    ensures var name := TempName(file, pid, uuid);
            |name| >= 37 && name[..|name| - 37] == Prefix(file) + pid
  {
    assert TempName(file, pid, uuid) == (Prefix(file) + pid) + ("-" + uuid);
  }

  /** Digits after a hyphen are as many, however the rest is cut. */
  lemma DigitsEndAlike(a: string, x: string, b: string, y: string)
    requires a + x == b + y && a != [] && b != [] && a[|a| - 1] == '-' && b[|b| - 1] == '-'
    requires forall k :: 0 <= k < |x| ==> IsDigit(x[k])
    requires forall k :: 0 <= k < |y| ==> IsDigit(y[k])
    ensures a == b
  {
    var s := a + x;
    assert s[|a| - 1] == '-' && s[|b| - 1] == (b + y)[|b| - 1] == '-';
    assert forall k :: |a| <= k < |s| ==> s[k] == x[k - |a|] && s[k] != '-';
    assert forall k :: |b| <= k < |s| ==> s[k] == (b + y)[k] == y[k - |b|] && s[k] != '-';
    assert |a| == |b|;
    assert s[..|a|] == a && (b + y)[..|b|] == b;
  }

  /** The document itself and its lock file are never taken for temporary ones. */
  lemma StoreFilesAreNotTemporary(file: string)
    ensures !IsTemporaryName(file, file) && !IsTemporaryName(file, file + ".lock")
  {
    forall pid, uuid | IsPrintedUuid(uuid) ensures |TempName(file, pid, uuid)| > |file + ".lock"| {}
  }
}
