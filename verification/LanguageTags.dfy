/** Language tags as the export compares them. */
module LanguageTags {

  /** The characters Unicode calls white space. */
  predicate IsSpace(c: char) {
    || '\U{9}' <= c <= '\U{D}' || c == ' ' || c == '\U{85}' || c == '\U{A0}' || c == '\U{1680}'
    || '\U{2000}' <= c <= '\U{200A}' || c == '\U{2028}' || c == '\U{2029}' || c == '\U{202F}'
    || c == '\U{205F}' || c == '\U{3000}'
  }

  function TrimStart(s: string): (t: string)
    ensures t != "" ==> !IsSpace(t[0])
  {
    if s != "" && IsSpace(s[0]) then TrimStart(s[1..]) else s
  }

  function TrimEnd(s: string): (t: string)
    ensures t <= s && (t != "" ==> !IsSpace(t[|t| - 1]))
  {
    if s != "" && IsSpace(s[|s| - 1]) then TrimEnd(s[..|s| - 1]) else s
  }

  function Trim(s: string): string { TrimEnd(TrimStart(s)) }

  predicate IsBlank(s: string) { Trim(s) == "" }

  function LowerChar(c: char): char { if 'A' <= c <= 'Z' then c - 'A' + 'a' else c }

  function Lower(s: string): (t: string)
    ensures |t| == |s|
  {
    seq(|s|, i requires 0 <= i < |s| => LowerChar(s[i]))
  }

  /** Up to the first `-` or `_`. */
  function UpToSubtag(s: string): string {
    if s == "" || s[0] == '-' || s[0] == '_' then "" else [s[0]] + UpToSubtag(s[1..])
  }

  function Base(tag: string): string { UpToSubtag(Trim(tag)) }

  /** What two tags of the same language have in common. */
  function Key(tag: string): string { Lower(Base(tag)) }

  predicate SameLanguage(a: string, b: string) { Key(a) == Key(b) }

  predicate IsUnknown(tag: string) { IsBlank(tag) || Lower(tag) == "und" }

  lemma {:induction false} LowerUndIsPlain(tag: string)
    requires Lower(tag) == "und"
    ensures |tag| == 3 && Trim(tag) == tag && UpToSubtag(tag) == tag
  {
    assert forall i :: 0 <= i < 3 ==> LowerChar(tag[i]) == Lower(tag)[i];
    assert !IsSpace(tag[0]) && !IsSpace(tag[2]);
    assert TrimStart(tag) == tag && TrimEnd(tag) == tag;
    assert UpToSubtag(tag[3..]) == "";
    assert UpToSubtag(tag[2..]) == tag[2..] by { assert tag[2..][1..] == tag[3..]; assert [tag[2]] + "" == tag[2..]; }
    assert UpToSubtag(tag[1..]) == tag[1..] by { assert tag[1..][1..] == tag[2..]; assert [tag[1]] + tag[2..] == tag[1..]; }
    assert [tag[0]] + tag[1..] == tag;
  }

  /** An unknown language is filed under the empty key or under `und`. */
  lemma UnknownKey(tag: string)
    requires IsUnknown(tag)
    ensures Key(tag) == "" || Key(tag) == "und"
  {
    if IsBlank(tag) {
      assert Lower("") == "";
    } else {
      LowerUndIsPlain(tag);
    }
  }

  lemma PlainKeys()
    ensures Key("") == "" && IsUnknown("")
    ensures Key("und") == "und" && IsUnknown("und")
  {
    assert Lower("") == "";
    assert Lower("und") == "und";
    LowerUndIsPlain("und");
  }

  predicate IsLetter(c: char) { 'a' <= c <= 'z' || 'A' <= c <= 'Z' }

  predicate AllLetters(s: string) { s != "" && forall i :: 0 <= i < |s| ==> IsLetter(s[i]) }

  /** The same letters, in lower case. */
  predicate IsLowered(low: string, s: string) {
    && |low| == |s|
    && forall i :: 0 <= i < |s| ==>
         ('a' <= s[i] <= 'z' ==> low[i] == s[i])
         && ('A' <= s[i] <= 'Z' ==> low[i] as int == s[i] as int + 32)
  }

  lemma {:induction false} UpToLetters(base: string, rest: string)
    requires forall i :: 0 <= i < |base| ==> IsLetter(base[i])
    requires rest == "" || rest[0] == '-' || rest[0] == '_'
    ensures UpToSubtag(base + rest) == base
  {
    if base == "" {
      assert base + rest == rest;
    } else {
      UpToLetters(base[1..], rest);
      assert (base + rest)[1..] == base[1..] + rest;
      assert [base[0]] + base[1..] == base;
    }
  }

  lemma {:induction false} TrimEndKeeps(front: string, rest: string) returns (kept: string)
    requires front != "" && !IsSpace(front[|front| - 1])
    ensures TrimEnd(front + rest) == front + kept && kept <= rest
  {
    kept := rest;
    if rest == "" {
      assert front + rest == front;
    } else if IsSpace(rest[|rest| - 1]) {
      assert (front + rest)[..|front + rest| - 1] == front + rest[..|rest| - 1];
      kept := TrimEndKeeps(front, rest[..|rest| - 1]);
    }
  }

  /** Two tags whose letters before the first `-` or `_` are the same, in either case,
      are one language: `zh-CN`, `zh_TW` and `ZH` are. */
  lemma SubtagsDoNotMatter(base: string, subtags: string)
    requires AllLetters(base) && (subtags == "" || subtags[0] == '-' || subtags[0] == '_')
    ensures IsLowered(Key(base + subtags), base)
    ensures SameLanguage(base + subtags, base)
  {
    assert base + "" == base;
    KeyOfTag(base, subtags);
    KeyOfTag(base, "");
  }

  lemma KeyOfTag(base: string, subtags: string)
    requires AllLetters(base) && (subtags == "" || subtags[0] == '-' || subtags[0] == '_')
    ensures Key(base + subtags) == Lower(base)
  {
    var tag := base + subtags;
    assert tag[0] == base[0] && TrimStart(tag) == tag;
    if subtags == "" {
      assert tag == base && TrimEnd(tag) == tag;
      UpToLetters(base, "");
      assert base + "" == base;
    } else {
      var front := base + [subtags[0]];
      assert tag == front + subtags[1..];
      var kept := TrimEndKeeps(front, subtags[1..]);
      assert front + kept == base + ([subtags[0]] + kept);
      UpToLetters(base, [subtags[0]] + kept);
    }
  }

  /** One letter, in either case. */
  predicate SameLetter(a: char, b: char) { a == b || a as int == b as int + 32 || b as int == a as int + 32 }

  lemma LowerIsLetter(a: char, b: char)
    requires IsLetter(a) && IsLetter(b)
    ensures LowerChar(a) == LowerChar(b) <==> SameLetter(a, b)
  {
  }

  lemma LowerIsLetters(a: string, b: string)
    requires |a| == |b| && AllLetters(a) && AllLetters(b)
    ensures Lower(a) == Lower(b) <==> forall i :: 0 <= i < |a| ==> SameLetter(a[i], b[i])
  {
    forall i | 0 <= i < |a| ensures Lower(a)[i] == Lower(b)[i] <==> SameLetter(a[i], b[i]) {
      LowerIsLetter(a[i], b[i]);
    }
    assert (forall i :: 0 <= i < |a| ==> Lower(a)[i] == Lower(b)[i]) ==> Lower(a) == Lower(b);
  }

  /** Tags with different letters there are different languages. */
  lemma LanguagesDiffer(a: string, b: string)
    requires AllLetters(a) && AllLetters(b)
    ensures SameLanguage(a, b) <==> |a| == |b| && forall i :: 0 <= i < |a| ==> SameLetter(a[i], b[i])
  {
    assert a + "" == a && b + "" == b;
    KeyOfTag(a, "");
    KeyOfTag(b, "");
    if |a| == |b| { LowerIsLetters(a, b); }
  }

  /** White space around a tag does not matter. */
  lemma SpaceAroundDoesNotMatter(before: char, tag: string, after: char)
    requires IsSpace(before) && IsSpace(after)
    ensures SameLanguage([before] + tag, tag)
    ensures AllLetters(tag) ==> SameLanguage(tag + [after], tag)
  {
    assert ([before] + tag)[1..] == tag;
    if AllLetters(tag) {
      assert TrimStart(tag) == tag && TrimStart(tag + [after]) == tag + [after];
      assert (tag + [after])[..|tag|] == tag;
    }
  }

  /** White space by code points: the ASCII and Unicode ones, and no others. */
  lemma SpacesAre(c: char)
    ensures var p := c as int;
            IsSpace(c) <==> (9 <= p <= 13 || p == 32 || p == 133 || p == 160 || p == 5760 || 8192 <= p <= 8202
                             || p == 8232 || p == 8233 || p == 8239 || p == 8287 || p == 12288)
  {
  }
}
