/**
 The erasure meter as it observes a capture: three maps updated in place, cleared
 when another session begins.
 */
module CaptureMeter {
  import opened Wrappers
  import opened CaptureErasure

  class ErasureMeter {
    var sessionId: Option<string>
    var presented: map<LaneKey, string>
    var laneLanguage: map<LaneKey, string>
    var totals: map<string, LaneTotals>

    function View(): Meter
      reads this
    {
      Meter(presented, laneLanguage, totals)
    }

    ghost predicate Valid()
      reads this
    {
      Exact(View()) && (sessionId.None? ==> View() == EMPTY_METER)
    }

    constructor ()
      ensures Valid() && sessionId.None?
    {
      sessionId, presented, laneLanguage, totals := None, map[], map[], map[];
      new;
      EmptyIsExact();
    }

    /** Hands out the totals of the session that ends and clears everything. */
    method FinishSession() returns (report: map<string, LaneTotals>)
      requires Valid()
      modifies this
      ensures Valid() && sessionId.None? && View() == EMPTY_METER
      ensures report == old(totals)
    {
      EmptyIsExact();
      if sessionId.None? {
        return map[];
      }
      report := totals;
      sessionId, presented, laneLanguage, totals := None, map[], map[], map[];
    }

    method RollSession(session: string)
      requires Valid()
      modifies this
      ensures Valid() && sessionId == Some(session)
      ensures View() == if old(sessionId) == Some(session) then old(View()) else EMPTY_METER
    {
      if sessionId != Some(session) {
        var _ := FinishSession();
        sessionId := Some(session);
      }
    }

    method MigrateLaneLanguage(key: LaneKey, language: string, laneChars: nat)
      modifies this`laneLanguage, this`totals
      ensures View() == Migrate(old(View()), key, language, laneChars)
    {
      if key !in laneLanguage || laneLanguage[key] == language {
        return;
      }
      var previous := laneLanguage[key];
      var moved := if previous in totals then Min(totals[previous].presented, laneChars) else 0;
      if previous in totals {
        totals := totals[previous := totals[previous].(presented := totals[previous].presented - moved)];
      }
      var target := if language in totals then totals[language] else NO_TOTALS;
      totals := totals[language := target.(presented := target.presented + moved)];
      laneLanguage := laneLanguage[key := language];
    }

    method RecordLane(key: LaneKey, language: string, text: string)
      requires Valid() && sessionId.Some?
      modifies this`presented, this`laneLanguage, this`totals
      ensures Valid()
      ensures View() == Record(old(View()), key, language, text)
    {
      RecordIsExact(View(), key, language, text);
      UpdateLane(key, language, text);
    }

    method UpdateLane(key: LaneKey, language: string, text: string)
      modifies this`presented, this`laneLanguage, this`totals
      ensures View() == Record(old(View()), key, language, text)
    {
      var previous := if key in presented then presented[key] else "";
      MigrateLaneLanguage(key, language, |previous|);
      if previous == text {
        return;
      }
      var common := CommonPrefixChars(previous, text);
      var erased := |previous| - common;
      var appended := |text| - common;
      var t := if language in totals then totals[language] else NO_TOTALS;
      totals := totals[language := LaneTotals(t.updates + 1, t.erased + erased, t.appended + appended,
                                              SaturatingSub(t.presented, |previous|) + |text|)];
      presented := presented[key := text];
      laneLanguage := laneLanguage[key := language];
    }

    method AbsorbVariants(u: Utterance)
      requires Valid() && sessionId.Some?
      modifies this`presented, this`laneLanguage, this`totals
      ensures Valid()
      ensures View() == RecordAll(old(View()), VariantUpdates(u, |u.variants|))
    {
      ghost var before := View();
      var i := 0;
      while i < |u.variants|
        invariant 0 <= i <= |u.variants|
        invariant Valid()
        invariant View() == RecordAll(before, VariantUpdates(u, i))
      {
        var v := u.variants[i];
        if v.text.Some? && v.text.value != "" {
          RecordAllAppend(before, VariantUpdates(u, i), VariantUpdate(u, v)[0]);
          if v.role == "source" {
            RecordLane(LaneKey(u.sequence, SOURCE_ROLE_KEY), OrElse(u.provisionalSourceLanguage, v.language), v.text.value);
          } else {
            RecordLane(LaneKey(u.sequence, v.language), v.language, v.text.value);
          }
        } else {
          assert VariantUpdates(u, i + 1) == VariantUpdates(u, i);
        }
        i := i + 1;
      }
    }

    method AbsorbAggregate(u: Utterance)
      requires Valid() && sessionId.Some? && u.variants == []
      modifies this`presented, this`laneLanguage, this`totals
      ensures Valid()
      ensures View() == Absorb(old(View()), u)
    {
      AggregateInTurn(View(), u);
      if u.sourceText != "" {
        RecordLane(LaneKey(u.sequence, SOURCE_ROLE_KEY), OrElse(u.provisionalSourceLanguage, u.sourceLanguage), u.sourceText);
      }
      if u.translatedLanguage.Some? && u.translatedText.Some? && u.translatedText.value != "" {
        RecordLane(LaneKey(u.sequence, u.translatedLanguage.value), u.translatedLanguage.value, u.translatedText.value);
      }
    }

    /** The variants are what counts; a row without any is read from its
        aggregate fields. */
    method AbsorbUtterance(u: Utterance)
      requires Valid() && sessionId.Some?
      modifies this`presented, this`laneLanguage, this`totals
      ensures Valid()
      ensures View() == Absorb(old(View()), u)
    {
      if u.variants == [] {
        AbsorbAggregate(u);
      } else {
        AbsorbVariants(u);
      }
    }

    /** A durable event or a preview: every row of it, within its session. */
    method AbsorbEvent(session: string, utterances: seq<Utterance>)
      requires Valid()
      modifies this
      ensures Valid() && sessionId == Some(session)
      ensures View() == AbsorbAll(if old(sessionId) == Some(session) then old(View()) else EMPTY_METER, utterances)
    {
      RollSession(session);
      ghost var start := View();
      var i := 0;
      while i < |utterances|
        invariant 0 <= i <= |utterances|
        invariant Valid() && sessionId == Some(session)
        invariant View() == AbsorbAll(start, utterances[..i])
      {
        AbsorbUtterance(utterances[i]);
        assert utterances[..i + 1][..i] == utterances[..i];
        i := i + 1;
      }
      assert utterances[..i] == utterances;
    }
  }

  /** Counts the leading characters two texts share. */
  method CommonPrefixChars(left: string, right: string) returns (n: nat)
    ensures n == CommonPrefix(left, right)
  {
    n := 0;
    while n < |left| && n < |right| && left[n] == right[n]
      invariant n <= |left| && n <= |right| && left[..n] == right[..n]
    {
      n := n + 1;
    }
    LongestPrefixIsUnique(left, right, n, CommonPrefix(left, right));
  }

  lemma LongestPrefixIsUnique(a: string, b: string, m: nat, n: nat)
    requires m <= |a| && m <= |b| && a[..m] == b[..m] && (m < |a| && m < |b| ==> a[m] != b[m])
    requires n <= |a| && n <= |b| && a[..n] == b[..n] && (n < |a| && n < |b| ==> a[n] != b[n])
    ensures m == n
  {
    assert forall k :: 0 <= k < n ==> a[..n][k] == a[k] && b[..n][k] == b[k];
    assert forall k :: 0 <= k < m ==> a[..m][k] == a[k] && b[..m][k] == b[k];
  }

  function AbsorbAll(m: Meter, utterances: seq<Utterance>): Meter {
    if utterances == [] then m
    else Absorb(AbsorbAll(m, utterances[..|utterances| - 1]), utterances[|utterances| - 1])
  }

  /** A row without variants: its source text, then its translation. */
  lemma AggregateInTurn(m: Meter, u: Utterance)
    requires u.variants == []
    ensures var first := if u.sourceText == "" then m
                         else Record(m, LaneKey(u.sequence, SOURCE_ROLE_KEY),
                                     OrElse(u.provisionalSourceLanguage, u.sourceLanguage), u.sourceText);
            Absorb(m, u)
              == if u.translatedLanguage.Some? && u.translatedText.Some? && u.translatedText.value != ""
                 then Record(first, LaneKey(u.sequence, u.translatedLanguage.value), u.translatedLanguage.value, u.translatedText.value)
                 else first
  {
    var source := if u.sourceText == "" then [] else [Updates(u)[0]];
    if u.sourceText != "" {
      RecordAllAppend(m, [], Updates(u)[0]);
      assert [] + [Updates(u)[0]] == source;
    }
    if u.translatedLanguage.Some? && u.translatedText.Some? && u.translatedText.value != "" {
      RecordAllAppend(m, source, Updates(u)[|source|]);
      assert Updates(u) == source + [Updates(u)[|source|]];
    } else {
      assert Updates(u) == source;
    }
  }

  lemma RecordAllAppend(m: Meter, updates: seq<Update>, u: Update)
    ensures RecordAll(m, updates + [u]) == Record(RecordAll(m, updates), u.key, u.language, u.text)
  {
    assert (updates + [u])[..|updates|] == updates;
  }
}
