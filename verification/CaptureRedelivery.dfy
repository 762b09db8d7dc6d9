/** When delivering a row again leaves the erasure meter as it is. */
module CaptureRedelivery {
  import opened Wrappers
  import opened MapSums
  import opened CaptureErasure

  /** No lane of the row is given two texts. */
  ghost predicate OneTextPerLane(updates: seq<Update>) {
    forall i, j :: 0 <= i < |updates| && 0 <= j < |updates| && updates[i].key == updates[j].key
      ==> updates[i].text == updates[j].text
  }

  ghost predicate HaveText(updates: seq<Update>) {
    forall i :: 0 <= i < |updates| ==> updates[i].text != ""
  }

  /** Every update repeats what its lane shows. */
  ghost predicate Repeats(m: Meter, updates: seq<Update>) {
    forall i :: 0 <= i < |updates| ==> TextOf(m, updates[i].key) == updates[i].text
  }

  function Last(updates: seq<Update>): Update
    requires updates != []
  {
    updates[|updates| - 1]
  }

  function Front(updates: seq<Update>): seq<Update>
    requires updates != []
  {
    updates[..|updates| - 1]
  }

  function Step(m: Meter, u: Update): Meter { Record(m, u.key, u.language, u.text) }

  lemma RecordAllStep(m: Meter, updates: seq<Update>)
    requires updates != []
    ensures RecordAll(m, updates) == Step(RecordAll(m, Front(updates)), Last(updates))
  {
  }

  // ------------------------------------------------- what a change leaves behind

  function UpdatesOf(totals: map<string, LaneTotals>): map<string, int> {
    map l | l in totals :: totals[l].updates as int
  }

  /** All changes of any lane's text so far. */
  ghost function Changes(m: Meter): int { SumMap(UpdatesOf(m.totals)) }

  lemma ChangesOfAdd(totals: map<string, LaneTotals>, language: string, t: LaneTotals)
    ensures SumMap(UpdatesOf(totals[language := t]))
         == SumMap(UpdatesOf(totals)) - TotalsOf(totals, language).updates + t.updates
  {
    assert UpdatesOf(totals[language := t]) == UpdatesOf(totals)[language := t.updates as int];
    SumMapUpdate(UpdatesOf(totals), language, t.updates as int);
  }

  lemma MigrationChangesNothing(m: Meter, key: LaneKey, language: string, laneChars: nat)
    ensures Changes(Migrate(m, key, language, laneChars)) == Changes(m)
    ensures Migrate(m, key, language, laneChars).presented == m.presented
  {
    if key in m.laneLanguage && m.laneLanguage[key] != language {
      var from := m.laneLanguage[key];
      var moved := Movable(m.totals, from, laneChars);
      var taken := TakeFrom(m.totals, from, moved);
      if from in m.totals {
        ChangesOfAdd(m.totals, from, m.totals[from].(presented := m.totals[from].presented - moved));
      }
      ChangesOfAdd(taken, language, TotalsOf(taken, language).(presented := TotalsOf(taken, language).presented + moved));
    }
  }

  lemma StepCounts(m: Meter, u: Update)
    ensures Changes(Step(m, u)) == Changes(m) + (if TextOf(m, u.key) == u.text then 0 else 1)
    ensures TextOf(m, u.key) == u.text ==> Step(m, u).presented == m.presented
  {
    var migrated := Migrate(m, u.key, u.language, |TextOf(m, u.key)|);
    MigrationChangesNothing(m, u.key, u.language, |TextOf(m, u.key)|);
    if TextOf(m, u.key) != u.text {
      ChangesOfAdd(migrated.totals, u.language, TotalsOf(Step(m, u).totals, u.language));
    }
  }

  lemma {:induction false} RunsOnlyCountUp(m: Meter, updates: seq<Update>)
    ensures Changes(RecordAll(m, updates)) >= Changes(m)
    ensures Changes(RecordAll(m, updates)) == Changes(m) ==>
              Repeats(m, updates) && RecordAll(m, updates).presented == m.presented
  {
    if updates != [] {
      RunsOnlyCountUp(m, Front(updates));
      StepCounts(RecordAll(m, Front(updates)), Last(updates));
      RecordAllStep(m, updates);
    }
  }

  // -------------------------------------------------------- what repeating keeps

  lemma {:induction false} RepeatingKeepsTexts(m: Meter, updates: seq<Update>)
    requires Repeats(m, updates)
    ensures RecordAll(m, updates).presented == m.presented
  {
    if updates != [] {
      RepeatingKeepsTexts(m, Front(updates));
      StepCounts(RecordAll(m, Front(updates)), Last(updates));
      RecordAllStep(m, updates);
    }
  }

  /** The last language a row gives a lane. */
  function LastLanguage(updates: seq<Update>, key: LaneKey): Option<string> {
    if updates == [] then None
    else if Last(updates).key == key then Some(Last(updates).language)
    else LastLanguage(Front(updates), key)
  }

  function LanguageAfter(m: Meter, updates: seq<Update>, key: LaneKey): Option<string> {
    match LastLanguage(updates, key)
    case Some(l) => Some(l)
    case None => if key in m.laneLanguage then Some(m.laneLanguage[key]) else None
  }

  function LanguageOf(m: Meter, key: LaneKey): Option<string> {
    if key in m.laneLanguage then Some(m.laneLanguage[key]) else None
  }

  lemma {:induction false} LanguagesAfter(m: Meter, updates: seq<Update>, key: LaneKey)
    requires m.presented.Keys == m.laneLanguage.Keys && HaveText(updates)
    ensures RecordAll(m, updates).presented.Keys == RecordAll(m, updates).laneLanguage.Keys
    ensures LanguageOf(RecordAll(m, updates), key) == LanguageAfter(m, updates, key)
  {
    if updates != [] {
      assert HaveText(Front(updates)) by {
        assert forall i :: 0 <= i < |Front(updates)| ==> Front(updates)[i] == updates[i];
      }
      LanguagesAfter(m, Front(updates), key);
      RecordAllStep(m, updates);
      assert Last(updates).text != "";
    }
  }

  /** What a language has been charged, apart from what it shows now. */
  predicate SameCharges(a: LaneTotals, b: LaneTotals) {
    a.updates == b.updates && a.erased == b.erased && a.appended == b.appended
  }

  lemma MigrationKeepsCharges(m: Meter, key: LaneKey, language: string, laneChars: nat, l: string)
    ensures SameCharges(TotalsOf(Migrate(m, key, language, laneChars).totals, l), TotalsOf(m.totals, l))
    ensures l in m.totals ==> l in Migrate(m, key, language, laneChars).totals
    ensures l in Migrate(m, key, language, laneChars).totals ==> l in m.totals || l == language
  {
  }

  lemma {:induction false} RepeatingKeepsCharges(m: Meter, updates: seq<Update>, l: string)
    requires Repeats(m, updates)
    ensures SameCharges(TotalsOf(RecordAll(m, updates).totals, l), TotalsOf(m.totals, l))
    ensures l in m.totals ==> l in RecordAll(m, updates).totals
    ensures l in RecordAll(m, updates).totals ==> l in m.totals || exists i :: 0 <= i < |updates| && updates[i].language == l
  {
    if updates != [] {
      var before, u := RecordAll(m, Front(updates)), Last(updates);
      RepeatingKeepsCharges(m, Front(updates), l);
      RepeatingKeepsTexts(m, Front(updates));
      RecordAllStep(m, updates);
      MigrationKeepsCharges(before, u.key, u.language, |TextOf(before, u.key)|, l);
      assert forall i :: 0 <= i < |Front(updates)| ==> Front(updates)[i] == updates[i];
      assert updates[|updates| - 1].language == u.language;
    }
  }

  // ----------------------------------------------------- languages are accounted

  lemma StepNamesLanguage(m: Meter, u: Update)
    requires Exact(m) && u.text != ""
    ensures u.language in Step(m, u).totals
    ensures m.totals.Keys <= Step(m, u).totals.Keys
  {
    if TextOf(m, u.key) == u.text && m.laneLanguage[u.key] == u.language {
      LaneWithinCount(m, u.key);
    }
  }

  ghost predicate Named(m: Meter, updates: seq<Update>) {
    forall i :: 0 <= i < |updates| ==> updates[i].language in m.totals
  }

  lemma NamedNext(m: Meter, m': Meter, updates: seq<Update>)
    requires updates != [] && Named(m, Front(updates)) && m.totals.Keys <= m'.totals.Keys && Last(updates).language in m'.totals
    ensures Named(m', updates)
  {
    forall i | 0 <= i < |updates| ensures updates[i].language in m'.totals {
      if i < |updates| - 1 { assert Front(updates)[i] == updates[i]; }
    }
  }

  lemma {:induction false} RunNamesLanguages(m: Meter, updates: seq<Update>)
    requires Exact(m) && HaveText(updates)
    ensures m.totals.Keys <= RecordAll(m, updates).totals.Keys && Named(RecordAll(m, updates), updates)
  {
    if updates != [] {
      assert forall i :: 0 <= i < |Front(updates)| ==> Front(updates)[i] == updates[i];
      RunNamesLanguages(m, Front(updates));
      EveryRunIsExact(m, Front(updates));
      RecordAllStep(m, updates);
      StepNamesLanguage(RecordAll(m, Front(updates)), Last(updates));
      NamedNext(RecordAll(m, Front(updates)), RecordAll(m, updates), updates);
    }
  }

  // ---------------------------------------------------------------- the shown row

  /** After a row that gives no lane two texts, it repeats what is shown. */
  lemma {:induction false} RunShowsTexts(m: Meter, updates: seq<Update>)
    requires m.presented.Keys == m.laneLanguage.Keys && OneTextPerLane(updates) && HaveText(updates)
    ensures Repeats(RecordAll(m, updates), updates)
  {
    if updates != [] {
      var front := Front(updates);
      assert forall i :: 0 <= i < |front| ==> front[i] == updates[i];
      RunShowsTexts(m, front);
      RecordAllStep(m, updates);
      forall i | 0 <= i < |updates| ensures TextOf(RecordAll(m, updates), updates[i].key) == updates[i].text {
        StepShows(RecordAll(m, front), Last(updates), updates[i].key);
        if updates[i].key != Last(updates).key {
          assert i < |front|;
        }
      }
    }
  }

  lemma StepShows(m: Meter, u: Update, key: LaneKey)
    ensures TextOf(Step(m, u), key) == if key == u.key then u.text else TextOf(m, key)
  {
  }

  /** Repeating a row that is shown, in the order in which it came, changes nothing,
      even if it moves a lane between languages on the way. */
  lemma RepeatingIsFree(m: Meter, updates: seq<Update>)
    requires Exact(m) && HaveText(updates) && Repeats(m, updates)
    requires forall i :: 0 <= i < |updates| ==> updates[i].language in m.totals
    requires forall key :: LanguageAfter(m, updates, key) == LanguageOf(m, key)
    ensures RecordAll(m, updates) == m
  {
    var after := RecordAll(m, updates);
    RepeatingKeepsTexts(m, updates);
    EveryRunIsExact(m, updates);
    forall key ensures LanguageOf(after, key) == LanguageOf(m, key) {
      LanguagesAfter(m, updates, key);
    }
    SameLanguages(m, after);
    forall l ensures (l in after.totals <==> l in m.totals) && TotalsOf(after.totals, l) == TotalsOf(m.totals, l) {
      RepeatingKeepsCharges(m, updates, l);
      assert Lengths(after, l) == Lengths(m, l);
    }
    SameTotals(m.totals, after.totals);
  }

  lemma SameLanguages(a: Meter, b: Meter)
    requires forall key :: LanguageOf(a, key) == LanguageOf(b, key)
    ensures a.laneLanguage == b.laneLanguage
  {
    assert forall key :: key in a.laneLanguage <==> LanguageOf(a, key).Some?;
    assert forall key :: key in b.laneLanguage <==> LanguageOf(b, key).Some?;
    assert forall key :: key in a.laneLanguage ==> LanguageOf(a, key) == Some(a.laneLanguage[key]);
    assert forall key :: key in b.laneLanguage ==> LanguageOf(b, key) == Some(b.laneLanguage[key]);
  }

  lemma SameTotals(a: map<string, LaneTotals>, b: map<string, LaneTotals>)
    requires forall l :: (l in a <==> l in b) && TotalsOf(a, l) == TotalsOf(b, l)
    ensures a == b
  {
    forall l | l in a ensures l in b && a[l] == b[l] {
      assert TotalsOf(a, l) == TotalsOf(b, l);
    }
    assert a.Keys == b.Keys by {
      assert forall l :: l in b ==> l in a by {
        forall l | l in b ensures l in a { assert TotalsOf(a, l) == TotalsOf(b, l); }
      }
    }
  }

  lemma LanguageStays(m: Meter, updates: seq<Update>, key: LaneKey)
    requires m.presented.Keys == m.laneLanguage.Keys && HaveText(updates)
    ensures LanguageAfter(RecordAll(m, updates), updates, key) == LanguageOf(RecordAll(m, updates), key)
  {
    LanguagesAfter(m, updates, key);
  }

  /** Delivering a row again changes nothing exactly when the row gives no lane two
      texts. */
  lemma RedeliveryIsFreeIff(m: Meter, u: Utterance)
    requires Exact(m)
    ensures Absorb(Absorb(m, u), u) == Absorb(m, u) <==> OneTextPerLane(Updates(u))
  {
    var updates, shown := Updates(u), Absorb(m, u);
    UpdatesHaveText(u);
    if OneTextPerLane(updates) {
      EveryRunIsExact(m, updates);
      RunShowsTexts(m, updates);
      RunNamesLanguages(m, updates);
      forall key ensures LanguageAfter(shown, updates, key) == LanguageOf(shown, key) {
        LanguageStays(m, updates, key);
      }
      RepeatingIsFree(shown, updates);
    } else if Absorb(shown, u) == shown {
      RunsOnlyCountUp(shown, updates);
    }
  }

  /** A row that gives one language two texts. */
  function TwoTexts(sequence: nat, language: string, role: string, first: string, second: string): Utterance {
    Utterance(sequence, None, "", "", None, None, [Variant(language, role, Some(first)), Variant(language, role, Some(second))])
  }

  lemma TwoTextsUpdate(sequence: nat, language: string, role: string, first: string, second: string)
    requires first != "" && second != "" && role != "source"
    ensures var key := LaneKey(sequence, language);
            Updates(TwoTexts(sequence, language, role, first, second))
              == [Update(key, language, first), Update(key, language, second)]
  {
    var u := TwoTexts(sequence, language, role, first, second);
    assert VariantUpdates(u, 0) == [];
    assert VariantUpdates(u, 1) == [] + VariantUpdate(u, u.variants[0]);
    assert VariantUpdates(u, 2) == VariantUpdates(u, 1) + VariantUpdate(u, u.variants[1]);
  }

  /** Such a row is scored again whenever it is delivered again: both of its texts
      count as changes of the lane. */
  lemma TwoTextsAreScoredAgain(m: Meter, sequence: nat, language: string, role: string, first: string, second: string)
    requires Exact(m) && first != "" && second != "" && first != second && role != "source"
    ensures var u := TwoTexts(sequence, language, role, first, second);
            && !OneTextPerLane(Updates(u))
            && Changes(Absorb(Absorb(m, u), u)) == Changes(Absorb(m, u)) + 2
            && Absorb(Absorb(m, u), u) != Absorb(m, u)
  {
    var u := TwoTexts(sequence, language, role, first, second);
    var a, b := Update(LaneKey(sequence, language), language, first), Update(LaneKey(sequence, language), language, second);
    TwoTextsUpdate(sequence, language, role, first, second);
    assert Updates(u)[0] == a && Updates(u)[1] == b;
    BothSteps(m, a, b);
    BothSteps(Absorb(m, u), a, b);
    var shown := Absorb(m, u);
    StepShows(Step(m, a), b, b.key);
    StepCounts(shown, a);
    StepShows(shown, a, b.key);
    StepCounts(Step(shown, a), b);
  }

  lemma BothSteps(m: Meter, a: Update, b: Update)
    ensures RecordAll(m, [a, b]) == Step(Step(m, a), b)
  {
    RecordAllStep(m, [a, b]);
    assert Front([a, b]) == [a];
    RecordAllStep(m, [a]);
    assert Front([a]) == [];
  }
}
