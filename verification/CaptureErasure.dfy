/**
 The caption erasure meter: how many presented characters later updates removed,
 per language, over lanes of text that may change language.
 */
module CaptureErasure {
  import opened Wrappers
  import opened MapSums

  const SOURCE_ROLE_KEY := "#source"

  datatype LaneKey = LaneKey(sequence: nat, role: string)

  datatype LaneTotals = LaneTotals(updates: nat, erased: int, appended: int, presented: int)

  const NO_TOTALS := LaneTotals(0, 0, 0, 0)

  datatype Meter = Meter(presented: map<LaneKey, string>, laneLanguage: map<LaneKey, string>, totals: map<string, LaneTotals>)

  const EMPTY_METER := Meter(map[], map[], map[])

  function Min(a: int, b: int): int { if a <= b then a else b }

  /** The unsigned difference that stops at zero. */
  function SaturatingSub(a: int, b: int): int { if a >= b then a - b else 0 }

  function TotalsOf(totals: map<string, LaneTotals>, language: string): LaneTotals {
    if language in totals then totals[language] else NO_TOTALS
  }

  function TextOf(m: Meter, key: LaneKey): string {
    if key in m.presented then m.presented[key] else ""
  }

  /** The number of leading characters two texts share: the most they share. */
  function CommonPrefix(a: string, b: string): (n: nat)
    ensures n <= |a| && n <= |b| && a[..n] == b[..n]
    ensures n < |a| && n < |b| ==> a[n] != b[n]
  {
    if a == "" || b == "" || a[0] != b[0] then 0
    else
      var n := 1 + CommonPrefix(a[1..], b[1..]);
      assert a[..n] == [a[0]] + a[1..][..n - 1];
      assert b[..n] == [b[0]] + b[1..][..n - 1];
      n
  }

  // ---------------------------------------------------------------- one update

  function AddTo(totals: map<string, LaneTotals>, language: string, n: int): map<string, LaneTotals> {
    totals[language := TotalsOf(totals, language).(presented := TotalsOf(totals, language).presented + n)]
  }

  function Movable(totals: map<string, LaneTotals>, from: string, laneChars: nat): int {
    if from in totals then Min(totals[from].presented, laneChars) else 0
  }

  function TakeFrom(totals: map<string, LaneTotals>, from: string, n: int): map<string, LaneTotals> {
    if from in totals then AddTo(totals, from, -n) else totals
  }

  /** Takes up to `laneChars` presented characters from one language to another. */
  function MovePresented(totals: map<string, LaneTotals>, from: string, to: string, laneChars: nat): map<string, LaneTotals> {
    var moved := Movable(totals, from, laneChars);
    AddTo(TakeFrom(totals, from, moved), to, moved)
  }

  /** Moves a lane's counted characters to the language it now belongs to. */
  function Migrate(m: Meter, key: LaneKey, language: string, laneChars: nat): Meter {
    if key !in m.laneLanguage || m.laneLanguage[key] == language then m
    else
      Meter(m.presented, m.laneLanguage[key := language],
            MovePresented(m.totals, m.laneLanguage[key], language, laneChars))
  }

  /** Replaces a lane's text and scores what that removed and added. */
  function Record(m: Meter, key: LaneKey, language: string, text: string): Meter {
    var previous := TextOf(m, key);
    var migrated := Migrate(m, key, language, |previous|);
    if previous == text then migrated
    else
      var common := CommonPrefix(previous, text);
      var t := TotalsOf(migrated.totals, language);
      Meter(migrated.presented[key := text], migrated.laneLanguage[key := language],
            migrated.totals[language := LaneTotals(
              t.updates + 1, t.erased + (|previous| - common), t.appended + (|text| - common),
              SaturatingSub(t.presented, |previous|) + |text|)])
  }

  // ------------------------------------------------------------- the accounts

  /** What each lane contributes to a language's presented characters. */
  function Lengths(m: Meter, language: string): map<LaneKey, int> {
    map key | key in m.presented :: if key in m.laneLanguage && m.laneLanguage[key] == language then |m.presented[key]| else 0
  }

  function PresentedOf(totals: map<string, LaneTotals>): map<string, int> {
    map l | l in totals :: totals[l].presented
  }

  function NetOf(totals: map<string, LaneTotals>): map<string, int> {
    map l | l in totals :: totals[l].appended - totals[l].erased
  }

  function ErasedOf(totals: map<string, LaneTotals>): map<string, int> {
    map l | l in totals :: totals[l].erased
  }

  /** Every language's count is the length of the lanes it now has. */
  ghost predicate CountsLanes(m: Meter) {
    && m.presented.Keys == m.laneLanguage.Keys
    && (forall language {:trigger Lengths(m, language)} ::
          SumMap(Lengths(m, language)) == TotalsOf(m.totals, language).presented)
  }

  /** What is presented in all is what was appended in all minus what was erased. */
  ghost predicate Balances(m: Meter) {
    SumMap(PresentedOf(m.totals)) == SumMap(NetOf(m.totals))
  }

  ghost predicate Exact(m: Meter) { CountsLanes(m) && Balances(m) }

  lemma EmptyIsExact()
    ensures Exact(EMPTY_METER)
  {
    forall language ensures SumMap(Lengths(EMPTY_METER, language)) == TotalsOf(EMPTY_METER.totals, language).presented {
      assert Lengths(EMPTY_METER, language) == map[];
    }
    assert PresentedOf(EMPTY_METER.totals) == map[] && NetOf(EMPTY_METER.totals) == map[];
  }

  /** A lane's length is part of its language's count. */
  lemma LaneWithinCount(m: Meter, key: LaneKey)
    requires CountsLanes(m) && key in m.presented
    ensures |m.presented[key]| <= TotalsOf(m.totals, m.laneLanguage[key]).presented
    ensures m.presented[key] != "" ==> m.laneLanguage[key] in m.totals
  {
    var lengths := Lengths(m, m.laneLanguage[key]);
    SumMapNatural(lengths);
    assert lengths[key] == |m.presented[key]|;
  }

  /** Changing one language's totals moves each sum by that change. */
  lemma SumsAfterChange(totals: map<string, LaneTotals>, language: string, t: LaneTotals)
    ensures var old_ := TotalsOf(totals, language);
            && SumMap(PresentedOf(totals[language := t])) == SumMap(PresentedOf(totals)) - old_.presented + t.presented
            && SumMap(NetOf(totals[language := t])) == SumMap(NetOf(totals)) - (old_.appended - old_.erased) + (t.appended - t.erased)
            && SumMap(ErasedOf(totals[language := t])) == SumMap(ErasedOf(totals)) - old_.erased + t.erased
  {
    assert PresentedOf(totals[language := t]) == PresentedOf(totals)[language := t.presented];
    assert NetOf(totals[language := t]) == NetOf(totals)[language := t.appended - t.erased];
    assert ErasedOf(totals[language := t]) == ErasedOf(totals)[language := t.erased];
    SumMapUpdate(PresentedOf(totals), language, t.presented);
    SumMapUpdate(NetOf(totals), language, t.appended - t.erased);
    SumMapUpdate(ErasedOf(totals), language, t.erased);
  }

  /** Giving one lane a text and a language moves exactly its own contribution. */
  lemma LengthsAfterChange(m: Meter, m': Meter, key: LaneKey, language: string)
    requires m.presented.Keys == m.laneLanguage.Keys && m'.presented.Keys == m'.laneLanguage.Keys
    requires key in m'.presented
    requires m'.presented == m.presented[key := m'.presented[key]]
    requires m'.laneLanguage == m.laneLanguage[key := m'.laneLanguage[key]]
    ensures SumMap(Lengths(m', language)) == SumMap(Lengths(m, language))
              - (if key in m.presented && m.laneLanguage[key] == language then |m.presented[key]| else 0)
              + (if m'.laneLanguage[key] == language then |m'.presented[key]| else 0)
  {
    var new_ := if m'.laneLanguage[key] == language then |m'.presented[key]| else 0;
    assert Lengths(m', language) == Lengths(m, language)[key := new_];
    SumMapUpdate(Lengths(m, language), key, new_);
  }

  /** What a migration does to every language's totals: all of the lane moves, so
      the minimum never clips, and nothing counts as erased or appended. */
  lemma MigrationMovesWholeLane(m: Meter, key: LaneKey, language: string, l: string)
    requires CountsLanes(m)
    ensures var n := |TextOf(m, key)|;
            var rehomed := key in m.laneLanguage && m.laneLanguage[key] != language;
            var before, after := TotalsOf(m.totals, l), TotalsOf(Migrate(m, key, language, n).totals, l);
            && after.erased == before.erased && after.appended == before.appended && after.updates == before.updates
            && after.presented == before.presented
                 - (if rehomed && l == m.laneLanguage[key] then n else 0) + (if rehomed && l == language then n else 0)
  {
    if key in m.laneLanguage { LaneWithinCount(m, key); }
  }

  lemma MigrationCountsLanes(m: Meter, key: LaneKey, language: string)
    requires CountsLanes(m)
    ensures var m' := Migrate(m, key, language, |TextOf(m, key)|);
            && CountsLanes(m') && m'.presented == m.presented
            && (key in m.laneLanguage ==> m'.laneLanguage == m.laneLanguage[key := language])
            && (key !in m.laneLanguage ==> m'.laneLanguage == m.laneLanguage)
  {
    var m' := Migrate(m, key, language, |TextOf(m, key)|);
    if key in m.laneLanguage {
      assert m'.laneLanguage == m.laneLanguage[key := language];
      assert m'.presented == m.presented[key := m'.presented[key]];
      forall l ensures SumMap(Lengths(m', l)) == TotalsOf(m'.totals, l).presented {
        MigrationMovesWholeLane(m, key, language, l);
        LengthsAfterChange(m, m', key, l);
        assert SumMap(Lengths(m, l)) == TotalsOf(m.totals, l).presented;
      }
    }
  }

  /** The three sums over all languages. */
  datatype Account = Account(presented: int, net: int, erased: int)

  ghost function Accounts(totals: map<string, LaneTotals>): Account {
    Account(SumMap(PresentedOf(totals)), SumMap(NetOf(totals)), SumMap(ErasedOf(totals)))
  }

  /** Adding to one entry's presented characters changes that sum by as many, and
      no other. */
  lemma AddPresented(totals: map<string, LaneTotals>, language: string, n: int)
    ensures Accounts(AddTo(totals, language, n)) == Accounts(totals).(presented := Accounts(totals).presented + n)
  {
    SumsAfterChange(totals, language, TotalsOf(totals, language).(presented := TotalsOf(totals, language).presented + n));
  }

  lemma TakePresented(totals: map<string, LaneTotals>, from: string, n: int)
    requires from !in totals ==> n == 0
    ensures Accounts(TakeFrom(totals, from, n)) == Accounts(totals).(presented := Accounts(totals).presented - n)
  {
    if from in totals { AddPresented(totals, from, -n); }
  }

  lemma MoveBalances(totals: map<string, LaneTotals>, from: string, to: string, n: nat)
    ensures Accounts(MovePresented(totals, from, to, n)) == Accounts(totals)
  {
    var moved := Movable(totals, from, n);
    TakePresented(totals, from, moved);
    AddPresented(TakeFrom(totals, from, moved), to, moved);
  }

  lemma MigrationBalances(m: Meter, key: LaneKey, language: string)
    requires Exact(m)
    ensures Balances(Migrate(m, key, language, |TextOf(m, key)|))
    ensures SumMap(ErasedOf(Migrate(m, key, language, |TextOf(m, key)|).totals)) == SumMap(ErasedOf(m.totals))
  {
    if key in m.laneLanguage {
      MoveBalances(m.totals, m.laneLanguage[key], language, |TextOf(m, key)|);
    }
  }

  /** What an update does to every language's totals: the saturating difference
      never clips, and the language is charged what the update really removed. */
  lemma RecordCharges(m: Meter, key: LaneKey, language: string, text: string, l: string)
    requires CountsLanes(m)
    ensures var previous := TextOf(m, key);
            var mid := Migrate(m, key, language, |previous|);
            var before, after := TotalsOf(mid.totals, l), TotalsOf(Record(m, key, language, text).totals, l);
            if previous == text || l != language then after == before
            else
              && after.erased == before.erased + (|previous| - CommonPrefix(previous, text))
              && after.appended == before.appended + (|text| - CommonPrefix(previous, text))
              && after.presented == before.presented - |previous| + |text|
  {
    MigrationCountsLanes(m, key, language);
    var mid := Migrate(m, key, language, |TextOf(m, key)|);
    if key in mid.presented { LaneWithinCount(mid, key); }
    SumMapNatural(Lengths(mid, language));
  }

  lemma RecordCountsLanes(m: Meter, key: LaneKey, language: string, text: string)
    requires CountsLanes(m)
    ensures CountsLanes(Record(m, key, language, text)) && TextOf(Record(m, key, language, text), key) == text
  {
    var mid := Migrate(m, key, language, |TextOf(m, key)|);
    var m' := Record(m, key, language, text);
    MigrationCountsLanes(m, key, language);
    if TextOf(m, key) != text {
      forall l ensures SumMap(Lengths(m', l)) == TotalsOf(m'.totals, l).presented {
        RecordCharges(m, key, language, text, l);
        LengthsAfterChange(mid, m', key, l);
        assert SumMap(Lengths(mid, l)) == TotalsOf(mid.totals, l).presented;
      }
    }
  }

  /** An update keeps the accounts exact, and charges all languages together
      exactly what it removed: re-homing the same text charges nothing. */
  lemma RecordIsExact(m: Meter, key: LaneKey, language: string, text: string)
    requires Exact(m)
    ensures Exact(Record(m, key, language, text))
    ensures SumMap(ErasedOf(Record(m, key, language, text).totals))
         == SumMap(ErasedOf(m.totals)) + |TextOf(m, key)| - CommonPrefix(TextOf(m, key), text)
  {
    RecordCountsLanes(m, key, language, text);
    MigrationBalances(m, key, language);
    var previous := TextOf(m, key);
    var mid := Migrate(m, key, language, |previous|);
    if previous != text {
      RecordCharges(m, key, language, text, language);
      SumsAfterChange(mid.totals, language, Record(m, key, language, text).totals[language]);
    }
  }

  /** An update scores no erasure exactly when the lane only grew at its end. */
  lemma NothingErasedIff(m: Meter, key: LaneKey, language: string, text: string)
    requires Exact(m)
    ensures SumMap(ErasedOf(Record(m, key, language, text).totals)) == SumMap(ErasedOf(m.totals))
       <==> TextOf(m, key) <= text
  {
    RecordIsExact(m, key, language, text);
    var previous := TextOf(m, key);
    assert previous <= text ==> forall k :: 0 <= k < |previous| ==> previous[k] == text[k];
  }

  // ------------------------------------------------------------- whole captures

  datatype Variant = Variant(language: string, role: string, text: Option<string>)

  datatype Utterance = Utterance(
    sequence: nat, provisionalSourceLanguage: Option<string>, sourceLanguage: string, sourceText: string,
    translatedLanguage: Option<string>, translatedText: Option<string>, variants: seq<Variant>)

  /** One lane update that a row asks for. */
  datatype Update = Update(key: LaneKey, language: string, text: string)

  function OrElse(o: Option<string>, default: string): string {
    match o case None => default case Some(v) => v
  }

  /** The lane updates of a row: its variants where it has any, and only then. */
  function Updates(u: Utterance): seq<Update> {
    if u.variants == [] then
      (if u.sourceText != "" then
         [Update(LaneKey(u.sequence, SOURCE_ROLE_KEY), OrElse(u.provisionalSourceLanguage, u.sourceLanguage), u.sourceText)]
       else [])
      + (if u.translatedLanguage.Some? && u.translatedText.Some? && u.translatedText.value != "" then
           [Update(LaneKey(u.sequence, u.translatedLanguage.value), u.translatedLanguage.value, u.translatedText.value)]
         else [])
    else VariantUpdates(u, |u.variants|)
  }

  function VariantUpdates(u: Utterance, n: nat): seq<Update>
    requires n <= |u.variants|
  {
    if n == 0 then [] else VariantUpdates(u, n - 1) + VariantUpdate(u, u.variants[n - 1])
  }

  function VariantUpdate(u: Utterance, v: Variant): seq<Update> {
    if v.text.None? || v.text.value == "" then []
    else if v.role == "source" then
      [Update(LaneKey(u.sequence, SOURCE_ROLE_KEY), OrElse(u.provisionalSourceLanguage, v.language), v.text.value)]
    else [Update(LaneKey(u.sequence, v.language), v.language, v.text.value)]
  }

  function RecordAll(m: Meter, updates: seq<Update>): Meter {
    if updates == [] then m
    else
      var u := updates[|updates| - 1];
      Record(RecordAll(m, updates[..|updates| - 1]), u.key, u.language, u.text)
  }

  function Absorb(m: Meter, u: Utterance): Meter { RecordAll(m, Updates(u)) }

  /** In every reachable state each language's count is the total length of the
      lanes now attributed to it, and all languages together present what was
      appended minus what was erased. */
  lemma {:induction false} EveryRunIsExact(m: Meter, updates: seq<Update>)
    requires Exact(m)
    ensures Exact(RecordAll(m, updates))
  {
    if updates != [] {
      var n := |updates| - 1;
      EveryRunIsExact(m, updates[..n]);
      RecordIsExact(RecordAll(m, updates[..n]), updates[n].key, updates[n].language, updates[n].text);
    }
  }

  lemma UpdatesHaveText(u: Utterance)
    ensures forall i :: 0 <= i < |Updates(u)| ==> Updates(u)[i].text != ""
  {
    if u.variants != [] { VariantUpdatesHaveText(u, |u.variants|); }
  }

  lemma {:induction false} VariantUpdatesHaveText(u: Utterance, n: nat)
    requires n <= |u.variants|
    ensures forall i :: 0 <= i < |VariantUpdates(u, n)| ==> VariantUpdates(u, n)[i].text != ""
  {
    if n > 0 { VariantUpdatesHaveText(u, n - 1); }
  }

  // ------------------------------------------------------- what one update comes to

  /** The first characters of two texts that are the same, as many as there are. */
  predicate Shares(a: string, b: string, n: int) {
    0 <= n <= |a| && n <= |b| && a[..n] == b[..n] && (n < |a| && n < |b| ==> a[n] != b[n])
  }

  /** After an update the lane holds the new text under the given language, and no
      other lane has changed. The same text again scores nothing; a different one is
      one more change of that language, in which what the texts do not share was
      erased and added. No other language's changes are touched. */
  lemma RecordComesTo(m: Meter, key: LaneKey, language: string, text: string)
    requires Exact(m)
    ensures var m', previous := Record(m, key, language, text), if key in m.presented then m.presented[key] else "";
      && (forall other :: other != key ==>
            && (other in m'.presented <==> other in m.presented) && (other in m'.laneLanguage <==> other in m.laneLanguage)
            && (other in m'.presented ==> m'.presented[other] == m.presented[other])
            && (other in m'.laneLanguage ==> m'.laneLanguage[other] == m.laneLanguage[other]))
      && (if previous == text then m'.presented == m.presented else key in m'.presented && m'.presented[key] == text)
      && (key in m'.laneLanguage <==> previous != text || key in m.laneLanguage)
      && (key in m'.laneLanguage ==> m'.laneLanguage[key] == language)
      && (forall l ::
            var before, after := TotalsOf(m.totals, l), TotalsOf(m'.totals, l);
            if l != language || previous == text
            then after.updates == before.updates && after.erased == before.erased && after.appended == before.appended
            else after.updates == before.updates + 1
                 && exists n :: Shares(previous, text, n)
                      && after.erased == before.erased + |previous| - n && after.appended == before.appended + |text| - n)
  {
    forall l
      ensures var m', previous := Record(m, key, language, text), if key in m.presented then m.presented[key] else "";
              var before, after := TotalsOf(m.totals, l), TotalsOf(m'.totals, l);
              if l != language || previous == text
              then after.updates == before.updates && after.erased == before.erased && after.appended == before.appended
              else after.updates == before.updates + 1
                   && exists n :: Shares(previous, text, n)
                        && after.erased == before.erased + |previous| - n && after.appended == before.appended + |text| - n
    {
      MovedKeepsCounts(m, key, language, l);
      var previous := TextOf(m, key);
      assert Shares(previous, text, CommonPrefix(previous, text));
    }
  }

  lemma MovedKeepsCounts(m: Meter, key: LaneKey, language: string, l: string)
    ensures var after, before := TotalsOf(Migrate(m, key, language, |TextOf(m, key)|).totals, l), TotalsOf(m.totals, l);
            after.updates == before.updates && after.erased == before.erased && after.appended == before.appended
  {
  }

  // ------------------------------------------------ which lane a text belongs to

  predicate IsTold(v: Variant) { v.text.Some? && v.text.value != "" }

  /** The variants of a row that have a text, in order. */
  function Told(variants: seq<Variant>): seq<Variant> {
    if variants == [] then []
    else Told(variants[..|variants| - 1]) + (if IsTold(variants[|variants| - 1]) then [variants[|variants| - 1]] else [])
  }

  /** The original speech is one lane whatever its language, which is the language
      heard so far, or else the text's own; each translation is the lane of its
      language. */
  predicate GoesTo(update: Update, sequence: nat, original: bool, heard: Option<string>, language: string, text: string) {
    && update.key.sequence == sequence && update.text == text
    && update.key.role == (if original then "#source" else language)
    && update.language == (if original && heard.Some? then heard.value else language)
  }

  lemma {:induction false} VariantUpdatesAre(u: Utterance, n: nat)
    requires n <= |u.variants|
    ensures var told, updates := Told(u.variants[..n]), VariantUpdates(u, n);
            && |updates| == |told|
            && forall i :: 0 <= i < |told| ==>
                 told[i].text.Some?
                 && GoesTo(updates[i], u.sequence, told[i].role == "source", u.provisionalSourceLanguage, told[i].language, told[i].text.value)
  {
    if n > 0 {
      VariantUpdatesAre(u, n - 1);
      assert u.variants[..n][..n - 1] == u.variants[..n - 1];
    }
  }

  /** What a row asks for: one update for each variant with a text, in order; a row
      without variants tells its source text and then its translation, if there are
      any. */
  lemma UpdatesAre(u: Utterance)
    ensures var updates, told := Updates(u), Told(u.variants);
      && (u.variants != [] ==>
            && |updates| == |told|
            && forall i :: 0 <= i < |told| ==>
                 told[i].text.Some?
                 && GoesTo(updates[i], u.sequence, told[i].role == "source", u.provisionalSourceLanguage, told[i].language, told[i].text.value))
      && (u.variants == [] ==>
            var source := u.sourceText != "";
            var translated := u.translatedLanguage.Some? && u.translatedText.Some? && u.translatedText.value != "";
            && |updates| == (if source then 1 else 0) + (if translated then 1 else 0)
            && (source ==> GoesTo(updates[0], u.sequence, true, u.provisionalSourceLanguage, u.sourceLanguage, u.sourceText))
            && (translated ==> GoesTo(updates[|updates| - 1], u.sequence, false, None, u.translatedLanguage.value, u.translatedText.value)))
  {
    assert u.variants[..|u.variants|] == u.variants;
    VariantUpdatesAre(u, |u.variants|);
  }
}
