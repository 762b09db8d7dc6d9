/** The facts of an utterance: what was said, in each language it is known in. */
module ExportFacts {
  import opened Wrappers
  import opened LanguageTags

  datatype Fact = Fact(language: string, text: string, isSource: bool)

  datatype Variant = Variant(language: string, text: string)

  datatype Utterance = Utterance(sourceLanguage: string, sourceText: string,
                                 translatedLanguage: Option<string>, translatedText: Option<string>,
                                 variants: seq<Variant>)

  predicate KnownSame(a: string, b: string) { !IsUnknown(a) && !IsUnknown(b) && SameLanguage(a, b) }

  /** The first fact of a known language, if any. */
  function Find(facts: seq<Fact>, language: string): (r: Option<nat>)
    ensures r.Some? ==> r.value < |facts| && KnownSame(facts[r.value].language, language)
    ensures r.None? ==> forall i :: 0 <= i < |facts| ==> !KnownSame(facts[i].language, language)
  {
    if facts == [] then None
    else if KnownSame(facts[0].language, language) then Some(0)
    else
      match Find(facts[1..], language)
      case None => None
      case Some(i) => Some(i + 1)
  }

  function PushOrReplace(facts: seq<Fact>, offer: Fact): seq<Fact> {
    if IsBlank(offer.text) then facts
    else
      var fact := offer.(text := Trim(offer.text));
      match Find(facts, offer.language)
      case Some(i) => if facts[i].isSource then facts else facts[i := fact]
      case None => facts + [fact]
  }

  /** Everything an utterance offers, the source first; a translation without a
      language is of an undetermined one. */
  function Offers(u: Utterance): (offers: seq<Fact>)
    ensures offers != [] && offers[0].isSource && forall i :: 1 <= i < |offers| ==> !offers[i].isSource
  {
    [Fact(u.sourceLanguage, u.sourceText, true)]
    + (match u.translatedText
       case None => []
       case Some(text) =>
         [Fact(match u.translatedLanguage case Some(l) => l case None => "und", text, false)])
    + seq(|u.variants|, i requires 0 <= i < |u.variants| => Fact(u.variants[i].language, u.variants[i].text, false))
  }

  function Kept(offers: seq<Fact>): seq<Fact> {
    if offers == [] then [] else PushOrReplace(Kept(offers[..|offers| - 1]), offers[|offers| - 1])
  }

  function UtteranceFacts(u: Utterance): seq<Fact> { Kept(Offers(u)) }

  // --------------------------------------------------------- which offers are kept

  /** Where the facts come from once the offer numbered `n` was pushed. */
  function NextFrom(facts: seq<Fact>, from: seq<nat>, last: Fact, n: nat): seq<nat>
    requires |facts| == |from|
  {
    if IsBlank(last.text) then from
    else
      match Find(facts, last.language)
      case Some(i) => if facts[i].isSource then from else from[i := n]
      case None => from + [n]
  }

  /** Which offer each fact comes from. */
  function Origins(offers: seq<Fact>): (from: seq<nat>)
    ensures |from| == |Kept(offers)|
  {
    if offers == [] then []
    else
      var front, last := offers[..|offers| - 1], offers[|offers| - 1];
      NextFrom(Kept(front), Origins(front), last, |front|)
  }

  /** An offer is kept: it says something, and if its language is known, it is the
      source's, or the source says nothing in that language and no later offer does. */
  predicate Wins(offers: seq<Fact>, i: nat) {
    && i < |offers| && !IsBlank(offers[i].text)
    && (offers[i].isSource
        || ((forall j :: 0 <= j < i && offers[j].isSource && !IsBlank(offers[j].text)
                         ==> !KnownSame(offers[j].language, offers[i].language))
            && forall j :: i < j < |offers| && !IsBlank(offers[j].text)
                         ==> !KnownSame(offers[j].language, offers[i].language)))
  }

  /** Only the first offer can be the source. */
  predicate SourceFirst(offers: seq<Fact>) { forall i :: 1 <= i < |offers| ==> !offers[i].isSource }

  function FactOf(offer: Fact): Fact { offer.(text := Trim(offer.text)) }

  ghost predicate Distinct(from: seq<nat>) { forall i, j :: 0 <= i < j < |from| ==> from[i] != from[j] }

  /** No known language is told twice. */
  ghost predicate LanguagesDiffer(facts: seq<Fact>) {
    forall i, j :: 0 <= i < j < |facts| ==> !KnownSame(facts[i].language, facts[j].language)
  }

  /** Only one fact is of a known language. */
  lemma OtherFact(facts: seq<Fact>, f: nat, k: nat, language: string)
    requires LanguagesDiffer(facts) && f < |facts| && k < |facts| && f != k
    requires KnownSame(facts[f].language, language)
    ensures !KnownSame(facts[k].language, language) && !KnownSame(language, facts[k].language)
  {
    if k < f {
      assert !KnownSame(facts[k].language, facts[f].language);
    } else {
      assert !KnownSame(facts[f].language, facts[k].language);
    }
  }

  lemma {:induction false} KeptLanguagesDiffer(offers: seq<Fact>)
    ensures LanguagesDiffer(Kept(offers))
  {
    if offers != [] {
      var front, last := offers[..|offers| - 1], offers[|offers| - 1];
      KeptLanguagesDiffer(front);
      var facts := Kept(front);
      var found := Find(facts, last.language);
      if found.Some? {
        forall j | 0 <= j < |facts| && j != found.value
          ensures !KnownSame(facts[j].language, last.language) && !KnownSame(last.language, facts[j].language)
        {
          OtherFact(facts, found.value, j, last.language);
        }
      }
    }
  }

  ghost predicate TracedTo(offers: seq<Fact>, facts: seq<Fact>, from: seq<nat>) {
    && |from| == |facts| && Distinct(from)
    && forall i :: 0 <= i < |from| ==> from[i] < |offers| && facts[i] == FactOf(offers[from[i]])
  }

  lemma TracedStays(front: seq<Fact>, facts: seq<Fact>, from: seq<nat>, last: Fact)
    requires TracedTo(front, facts, from)
    ensures TracedTo(front + [last], facts, from)
  {
    forall i | 0 <= i < |from| ensures facts[i] == FactOf((front + [last])[from[i]]) {
      assert (front + [last])[from[i]] == front[from[i]];
    }
  }

  lemma TracedReplace(front: seq<Fact>, facts: seq<Fact>, from: seq<nat>, last: Fact, k: nat)
    requires TracedTo(front, facts, from) && k < |facts|
    ensures TracedTo(front + [last], facts[k := FactOf(last)], from[k := |front|])
  {
    TracedStays(front, facts, from, last);
    assert (front + [last])[|front|] == last;
    assert forall i :: 0 <= i < |from| ==> from[i] != |front|;
  }

  lemma TracedAppend(front: seq<Fact>, facts: seq<Fact>, from: seq<nat>, last: Fact)
    requires TracedTo(front, facts, from)
    ensures TracedTo(front + [last], facts + [FactOf(last)], from + [|front|])
  {
    TracedStays(front, facts, from, last);
    assert (front + [last])[|front|] == last;
    assert forall i :: 0 <= i < |from| ==> from[i] != |front|;
  }

  lemma TraceNext(front: seq<Fact>, facts: seq<Fact>, from: seq<nat>, last: Fact)
    requires TracedTo(front, facts, from)
    ensures TracedTo(front + [last], PushOrReplace(facts, last), NextFrom(facts, from, last, |front|))
  {
    TracedStays(front, facts, from, last);
    if !IsBlank(last.text) {
      match Find(facts, last.language)
      case Some(k) => TracedReplace(front, facts, from, last, k);
      case None => TracedAppend(front, facts, from, last);
    }
  }

  lemma {:induction false} OriginsTrace(offers: seq<Fact>)
    ensures TracedTo(offers, Kept(offers), Origins(offers))
  {
    if offers != [] {
      var front, last := offers[..|offers| - 1], offers[|offers| - 1];
      OriginsTrace(front);
      TraceNext(front, Kept(front), Origins(front), last);
      assert offers == front + [last];
    }
  }

  /** An earlier offer still wins unless the last one speaks over it. */
  lemma WinsBefore(offers: seq<Fact>, i: nat)
    requires offers != [] && i < |offers| - 1
    ensures var front, last := offers[..|offers| - 1], offers[|offers| - 1];
            (Wins(offers, i)
             <==> Wins(front, i) && (offers[i].isSource || IsBlank(last.text) || !KnownSame(last.language, offers[i].language)))
  {
    var front := offers[..|offers| - 1];
    assert forall j :: 0 <= j < |front| ==> front[j] == offers[j];
  }

  /** What is traced before the last offer comes. */
  ghost predicate Ready(front: seq<Fact>, facts: seq<Fact>, from: seq<nat>) {
    TracedTo(front, facts, from) && LanguagesDiffer(facts) && forall k: nat :: k in from <==> Wins(front, k)
  }

  lemma EarlierStays(front: seq<Fact>, facts: seq<Fact>, from: seq<nat>, last: Fact, i: nat)
    requires Ready(front, facts, from) && i < |front|
    ensures i in NextFrom(facts, from, last, |front|)
      <==> i in from && (front[i].isSource || IsBlank(last.text) || !KnownSame(last.language, front[i].language))
  {
    var next, found := NextFrom(facts, from, last, |front|), Find(facts, last.language);
    if i in from {
      var k :| 0 <= k < |from| && from[k] == i;
      assert facts[k] == FactOf(front[i]);
      if !IsBlank(last.text) && found.Some? {
        if k != found.value {
          OtherFact(facts, found.value, k, last.language);
          assert next[k] == i;
        } else {
          assert forall j :: 0 <= j < |from| && j != k ==> from[j] != i;
        }
      } else {
        assert next[k] == i;
      }
    }
  }

  /** The source says something in the language of the last offer. */
  predicate SourceSpeaks(front: seq<Fact>, last: Fact) {
    front != [] && front[0].isSource && !IsBlank(front[0].text) && KnownSame(front[0].language, last.language)
  }

  lemma LastWins(front: seq<Fact>, last: Fact)
    requires SourceFirst(front + [last])
    ensures Wins(front + [last], |front|) <==> !IsBlank(last.text) && !SourceSpeaks(front, last)
  {
    var offers := front + [last];
    assert offers[|front|] == last;
    assert forall j :: 0 <= j < |front| ==> offers[j] == front[j];
    if front != [] {
      assert !last.isSource;
      assert forall j :: 1 <= j < |front| ==> !offers[j].isSource;
    }
  }

  lemma SpokenIsFound(front: seq<Fact>, facts: seq<Fact>, from: seq<nat>, last: Fact)
    requires Ready(front, facts, from) && SourceFirst(front) && SourceSpeaks(front, last)
    ensures var found := Find(facts, last.language);
            found.Some? && facts[found.value].isSource
  {
    var found := Find(facts, last.language);
    assert Wins(front, 0);
    var k :| 0 <= k < |from| && from[k] == 0;
    assert facts[k] == FactOf(front[0]);
    assert KnownSame(facts[k].language, last.language);
    if found.Some? && k != found.value {
      OtherFact(facts, found.value, k, last.language);
    }
  }

  lemma FoundIsSpoken(front: seq<Fact>, facts: seq<Fact>, from: seq<nat>, last: Fact, found: nat)
    requires Ready(front, facts, from) && SourceFirst(front)
    requires Find(facts, last.language) == Some(found) && facts[found].isSource
    ensures SourceSpeaks(front, last)
  {
    var i := from[found];
    assert facts[found] == FactOf(front[i]);
    assert Wins(front, i);
  }

  lemma FoundSource(front: seq<Fact>, facts: seq<Fact>, from: seq<nat>, last: Fact)
    requires Ready(front, facts, from) && SourceFirst(front)
    ensures var found := Find(facts, last.language);
            SourceSpeaks(front, last) <==> found.Some? && facts[found.value].isSource
  {
    var found := Find(facts, last.language);
    if SourceSpeaks(front, last) {
      SpokenIsFound(front, facts, from, last);
    } else if found.Some? && facts[found.value].isSource {
      FoundIsSpoken(front, facts, from, last, found.value);
    }
  }

  lemma LastEnters(front: seq<Fact>, facts: seq<Fact>, from: seq<nat>, last: Fact)
    requires Ready(front, facts, from) && SourceFirst(front + [last])
    ensures |front| in NextFrom(facts, from, last, |front|) <==> Wins(front + [last], |front|)
  {
    assert SourceFirst(front) by {
      assert forall j :: 0 <= j < |front| ==> (front + [last])[j] == front[j];
    }
    LastWins(front, last);
    FoundSource(front, facts, from, last);
    var found, next := Find(facts, last.language), NextFrom(facts, from, last, |front|);
    assert forall k :: 0 <= k < |from| ==> from[k] < |front|;
    if !IsBlank(last.text) && found.Some? && !facts[found.value].isSource {
      assert next[found.value] == |front|;
    } else if !IsBlank(last.text) && found.None? {
      assert next[|from|] == |front|;
    }
  }

  lemma NextWins(front: seq<Fact>, facts: seq<Fact>, from: seq<nat>, last: Fact, i: nat)
    requires Ready(front, facts, from) && SourceFirst(front + [last]) && i <= |front|
    ensures i in NextFrom(facts, from, last, |front|) <==> Wins(front + [last], i)
  {
    if i < |front| {
      EarlierStays(front, facts, from, last, i);
      WinsBefore(front + [last], i);
      assert (front + [last])[..|front|] == front;
    } else {
      LastEnters(front, facts, from, last);
    }
  }

  lemma ReadyFront(front: seq<Fact>)
    requires forall i: nat :: i in Origins(front) <==> Wins(front, i)
    ensures Ready(front, Kept(front), Origins(front))
  {
    OriginsTrace(front);
    KeptLanguagesDiffer(front);
  }

  lemma OriginsNext(front: seq<Fact>, last: Fact)
    ensures Origins(front + [last]) == NextFrom(Kept(front), Origins(front), last, |front|)
  {
    assert (front + [last])[..|front|] == front;
  }

  lemma AllWin(front: seq<Fact>, last: Fact)
    requires SourceFirst(front + [last]) && forall i: nat :: i in Origins(front) <==> Wins(front, i)
    ensures forall i: nat :: i in Origins(front + [last]) <==> Wins(front + [last], i)
  {
    var offers := front + [last];
    ReadyFront(front);
    OriginsNext(front, last);
    OriginsTrace(offers);
    forall i: nat ensures i in Origins(offers) <==> Wins(offers, i) {
      if i <= |front| {
        NextWins(front, Kept(front), Origins(front), last, i);
      }
    }
  }

  /** The facts come from exactly the offers that win, one from each. */
  lemma {:induction false} OriginsWin(offers: seq<Fact>)
    requires SourceFirst(offers)
    ensures forall i: nat :: i in Origins(offers) <==> Wins(offers, i)
  {
    if offers != [] {
      var front, last := offers[..|offers| - 1], offers[|offers| - 1];
      OriginsWin(front);
      assert offers == front + [last];
      AllWin(front, last);
    }
  }

  /** The facts of an utterance are exactly what its winning offers say, each once,
      and no known language is told twice. */
  lemma FactsAreTheWinners(u: Utterance)
    ensures TracedTo(Offers(u), UtteranceFacts(u), Origins(Offers(u)))
    ensures forall i: nat :: i in Origins(Offers(u)) <==> Wins(Offers(u), i)
    ensures LanguagesDiffer(UtteranceFacts(u))
    ensures forall i :: 0 <= i < |UtteranceFacts(u)| ==> UtteranceFacts(u)[i].text != ""
  {
    OriginsTrace(Offers(u));
    OriginsWin(Offers(u));
    KeptLanguagesDiffer(Offers(u));
    forall i | 0 <= i < |UtteranceFacts(u)| ensures UtteranceFacts(u)[i].text != "" {
      assert Wins(Offers(u), Origins(Offers(u))[i]);
    }
  }

  // -------------------------------------------------------------------- the loops

  /** The search ends at the first fact of the language. */
  lemma {:induction false} FindIs(facts: seq<Fact>, language: string, i: nat)
    requires i <= |facts| && forall j :: 0 <= j < i ==> !KnownSame(facts[j].language, language)
    requires i < |facts| ==> KnownSame(facts[i].language, language)
    ensures Find(facts, language) == if i < |facts| then Some(i) else None
  {
    if i > 0 {
      assert forall j :: 0 <= j < i - 1 ==> facts[1..][j] == facts[j + 1];
      FindIs(facts[1..], language, i - 1);
    }
  }

  method FindFact(facts: seq<Fact>, language: string) returns (r: Option<nat>)
    ensures r == Find(facts, language)
  {
    for i := 0 to |facts|
      invariant forall j :: 0 <= j < i ==> !KnownSame(facts[j].language, language)
    {
      if KnownSame(facts[i].language, language) {
        FindIs(facts, language, i);
        return Some(i);
      }
    }
    FindIs(facts, language, |facts|);
    return None;
  }

  method PushOrReplaceFact(facts: seq<Fact>, language: string, text: string, isSource: bool) returns (after: seq<Fact>)
    ensures after == PushOrReplace(facts, Fact(language, text, isSource))
  {
    var trimmed := Trim(text);
    if trimmed == "" {
      return facts;
    }
    var existing := FindFact(facts, language);
    if existing.Some? {
      if !facts[existing.value].isSource {
        return facts[existing.value := Fact(language, trimmed, isSource)];
      }
      return facts;
    }
    return facts + [Fact(language, trimmed, isSource)];
  }

  function OfVariants(variants: seq<Variant>): seq<Fact> {
    seq(|variants|, i requires 0 <= i < |variants| => Fact(variants[i].language, variants[i].text, false))
  }

  lemma OfVariantsNext(variants: seq<Variant>, i: nat)
    requires i < |variants|
    ensures OfVariants(variants[..i + 1]) == OfVariants(variants[..i]) + [Fact(variants[i].language, variants[i].text, false)]
  {
  }

  lemma KeptLast(offers: seq<Fact>, offer: Fact)
    ensures Kept(offers + [offer]) == PushOrReplace(Kept(offers), offer)
  {
    assert (offers + [offer])[..|offers|] == offers;
  }

  /** Pushes a row of offers onto the facts of those before. */
  method PushVariants(facts: seq<Fact>, variants: seq<Variant>, ghost before: seq<Fact>) returns (after: seq<Fact>)
    requires facts == Kept(before)
    ensures after == Kept(before + OfVariants(variants))
  {
    after := facts;
    ghost var offers := before;
    for i := 0 to |variants|
      invariant offers == before + OfVariants(variants[..i]) && after == Kept(offers)
    {
      ghost var offer := Fact(variants[i].language, variants[i].text, false);
      OfVariantsNext(variants, i);
      KeptLast(offers, offer);
      after := PushOrReplaceFact(after, variants[i].language, variants[i].text, false);
      offers := offers + [offer];
    }
    assert variants[..|variants|] == variants;
  }

  /** The facts, pushed one after another. */
  method CollectFacts(u: Utterance) returns (facts: seq<Fact>)
    ensures facts == UtteranceFacts(u)
  {
    facts := PushOrReplaceFact([], u.sourceLanguage, u.sourceText, true);
    ghost var offers := [Fact(u.sourceLanguage, u.sourceText, true)];
    KeptOne(offers[0]);
    if u.translatedText.Some? {
      var language := match u.translatedLanguage case Some(l) => l case None => "und";
      ghost var offer := Fact(language, u.translatedText.value, false);
      KeptLast(offers, offer);
      facts := PushOrReplaceFact(facts, language, u.translatedText.value, false);
      offers := offers + [offer];
    }
    facts := PushVariants(facts, u.variants, offers);
    assert offers + OfVariants(u.variants) == Offers(u);
  }

  lemma KeptOne(offer: Fact)
    ensures Kept([offer]) == PushOrReplace([], offer)
  {
    assert [offer][..0] == [];
  }

  /** What an utterance offers, in order: its source, its translation if there is one,
      of an undetermined language if none is named, and then its variants. */
  lemma OffersAre(u: Utterance)
    ensures var offers, n := Offers(u), if u.translatedText.Some? then 1 else 0;
            && |offers| == 1 + n + |u.variants|
            && offers[0] == Fact(u.sourceLanguage, u.sourceText, true)
            && (n == 1 ==>
                  offers[1] == Fact(if u.translatedLanguage.Some? then u.translatedLanguage.value else "und", u.translatedText.value, false))
            && forall i :: 0 <= i < |u.variants| ==> offers[1 + n + i] == Fact(u.variants[i].language, u.variants[i].text, false)
  {
  }
}
