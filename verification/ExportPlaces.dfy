/** Where the facts of an utterance go: table cells, the list of other languages, and
 the lines of the clipboard text. */
module ExportPlaces {
  import opened Wrappers
  import opened LanguageTags
  import opened ExportFacts
  import opened Ranking

  /** The first column of a language. */
  function ColumnOf(columns: seq<string>, language: string): (r: Option<nat>)
    ensures r.Some? ==> r.value < |columns| && SameLanguage(columns[r.value], language)
    ensures r.Some? ==> forall c :: 0 <= c < r.value ==> !SameLanguage(columns[c], language)
    ensures r.None? ==> forall c :: 0 <= c < |columns| ==> !SameLanguage(columns[c], language)
  {
    if columns == [] then None
    else if SameLanguage(columns[0], language) then Some(0)
    else
      match ColumnOf(columns[1..], language)
      case None => None
      case Some(c) => Some(c + 1)
  }

  // ------------------------------------------------------------------- table rows

  function Blank(n: nat): (cells: seq<string>)
    ensures |cells| == n && forall c :: 0 <= c < n ==> cells[c] == ""
  {
    if n == 0 then [] else Blank(n - 1) + [""]
  }

  function Cells(facts: seq<Fact>, columns: seq<string>): (cells: seq<string>)
    ensures |cells| == |columns|
  {
    if facts == [] then Blank(|columns|)
    else
      var cells, last := Cells(facts[..|facts| - 1], columns), facts[|facts| - 1];
      match ColumnOf(columns, last.language)
      case None => cells
      case Some(c) => cells[c := last.text]
  }

  predicate Represented(facts: seq<Fact>, columns: seq<string>) {
    exists i :: 0 <= i < |facts| && ColumnOf(columns, facts[i].language).Some?
  }

  function OrderedRow(facts: seq<Fact>, columns: seq<string>): Option<seq<string>> {
    if Represented(facts, columns) then Some(Cells(facts, columns)) else None
  }

  /** A fact's place: its column, or behind all of them. */
  function Rank(fact: Fact, columns: seq<string>): (r: nat)
    ensures r <= |columns|
  {
    match ColumnOf(columns, fact.language) case Some(c) => c case None => |columns|
  }

  function Ranks(facts: seq<Fact>, columns: seq<string>): (ranks: seq<nat>)
    ensures |ranks| == |facts| && forall i :: 0 <= i < |ranks| ==> ranks[i] <= |columns|
  {
    seq(|facts|, i requires 0 <= i < |facts| => Rank(facts[i], columns))
  }

  /** The facts without a column, in order; they are listed after the table. */
  function Unrepresented(facts: seq<Fact>, columns: seq<string>): seq<nat> {
    OfRank(Ranks(facts, columns), |columns|, |facts|)
  }

  /** No two facts have the same column. */
  ghost predicate OneFactPerColumn(facts: seq<Fact>, columns: seq<string>) {
    forall i, j :: 0 <= i < j < |facts| && ColumnOf(columns, facts[i].language).Some?
      ==> ColumnOf(columns, facts[i].language) != ColumnOf(columns, facts[j].language)
  }

  predicate IsLastOf(facts: seq<Fact>, columns: seq<string>, i: nat, c: nat) {
    && i < |facts| && ColumnOf(columns, facts[i].language) == Some(c)
    && forall j :: i < j < |facts| ==> ColumnOf(columns, facts[j].language) != Some(c)
  }

  predicate ColumnIsEmpty(facts: seq<Fact>, columns: seq<string>, c: nat) {
    forall i :: 0 <= i < |facts| ==> ColumnOf(columns, facts[i].language) != Some(c)
  }

  /** A cell shows the last fact of its column, or nothing. */
  lemma {:induction false} CellShowsLast(facts: seq<Fact>, columns: seq<string>, c: nat, i: nat)
    requires c < |columns| && IsLastOf(facts, columns, i, c)
    ensures Cells(facts, columns)[c] == facts[i].text
  {
    if i < |facts| - 1 {
      var front := facts[..|facts| - 1];
      assert IsLastOf(front, columns, i, c);
      CellShowsLast(front, columns, c, i);
    }
  }

  lemma {:induction false} EmptyColumn(facts: seq<Fact>, columns: seq<string>, c: nat)
    requires c < |columns| && ColumnIsEmpty(facts, columns, c)
    ensures Cells(facts, columns)[c] == ""
  {
    if facts != [] {
      var front := facts[..|facts| - 1];
      assert ColumnIsEmpty(front, columns, c);
      EmptyColumn(front, columns, c);
    }
  }

  /** With one fact per column, each fact is exported once: in its cell, or in the
      list of other languages; and a cell is empty exactly when it has no fact. */
  lemma EachFactHasItsPlace(facts: seq<Fact>, columns: seq<string>)
    requires OneFactPerColumn(facts, columns)
    requires forall i :: 0 <= i < |facts| ==> facts[i].text != ""
    ensures forall i :: 0 <= i < |facts| ==>
              match ColumnOf(columns, facts[i].language)
              case Some(c) => Cells(facts, columns)[c] == facts[i].text && i !in Unrepresented(facts, columns)
              case None => i in Unrepresented(facts, columns)
    ensures forall c :: 0 <= c < |columns| ==> (Cells(facts, columns)[c] == "" <==> ColumnIsEmpty(facts, columns, c))
    ensures Increasing(Unrepresented(facts, columns))
  {
    OfRankIs(Ranks(facts, columns), |columns|, |facts|);
    forall i | 0 <= i < |facts| && ColumnOf(columns, facts[i].language).Some?
      ensures Cells(facts, columns)[ColumnOf(columns, facts[i].language).value] == facts[i].text
    {
      var c := ColumnOf(columns, facts[i].language).value;
      assert IsLastOf(facts, columns, i, c);
      CellShowsLast(facts, columns, c, i);
    }
    forall c | 0 <= c < |columns|
      ensures Cells(facts, columns)[c] == "" <==> ColumnIsEmpty(facts, columns, c)
    {
      if ColumnIsEmpty(facts, columns, c) {
        EmptyColumn(facts, columns, c);
      }
    }
  }

  // ---------------------------------------------- when columns keep the facts apart

  /** A column under which an unknown language would be filed. */
  predicate TakesUnknown(column: string) { Key(column) == "" || Key(column) == "und" }

  lemma KnownColumnsKeepFactsApart(u: Utterance, columns: seq<string>)
    requires forall c :: 0 <= c < |columns| ==> !TakesUnknown(columns[c])
    ensures OneFactPerColumn(UtteranceFacts(u), columns)
  {
    var facts := UtteranceFacts(u);
    KeptLanguagesDiffer(Offers(u));
    forall i, j | 0 <= i < j < |facts| && ColumnOf(columns, facts[i].language).Some?
      ensures ColumnOf(columns, facts[i].language) != ColumnOf(columns, facts[j].language)
    {
      assert !KnownSame(facts[i].language, facts[j].language);
      if IsUnknown(facts[i].language) {
        UnknownKey(facts[i].language);
      }
      if IsUnknown(facts[j].language) {
        UnknownKey(facts[j].language);
      }
    }
  }

  /** Two texts of one unknown language. */
  function TwoUnknown(language: string): Utterance {
    Utterance(language, "a", Some(language), Some("b"), [])
  }

  lemma TwoUnknownFacts(language: string)
    requires IsUnknown(language)
    ensures UtteranceFacts(TwoUnknown(language)) == [Fact(language, "a", true), Fact(language, "b", false)]
  {
    var offers := Offers(TwoUnknown(language));
    var a, b := Fact(language, "a", true), Fact(language, "b", false);
    assert offers == [a, b];
    assert Trim("a") == "a" && Trim("b") == "b";
    assert offers[..1] == [a] && [a][..0] == [];
    assert Kept([a]) == PushOrReplace(Kept([a][..0]), a) == [a];
    assert Kept(offers) == PushOrReplace(Kept(offers[..1]), b);
  }

  lemma UnknownColumnJoinsFacts(columns: seq<string>, c: nat)
    requires c < |columns| && TakesUnknown(columns[c])
    ensures !OneFactPerColumn(UtteranceFacts(TwoUnknown(Key(columns[c]))), columns)
  {
    PlainKeys();
    var language := Key(columns[c]);
    var facts := [Fact(language, "a", true), Fact(language, "b", false)];
    TwoUnknownFacts(language);
    assert SameLanguage(columns[c], language);
    assert ColumnOf(columns, facts[0].language).Some?;
    assert ColumnOf(columns, facts[1].language) == ColumnOf(columns, facts[0].language);
  }

  /** Columns keep every utterance's facts apart exactly when none of them is the
      place of an unknown language. */
  lemma ColumnsKeepFactsApartIff(columns: seq<string>)
    ensures (forall u :: OneFactPerColumn(UtteranceFacts(u), columns))
      <==> forall c :: 0 <= c < |columns| ==> !TakesUnknown(columns[c])
  {
    if c :| 0 <= c < |columns| && TakesUnknown(columns[c]) {
      UnknownColumnJoinsFacts(columns, c);
    } else {
      forall u ensures OneFactPerColumn(UtteranceFacts(u), columns) {
        KnownColumnsKeepFactsApart(u, columns);
      }
    }
  }

  // -------------------------------------------------------------- clipboard lines

  function Selected(columns: seq<string>): seq<string> {
    if columns == [] then []
    else (if IsBlank(columns[0]) then [] else [columns[0]]) + Selected(columns[1..])
  }

  function Display(language: string): string { if IsBlank(language) then "und" else language }

  function TxtCell(text: string): string {
    seq(|text|, i requires 0 <= i < |text| => if text[i] == '\r' || text[i] == '\n' || text[i] == '\t' then ' ' else text[i])
  }

  function Line(language: string, text: string): string { TxtCell(Display(language)) + ": " + TxtCell(text) }

  function LineOf(facts: seq<Fact>, selected: seq<string>, i: nat): string
    requires i < |facts|
  {
    var r := Rank(facts[i], selected);
    Line(if r < |selected| then selected[r] else facts[i].language, facts[i].text)
  }

  function Lines(facts: seq<Fact>, selected: seq<string>): (lines: seq<string>)
    ensures |lines| == |facts|
  {
    seq(|facts|, i requires 0 <= i < |facts| => LineOf(facts, selected, i))
  }

  /** The order of an utterance's lines is that of the ranks. */
  function LineOrder(u: Utterance, columns: seq<string>): (order: seq<nat>)
    ensures Below(order, |UtteranceFacts(u)|)
  {
    var ranks, n := Ranks(UtteranceFacts(u), Selected(columns)), |Selected(columns)| + 1;
    ByRankIs(ranks, n);
    ByRank(ranks, n)
  }

  function ClipboardLines(u: Utterance, columns: seq<string>): seq<string> {
    Pick(Lines(UtteranceFacts(u), Selected(columns)), LineOrder(u, columns))
  }

  /** The clipboard tells every fact of an utterance once, selected columns first, in
      their order, and the facts of one column in the order in which they came. */
  lemma ClipboardTellsEverything(u: Utterance, columns: seq<string>)
    ensures |LineOrder(u, columns)| == |UtteranceFacts(u)|
    ensures forall i: nat :: i in LineOrder(u, columns) <==> i < |UtteranceFacts(u)|
    ensures InOrder(Ranks(UtteranceFacts(u), Selected(columns)), LineOrder(u, columns))
  {
    var ranks, n := Ranks(UtteranceFacts(u), Selected(columns)), |Selected(columns)| + 1;
    ByRankIs(ranks, n);
    EveryPositionOnce(ranks, n);
  }

  // -------------------------------------------------------------------- the loops

  lemma CellsNext(facts: seq<Fact>, columns: seq<string>, n: nat)
    requires n < |facts|
    ensures var column := ColumnOf(columns, facts[n].language);
            && Cells(facts[..n + 1], columns)
                 == (if column.Some? then Cells(facts[..n], columns)[column.value := facts[n].text]
                     else Cells(facts[..n], columns))
            && (Represented(facts[..n + 1], columns) <==> Represented(facts[..n], columns) || column.Some?)
  {
    var now, before := facts[..n + 1], facts[..n];
    assert now[..n] == before && now[n] == facts[n];
    if Represented(before, columns) {
      var i :| 0 <= i < n && ColumnOf(columns, before[i].language).Some?;
      assert now[i] == before[i];
    }
    if Represented(now, columns) {
      var i :| 0 <= i <= n && ColumnOf(columns, now[i].language).Some?;
      assert i < n ==> before[i] == now[i];
    }
  }

  predicate RowSoFar(facts: seq<Fact>, columns: seq<string>, cells: seq<string>, represented: bool) {
    cells == Cells(facts, columns) && represented == Represented(facts, columns)
  }

  method LanguageRow(facts: seq<Fact>, columns: seq<string>) returns (row: Option<seq<string>>)
    ensures row == OrderedRow(facts, columns)
  {
    var cells := Blank(|columns|);
    var represented := false;
    for i := 0 to |facts|
      invariant RowSoFar(facts[..i], columns, cells, represented)
    {
      CellsNext(facts, columns, i);
      var index := ColumnOf(columns, facts[i].language);
      if index.Some? {
        cells := cells[index.value := facts[i].text];
        represented := true;
      }
    }
    assert facts[..|facts|] == facts;
    row := if represented then Some(cells) else None;
  }

  method ClipboardLanguageLines(u: Utterance, columns: seq<string>) returns (lines: seq<string>)
    ensures lines == ClipboardLines(u, columns)
  {
    var facts := CollectFacts(u);
    var selected := Selected(columns);
    var emitted := seq(|facts|, i => false);
    ghost var ranks, all := Ranks(facts, selected), Lines(facts, selected);
    lines := [];
    for c := 0 to |selected|
      invariant EmittedBelow(ranks, emitted, c)
      invariant Below(ByRank(ranks, c), |all|) && lines == Pick(all, ByRank(ranks, c))
    {
      var more;
      more, emitted := EmitColumn(facts, selected, c, emitted);
      PickNextRank(all, ranks, c);
      lines := lines + more;
    }
    var rest := EmitRest(facts, selected, emitted);
    PickNextRank(all, ranks, |selected|);
    lines := lines + rest;
  }

  /** The facts of the first ranks are emitted. */
  ghost predicate EmittedBelow(ranks: seq<nat>, emitted: seq<bool>, n: nat) {
    |emitted| == |ranks| && forall i :: 0 <= i < |ranks| ==> (emitted[i] <==> ranks[i] < n)
  }

  lemma NextRankIff(fact: Fact, selected: seq<string>, c: nat)
    requires c < |selected|
    ensures Rank(fact, selected) == c <==> Rank(fact, selected) >= c && SameLanguage(fact.language, selected[c])
  {
  }

  /** The ranks and the lines of the facts. */
  ghost predicate Tabulated(facts: seq<Fact>, selected: seq<string>, ranks: seq<nat>, all: seq<string>) {
    && |ranks| == |all| == |facts|
    && forall i {:trigger LineOf(facts, selected, i)} :: 0 <= i < |facts| ==>
         ranks[i] == Rank(facts[i], selected) && all[i] == LineOf(facts, selected, i)
  }

  /** Whether a fact is emitted at a column, and as what. */
  method EmitFact(facts: seq<Fact>, selected: seq<string>, c: nat, i: nat, done: bool,
                  ghost ranks: seq<nat>, ghost all: seq<string>)
    returns (line: Option<string>)
    requires c < |selected| && i < |facts| && Tabulated(facts, selected, ranks, all) && (done <==> ranks[i] < c)
    ensures line == if ranks[i] == c then Some(all[i]) else None
  {
    NextRankIff(facts[i], selected, c);
    ghost var expected := LineOf(facts, selected, i);
    if !done && SameLanguage(facts[i].language, selected[c]) {
      return Some(Line(selected[c], facts[i].text));
    }
    return None;
  }

  /** The first `i` facts are emitted up to rank `c`, the others below it. */
  ghost predicate EmittedAt(ranks: seq<nat>, now: seq<bool>, c: nat, i: nat) {
    |now| == |ranks| && forall k :: 0 <= k < |now| ==> (now[k] <==> if k < i then ranks[k] <= c else ranks[k] < c)
  }

  lemma EmitNext(ranks: seq<nat>, now: seq<bool>, c: nat, i: nat)
    requires i < |ranks| && EmittedAt(ranks, now, c, i)
    ensures EmittedAt(ranks, if ranks[i] == c then now[i := true] else now, c, i + 1)
  {
  }

  /** One pass over the facts for one column. */
  method EmitColumn(facts: seq<Fact>, selected: seq<string>, c: nat, emitted: seq<bool>)
    returns (lines: seq<string>, now: seq<bool>)
    requires c < |selected| && EmittedBelow(Ranks(facts, selected), emitted, c)
    ensures EmittedBelow(Ranks(facts, selected), now, c + 1)
    ensures Below(OfRank(Ranks(facts, selected), c, |facts|), |facts|)
    ensures lines == Pick(Lines(facts, selected), OfRank(Ranks(facts, selected), c, |facts|))
  {
    lines, now := EmitRank(facts, selected, c, emitted, Ranks(facts, selected), Lines(facts, selected));
  }

  method EmitRank(facts: seq<Fact>, selected: seq<string>, c: nat, emitted: seq<bool>,
                  ghost ranks: seq<nat>, ghost all: seq<string>)
    returns (lines: seq<string>, now: seq<bool>)
    requires c < |selected| && Tabulated(facts, selected, ranks, all) && EmittedAt(ranks, emitted, c, 0)
    ensures EmittedAt(ranks, now, c, |facts|)
    ensures Below(OfRank(ranks, c, |facts|), |all|) && lines == Pick(all, OfRank(ranks, c, |facts|))
  {
    lines, now := [], emitted;
    for i := 0 to |facts|
      invariant EmittedAt(ranks, now, c, i)
      invariant Below(OfRank(ranks, c, i), |all|) && lines == Pick(all, OfRank(ranks, c, i))
    {
      PickNextOfRank(all, ranks, c, i);
      EmitNext(ranks, now, c, i);
      var line := EmitFact(facts, selected, c, i, now[i], ranks, all);
      if line.Some? {
        lines := lines + [line.value];
        now := now[i := true];
      }
    }
  }

  method EmitRest(facts: seq<Fact>, selected: seq<string>, emitted: seq<bool>) returns (lines: seq<string>)
    requires EmittedBelow(Ranks(facts, selected), emitted, |selected|)
    ensures Below(OfRank(Ranks(facts, selected), |selected|, |facts|), |facts|)
    ensures lines == Pick(Lines(facts, selected), OfRank(Ranks(facts, selected), |selected|, |facts|))
  {
    lines := EmitOthers(facts, emitted, |selected|, Ranks(facts, selected), Lines(facts, selected));
  }

  method EmitOthers(facts: seq<Fact>, emitted: seq<bool>, ghost n: nat, ghost ranks: seq<nat>, ghost all: seq<string>)
    returns (lines: seq<string>)
    requires |emitted| == |ranks| == |all| == |facts|
    requires forall i :: 0 <= i < |facts| ==> ranks[i] <= n && (emitted[i] <==> ranks[i] < n)
    requires forall i :: 0 <= i < |facts| && ranks[i] == n ==> all[i] == Line(facts[i].language, facts[i].text)
    ensures Below(OfRank(ranks, n, |facts|), |all|) && lines == Pick(all, OfRank(ranks, n, |facts|))
  {
    lines := [];
    for i := 0 to |facts|
      invariant Below(OfRank(ranks, n, i), |all|) && lines == Pick(all, OfRank(ranks, n, i))
    {
      PickNextOfRank(all, ranks, n, i);
      if !emitted[i] {
        lines := lines + [Line(facts[i].language, facts[i].text)];
      }
    }
  }

  // ------------------------------------------------------------- what is written where

  /** The fact's language has a column, and this is the first one. */
  ghost predicate HasColumn(facts: seq<Fact>, columns: seq<string>, i: int, c: int) {
    && 0 <= i < |facts| && 0 <= c < |columns| && SameLanguage(columns[c], facts[i].language)
    && forall b :: 0 <= b < c ==> !SameLanguage(columns[b], facts[i].language)
  }

  lemma ColumnIs(facts: seq<Fact>, columns: seq<string>, i: int, c: int)
    requires 0 <= i < |facts| && 0 <= c < |columns|
    ensures HasColumn(facts, columns, i, c) <==> ColumnOf(columns, facts[i].language) == Some(c)
  {
  }

  lemma RowIffColumn(facts: seq<Fact>, columns: seq<string>)
    ensures OrderedRow(facts, columns).Some? <==> exists i, c :: HasColumn(facts, columns, i, c)
  {
    if Represented(facts, columns) {
      var i :| 0 <= i < |facts| && ColumnOf(columns, facts[i].language).Some?;
      ColumnIs(facts, columns, i, ColumnOf(columns, facts[i].language).value);
    }
    if i, c :| HasColumn(facts, columns, i, c) {
      ColumnIs(facts, columns, i, c);
    }
  }

  lemma CellIs(facts: seq<Fact>, columns: seq<string>, c: nat)
    requires c < |columns|
    ensures forall i :: HasColumn(facts, columns, i, c) && (forall j :: i < j ==> !HasColumn(facts, columns, j, c))
              ==> Cells(facts, columns)[c] == facts[i].text
    ensures (forall i :: !HasColumn(facts, columns, i, c)) ==> Cells(facts, columns)[c] == ""
  {
    forall i | HasColumn(facts, columns, i, c) && forall j :: i < j ==> !HasColumn(facts, columns, j, c)
      ensures Cells(facts, columns)[c] == facts[i].text
    {
      ColumnIs(facts, columns, i, c);
      forall j | i < j < |facts| ensures ColumnOf(columns, facts[j].language) != Some(c) { ColumnIs(facts, columns, j, c); }
      CellShowsLast(facts, columns, c, i);
    }
    if forall i :: !HasColumn(facts, columns, i, c) {
      forall i | 0 <= i < |facts| ensures ColumnOf(columns, facts[i].language) != Some(c) { ColumnIs(facts, columns, i, c); }
      EmptyColumn(facts, columns, c);
    }
  }

  /** A table has a row for an utterance exactly when some fact has a column; a cell of
      it shows the last fact whose first column it is, or nothing. */
  lemma RowShows(facts: seq<Fact>, columns: seq<string>)
    ensures OrderedRow(facts, columns).Some? <==> exists i, c :: HasColumn(facts, columns, i, c)
    ensures OrderedRow(facts, columns).Some? ==>
      var cells := OrderedRow(facts, columns).value;
      && |cells| == |columns|
      && forall c :: 0 <= c < |columns| ==>
           && (forall i :: HasColumn(facts, columns, i, c) && (forall j :: i < j ==> !HasColumn(facts, columns, j, c)) ==> cells[c] == facts[i].text)
           && ((forall i :: !HasColumn(facts, columns, i, c)) ==> cells[c] == "")
  {
    RowIffColumn(facts, columns);
    forall c | 0 <= c < |columns|
      ensures forall i :: HasColumn(facts, columns, i, c) && (forall j :: i < j ==> !HasColumn(facts, columns, j, c))
                ==> Cells(facts, columns)[c] == facts[i].text
      ensures (forall i :: !HasColumn(facts, columns, i, c)) ==> Cells(facts, columns)[c] == ""
    {
      CellIs(facts, columns, c);
    }
  }

  /** The same characters, on one line. */
  predicate OnOneLine(line: string, text: string) {
    && |line| == |text|
    && forall k :: 0 <= k < |text| ==>
         line[k] == if text[k] == '\r' || text[k] == '\n' || text[k] == '\t' then ' ' else text[k]
  }

  /** A line names the column of a fact, or else its language, or `und` for none, and
      then tells its text. */
  lemma LineSays(facts: seq<Fact>, selected: seq<string>, i: nat) returns (name: string, text: string)
    requires i < |facts|
    ensures LineOf(facts, selected, i) == name + ": " + text && OnOneLine(text, facts[i].text)
    ensures forall c :: HasColumn(facts, selected, i, c) ==> OnOneLine(name, if IsBlank(selected[c]) then "und" else selected[c])
    ensures (forall c :: !HasColumn(facts, selected, i, c)) ==>
              OnOneLine(name, if IsBlank(facts[i].language) then "und" else facts[i].language)
  {
    var r := Rank(facts[i], selected);
    var language := if r < |selected| then selected[r] else facts[i].language;
    name, text := TxtCell(if IsBlank(language) then "und" else language), TxtCell(facts[i].text);
    forall c | 0 <= c < |selected| ensures HasColumn(facts, selected, i, c) <==> ColumnOf(selected, facts[i].language) == Some(c) {
      ColumnIs(facts, selected, i, c);
    }
  }

  /** The selected columns are those that are not blank, in order. */
  lemma {:induction false} SelectedNext(columns: seq<string>, column: string)
    ensures Selected([]) == []
    ensures Selected(columns + [column]) == Selected(columns) + (if IsBlank(column) then [] else [column])
  {
    if columns == [] {
      assert [] + [column] == [column];
    } else {
      assert (columns + [column])[1..] == columns[1..] + [column];
      SelectedNext(columns[1..], column);
    }
  }
}
