/**
 * The results table the dashboard and the insights work from: one
 * `(Sentimento_Classificado, Tema_Classificado)` pair per analysed comment,
 * its two columns, and the exclusion filters the charts, the score and the
 * rankings apply to it.
 */
module Results {
  import opened Categories
  import opened Counting
  import opened Validator

  /** The analysis loop: each comment classified in turn, its labels appended. */
  method AnalyzeBatch(comments: seq<string>, modelReady: bool, replies: seq<Reply>) returns (rows: seq<Labels>)
    requires |replies| == |comments|
    ensures |rows| == |comments|
    ensures forall i :: 0 <= i < |rows| ==> rows[i] == Classify(comments[i], modelReady, replies[i])
    ensures forall i :: 0 <= i < |rows| ==> IsClassifierOutput(rows[i])
  {
    rows := [];
    var i := 0;
    while i < |comments|
      invariant 0 <= i <= |comments| && |rows| == i
      invariant forall k :: 0 <= k < i ==> rows[k] == Classify(comments[k], modelReady, replies[k])
      invariant forall k :: 0 <= k < i ==> IsClassifierOutput(rows[k])
    {
      var labels := AnalyzeComment(comments[i], modelReady, replies[i]);
      ClassifyOutputs(comments[i], modelReady, replies[i]);
      rows := rows + [labels];
      i := i + 1;
    }
  }

  /** `df['Sentimento_Classificado']`. */
  function SentimentColumn(rows: seq<Labels>): (col: seq<string>)
    ensures |col| == |rows| && forall i :: 0 <= i < |rows| ==> col[i] == rows[i].sentiment
  {
    seq(|rows|, i requires 0 <= i < |rows| => rows[i].sentiment)
  }

  /** `df['Tema_Classificado']`. */
  function ThemeColumn(rows: seq<Labels>): (col: seq<string>)
    ensures |col| == |rows| && forall i :: 0 <= i < |rows| ==> col[i] == rows[i].theme
  {
    seq(|rows|, i requires 0 <= i < |rows| => rows[i].theme)
  }

  /** The mask `~column.isin(excluded)`. */
  function NotIn(excluded: set<string>): string -> bool {
    x => x !in excluded
  }

  /** The sentiments the pie chart and the score count. */
  function SentimentChart(rows: seq<Labels>): seq<string> {
    Filter(SentimentColumn(rows), NotIn(ExcludedSentiments))
  }

  /** The themes the bar chart and the top-5 ranking count. */
  function ThemeChart(rows: seq<Labels>): seq<string> {
    Filter(ThemeColumn(rows), NotIn(ExcludedThemes))
  }

  /** `df['Sentimento_Classificado'] == 'Negativo'`. */
  predicate IsNegative(l: Labels) {
    l.sentiment == Negative
  }

  /** `~df['Tema_Classificado'].isin(categorias_excluir_tema)`. */
  predicate HasRelevantTheme(l: Labels) {
    l.theme !in ExcludedThemes
  }

  /** The themes the top-3 negative ranking counts: negative rows first, then the theme filter. */
  function NegativeThemes(rows: seq<Labels>): seq<string> {
    ThemeColumn(Filter(Filter(rows, IsNegative), HasRelevantTheme))
  }

  /**
   * The chart filters drop exactly the excluded labels: every other label
   * keeps all its occurrences.
   */
  lemma ChartCounts(rows: seq<Labels>, x: string)
    ensures Count(SentimentChart(rows), x) == if x in ExcludedSentiments then 0 else Count(SentimentColumn(rows), x)
    ensures Count(ThemeChart(rows), x) == if x in ExcludedThemes then 0 else Count(ThemeColumn(rows), x)
  {
  }

  /**
   * A theme counted by the negative ranking occurs once per negative row
   * carrying it, and an excluded theme not at all.
   */
  lemma {:induction false} NegativeThemeCounts(rows: seq<Labels>, t: string)
    ensures Count(NegativeThemes(rows), t) == if t in ExcludedThemes then 0 else Count(rows, Labels(Negative, t))
  {
    var kept := Filter(Filter(rows, IsNegative), HasRelevantTheme);
    assert forall l :: Count(kept, l) == if IsNegative(l) && HasRelevantTheme(l) then Count(rows, l) else 0;
    ColumnCount(kept, t);
  }

  /** Among negative rows, a theme occurs as often as its negative label pair. */
  lemma {:induction false} ColumnCount(rows: seq<Labels>, t: string)
    requires forall k :: 0 <= k < |rows| ==> rows[k].sentiment == Negative
    ensures Count(ThemeColumn(rows), t) == Count(rows, Labels(Negative, t))
  {
    if rows != [] {
      var init := rows[..|rows| - 1];
      var last := rows[|rows| - 1];
      assert rows == init + [last];
      assert ThemeColumn(rows) == ThemeColumn(init) + [last.theme];
      ColumnCount(init, t);
      assert last.theme == t <==> last == Labels(Negative, t);
    }
  }

  /** Every negative-ranking theme is the theme of some negative row, and never an excluded one. */
  lemma NegativeThemesFromNegativeRows(rows: seq<Labels>)
    ensures forall t :: t in NegativeThemes(rows) ==> t !in ExcludedThemes && Labels(Negative, t) in rows
  {
    forall t | t in NegativeThemes(rows) ensures t !in ExcludedThemes && Labels(Negative, t) in rows {
      NegativeThemeCounts(rows, t);
    }
  }

  /** What survives the exclusion filters of one classifier output. */
  lemma KeptLabelsOfClassifierOutput(l: Labels)
    requires IsClassifierOutput(l)
    ensures l.sentiment !in ExcludedSentiments ==> l.sentiment in {Positive, Negative, Neutral}
    ensures l.theme !in ExcludedThemes ==> l.theme in ValidThemes && l.theme != UnclassifiedTheme && l.theme != SocialInteraction
  {
    ErrorsExcluded();
    assert ParsingError == (GeneralErrors + ThemeSpecificErrors)[0];
    assert ApiError == (GeneralErrors + ThemeSpecificErrors)[1];
    assert l.sentiment == ApiError ==> l.theme in GeneralErrors + ThemeSpecificErrors;
  }

  /**
   * On classifier output the charts only ever see the three real
   * sentiments and the business themes.
   */
  lemma ChartLabelsOfClassifierOutput(rows: seq<Labels>)
    requires forall i :: 0 <= i < |rows| ==> IsClassifierOutput(rows[i])
    ensures forall s :: s in SentimentChart(rows) ==> s in {Positive, Negative, Neutral}
    ensures forall t :: t in ThemeChart(rows) ==> t in ValidThemes && t != UnclassifiedTheme && t != SocialInteraction
  {
    forall s | s in SentimentChart(rows) ensures s in {Positive, Negative, Neutral} {
      var i :| 0 <= i < |rows| && SentimentColumn(rows)[i] == s;
      KeptLabelsOfClassifierOutput(rows[i]);
    }
    forall t | t in ThemeChart(rows) ensures t in ValidThemes && t != UnclassifiedTheme && t != SocialInteraction {
      var i :| 0 <= i < |rows| && ThemeColumn(rows)[i] == t;
      KeptLabelsOfClassifierOutput(rows[i]);
    }
  }
}
