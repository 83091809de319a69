/**
 * The figures `gerar_insights` (analise_app.py, lines 285-317) computes from
 * the results before it hands them to the model: the sentiment buckets, the
 * top-5 themes and the top-3 themes of negative comments.
 */
module Insights {
  import opened Categories
  import opened Counting
  import opened Validator
  import opened Results

  /** One line of a ranking: a theme, its volume and its share of the ranked subset. */
  datatype RankedTheme = RankedTheme(theme: string, count: nat, percent: real)

  /** The figures the insights prompt is filled with. */
  datatype Summary = Summary(
    total: nat,
    positive: nat, negative: nat, neutral: nat, unclassifiedOrError: int,
    positivePercent: real, negativePercent: real, neutralPercent: real, unclassifiedOrErrorPercent: real,
    themeTotal: nat, topThemes: seq<RankedTheme>,
    negativeThemeTotal: nat, topNegativeThemes: seq<RankedTheme>)

  /** What `gerar_insights` gets as far as before calling the model. */
  datatype Insights = NoData | NoModel | Report(summary: Summary)

  /** `count / total * 100 if total > 0 else 0`. */
  function Percent(count: int, total: nat): real {
    if total > 0 then count as real / total as real * 100.0 else 0.0
  }

  /** `counts.sum()` when `counts` is not empty, 0 otherwise. */
  function RankTotal(counts: seq<Tally<string>>): nat {
    if counts == [] then 0 else SumCounts(counts)
  }

  /**
   * The ranking lines: the first `n` entries of `counts`, each with its
   * share of the counts' total; no lines when there is nothing to rank
   * (the source then prints a fixed "no theme" sentence).
   */
  function Ranked(counts: seq<Tally<string>>, n: nat): seq<RankedTheme> {
    var total := RankTotal(counts);
    if total == 0 then []
    else
      var top := Head(counts, n);
      seq(|top|, k requires 0 <= k < |top| => RankedTheme(top[k].value, top[k].count, top[k].count as real / total as real * 100.0))
  }

  function ThemesOf(r: seq<RankedTheme>): seq<string> {
    seq(|r|, k requires 0 <= k < |r| => r[k].theme)
  }

  /** The top-5 ranking over the themes that are not excluded, and its total. */
  function TopThemesOf(rows: seq<Labels>): seq<RankedTheme> {
    Ranked(ValueCounts(ThemeChart(rows)), 5)
  }

  function ThemeTotalOf(rows: seq<Labels>): nat {
    RankTotal(ValueCounts(ThemeChart(rows)))
  }

  /** The top-3 ranking over the themes of negative rows that are not excluded, and its total. */
  function TopNegativeThemesOf(rows: seq<Labels>): seq<RankedTheme> {
    Ranked(ValueCounts(NegativeThemes(rows)), 3)
  }

  function NegativeThemeTotalOf(rows: seq<Labels>): nat {
    RankTotal(ValueCounts(NegativeThemes(rows)))
  }

  function Summarize(rows: seq<Labels>): Summary {
    var total := |rows|;
    var sentiments := ValueCounts(SentimentColumn(rows));
    var positive := CountOf(sentiments, Positive);
    var negative := CountOf(sentiments, Negative);
    var neutral := CountOf(sentiments, Neutral);
    var rest := total - (positive + negative + neutral);
    Summary(
      total, positive, negative, neutral, rest,
      Percent(positive, total), Percent(negative, total), Percent(neutral, total), Percent(rest, total),
      ThemeTotalOf(rows), TopThemesOf(rows),
      NegativeThemeTotalOf(rows), TopNegativeThemesOf(rows))
  }

  /** The two early returns, then the summary. */
  function GenerateInsights(rows: seq<Labels>, modelReady: bool): Insights {
    if rows == [] then NoData
    else if !modelReady then NoModel
    else Report(Summarize(rows))
  }

  /** No rows means no insights; otherwise a missing model is reported; otherwise a summary of all the rows. */
  lemma InsightsGuards(rows: seq<Labels>, modelReady: bool)
    ensures GenerateInsights(rows, modelReady) == NoData <==> rows == []
    ensures GenerateInsights(rows, modelReady) == NoModel <==> rows != [] && !modelReady
    ensures GenerateInsights(rows, modelReady).Report? ==> GenerateInsights(rows, modelReady).summary.total == |rows| > 0
  {
  }

  /**
   * The sentiment buckets: positive, negative and neutral count their rows,
   * the remainder counts every row with any other label (not classified or
   * an error), and together they make up all the rows.
   */
  lemma SentimentBuckets(rows: seq<Labels>)
    ensures var s := Summarize(rows);
      && s.total == |rows|
      && s.positive == Count(SentimentColumn(rows), Positive)
      && s.negative == Count(SentimentColumn(rows), Negative)
      && s.neutral == Count(SentimentColumn(rows), Neutral)
      && s.unclassifiedOrError == |Filter(SentimentColumn(rows), Outside([Positive, Negative, Neutral]))|
      && s.positive + s.negative + s.neutral + s.unclassifiedOrError == s.total
  {
    Buckets(SentimentColumn(rows));
  }

  /** The bucket arithmetic on one column. */
  lemma Buckets(col: seq<string>)
    ensures var vc := ValueCounts(col);
      && CountOf(vc, Positive) == Count(col, Positive)
      && CountOf(vc, Negative) == Count(col, Negative)
      && CountOf(vc, Neutral) == Count(col, Neutral)
      && Count(col, Positive) + Count(col, Negative) + Count(col, Neutral)
         + |Filter(col, Outside([Positive, Negative, Neutral]))| == |col|
  {
    var vc := ValueCounts(col);
    ValueCountsCorrect(col);
    CountOfValueCounts(col, vc, Positive);
    CountOfValueCounts(col, vc, Negative);
    CountOfValueCounts(col, vc, Neutral);
    SumOverThree(col, Positive, Negative, Neutral);
    SumOverComplement(col, [Positive, Negative, Neutral]);
  }

  /** With at least one row, the four shares add up to 100%. */
  lemma SentimentShares(rows: seq<Labels>)
    requires rows != []
    ensures var s := Summarize(rows);
      s.positivePercent + s.negativePercent + s.neutralPercent + s.unclassifiedOrErrorPercent == 100.0
  {
    SentimentBuckets(rows);
    var s := Summarize(rows);
    SharesAddUp(s.positive, s.negative, s.neutral, s.unclassifiedOrError, s.total);
  }

  /** Shares of a total taken by parts that make it up add up to 100%. */
  lemma SharesAddUp(a: int, b: int, c: int, d: int, total: nat)
    requires total > 0 && a + b + c + d == total
    ensures Percent(a, total) + Percent(b, total) + Percent(c, total) + Percent(d, total) == 100.0
  {
    var t := total as real;
    assert a as real / t + b as real / t + c as real / t + d as real / t == (a + b + c + d) as real / t;
  }

  /**
   * A ranking of `col`: its total is the size of `col`; it has `n` lines or
   * one per distinct value when there are fewer; each line is a distinct
   * value of `col` with its exact volume and its share of `col`; volumes do
   * not increase; and no value left out has a larger volume than the last
   * line.
   */
  lemma RankingOf(col: seq<string>, n: nat)
    ensures var r := Ranked(ValueCounts(col), n);
      && RankTotal(ValueCounts(col)) == |col|
      && |r| == (if n < |set x | x in col| then n else |set x | x in col|)
      && (forall k :: 0 <= k < |r| ==>
            && r[k].theme in col && r[k].count == Count(col, r[k].theme) && r[k].count > 0
            && r[k].percent == r[k].count as real / |col| as real * 100.0)
      && (forall i, j :: 0 <= i < j < |r| ==> r[i].theme != r[j].theme && r[i].count >= r[j].count)
      && (forall x :: x in col && x !in ThemesOf(r) ==> |r| == n && (n > 0 ==> Count(col, x) <= r[n - 1].count))
  {
    var vc := ValueCounts(col);
    ValueCountsCorrect(col);
    SumOfValueCounts(col, vc);
    TopCounts(col, vc, n);
    var top := Head(vc, n);
    var r := Ranked(vc, n);
    if col == [] {
      assert (set x | x in col) == {};
    } else {
      assert col[0] in Values(vc);
      assert r == seq(|top|, k requires 0 <= k < |top| => RankedTheme(top[k].value, top[k].count, top[k].count as real / |col| as real * 100.0));
      assert ThemesOf(r) == Values(top);
      forall i, j | 0 <= i < j < |r| ensures r[i].theme != r[j].theme {
        assert Values(top)[i] == r[i].theme && Values(top)[j] == r[j].theme;
      }
    }
  }

  /**
   * The top-5 themes: drawn from the rows whose theme is not excluded, five
   * of them or every such theme when there are fewer, each with the number
   * of rows carrying it and its share of those rows, most frequent first,
   * and no theme left out more frequent than the last one shown.
   */
  lemma TopThemes(rows: seq<Labels>)
    ensures var r := TopThemesOf(rows);
      && ThemeTotalOf(rows) == |ThemeChart(rows)|
      && |r| == (if 5 < |set t | t in ThemeChart(rows)| then 5 else |set t | t in ThemeChart(rows)|)
      && (forall k :: 0 <= k < |r| ==>
            && r[k].theme !in ExcludedThemes
            && r[k].count == Count(ThemeColumn(rows), r[k].theme) && r[k].count > 0
            && r[k].percent == r[k].count as real / ThemeTotalOf(rows) as real * 100.0)
      && (forall i, j :: 0 <= i < j < |r| ==> r[i].theme != r[j].theme && r[i].count >= r[j].count)
      && (forall t :: t in ThemeChart(rows) && t !in ThemesOf(r) ==> |r| == 5 && Count(ThemeColumn(rows), t) <= r[4].count)
  {
    var chart := ThemeChart(rows);
    RankingOf(chart, 5);
    forall t | t in chart ensures t !in ExcludedThemes && Count(chart, t) == Count(ThemeColumn(rows), t) {
      ChartCounts(rows, t);
    }
  }

  /**
   * The top-3 negative themes: the same ranking over the negative rows
   * whose theme is not excluded; each theme's volume is the number of
   * negative rows carrying it.
   */
  lemma TopNegativeThemes(rows: seq<Labels>)
    ensures var r := TopNegativeThemesOf(rows);
      && NegativeThemeTotalOf(rows) == |NegativeThemes(rows)|
      && |r| == (if 3 < |set t | t in NegativeThemes(rows)| then 3 else |set t | t in NegativeThemes(rows)|)
      && (forall k :: 0 <= k < |r| ==>
            && r[k].theme !in ExcludedThemes
            && r[k].count == Count(rows, Labels(Negative, r[k].theme)) && r[k].count > 0
            && r[k].percent == r[k].count as real / NegativeThemeTotalOf(rows) as real * 100.0)
      && (forall i, j :: 0 <= i < j < |r| ==> r[i].theme != r[j].theme && r[i].count >= r[j].count)
      && (forall t :: t in NegativeThemes(rows) && t !in ThemesOf(r) ==> |r| == 3 && Count(rows, Labels(Negative, t)) <= r[2].count)
  {
    RankingOf(NegativeThemes(rows), 3);
    AllNegativeThemeCounts(rows);
  }

  lemma AllNegativeThemeCounts(rows: seq<Labels>)
    ensures forall t :: t in NegativeThemes(rows) ==>
      t !in ExcludedThemes && Count(NegativeThemes(rows), t) == Count(rows, Labels(Negative, t))
  {
    forall t | t in NegativeThemes(rows)
      ensures t !in ExcludedThemes && Count(NegativeThemes(rows), t) == Count(rows, Labels(Negative, t))
    {
      NegativeThemeCounts(rows, t);
    }
  }

  /** On classifier output the top-5 ranking names only business themes. */
  lemma TopThemesAreBusinessThemes(rows: seq<Labels>)
    requires forall i :: 0 <= i < |rows| ==> IsClassifierOutput(rows[i])
    ensures forall k :: 0 <= k < |TopThemesOf(rows)| ==>
      TopThemesOf(rows)[k].theme in ValidThemes && TopThemesOf(rows)[k].theme != SocialInteraction
  {
    var r := TopThemesOf(rows);
    TopThemes(rows);
    forall k | 0 <= k < |r| ensures r[k].theme in ValidThemes && r[k].theme != SocialInteraction {
      var t := r[k].theme;
      assert t in ThemeColumn(rows);
      var i :| 0 <= i < |rows| && ThemeColumn(rows)[i] == t;
      KeptLabelsOfClassifierOutput(rows[i]);
    }
  }

  /** On classifier output the top-3 negative ranking names only business themes. */
  lemma TopNegativeThemesAreBusinessThemes(rows: seq<Labels>)
    requires forall i :: 0 <= i < |rows| ==> IsClassifierOutput(rows[i])
    ensures forall k :: 0 <= k < |TopNegativeThemesOf(rows)| ==>
      TopNegativeThemesOf(rows)[k].theme in ValidThemes && TopNegativeThemesOf(rows)[k].theme != SocialInteraction
  {
    var r := TopNegativeThemesOf(rows);
    forall k | 0 <= k < |r| ensures r[k].theme in ValidThemes && r[k].theme != SocialInteraction {
      NegativeRankedRow(rows, k);
      var i :| 0 <= i < |rows| && rows[i] == Labels(Negative, r[k].theme);
      KeptLabelsOfClassifierOutput(rows[i]);
    }
  }

  lemma NegativeRankedRow(rows: seq<Labels>, k: nat)
    requires k < |TopNegativeThemesOf(rows)|
    ensures Labels(Negative, TopNegativeThemesOf(rows)[k].theme) in rows
    ensures TopNegativeThemesOf(rows)[k].theme !in ExcludedThemes
  {
    TopNegativeThemes(rows);
    assert Labels(Negative, TopNegativeThemesOf(rows)[k].theme) in multiset(rows);
  }
}
