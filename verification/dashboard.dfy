/**
 * The figures of the results page (analise_app.py, lines 392-434): the
 * "NPS Social" score over the sentiment chart and the two full summary
 * tables.
 */
module Dashboard {
  import opened Categories
  import opened Counting
  import opened Validator
  import opened Results

  datatype Option<T> = None | Some(value: T)

  /** `max(0, min(10, v))`. */
  function Clamp(v: real): (c: real)
    ensures 0.0 <= c <= 10.0
    ensures 0.0 <= v <= 10.0 ==> c == v
  {
    if v < 0.0 then 0.0 else if v > 10.0 then 10.0 else v
  }

  /** `((pos / total - neg / total) + 1) / 2 * 10`. */
  function NpsFormula(positive: nat, negative: nat, total: nat): real
    requires total > 0
  {
    ((positive as real / total as real - negative as real / total as real) + 1.0) / 2.0 * 10.0
  }

  /**
   * The score over the rows the sentiment chart keeps; none (shown as
   * "N/A") when the chart keeps no row.
   */
  function NpsSocial(rows: seq<Labels>): Option<real> {
    var counts := ValueCounts(SentimentChart(rows));
    var total := SumCounts(counts);
    if total > 0 then Some(Clamp(NpsFormula(CountOf(counts, Positive), CountOf(counts, Negative), total)))
    else None
  }

  /** The chart's figures: its total is its size and each lookup is an exact count. */
  lemma ChartFigures(rows: seq<Labels>)
    ensures var counts := ValueCounts(SentimentChart(rows));
      && SumCounts(counts) == |SentimentChart(rows)|
      && CountOf(counts, Positive) == Count(SentimentChart(rows), Positive)
      && CountOf(counts, Negative) == Count(SentimentChart(rows), Negative)
  {
    var chart := SentimentChart(rows);
    var counts := ValueCounts(chart);
    ValueCountsCorrect(chart);
    SumOfValueCounts(chart, counts);
    CountOfValueCounts(chart, counts, Positive);
    CountOfValueCounts(chart, counts, Negative);
  }

  /** The score over the chart's own counts. */
  lemma NpsOfChart(rows: seq<Labels>)
    ensures var chart := SentimentChart(rows);
      NpsSocial(rows) == if |chart| > 0
        then Some(Clamp(NpsFormula(Count(chart, Positive), Count(chart, Negative), |chart|)))
        else None
  {
    ChartFigures(rows);
  }

  /** Positive and negative entries together never outnumber a list. */
  lemma TwoCountsBound(s: seq<string>)
    ensures Count(s, Positive) + Count(s, Negative) <= |s|
  {
    SumOverBound(s, [Positive, Negative]);
    assert [Positive, Negative][1..] == [Negative];
    assert SumOver(s, [Negative]) == Count(s, Negative);
  }

  /** There is a score exactly when some row has a sentiment outside the excluded ones. */
  lemma NpsDefined(rows: seq<Labels>)
    ensures NpsSocial(rows).Some? <==> exists i :: 0 <= i < |rows| && rows[i].sentiment !in ExcludedSentiments
  {
    NpsOfChart(rows);
    var col := SentimentColumn(rows);
    var chart := SentimentChart(rows);
    if exists i :: 0 <= i < |rows| && rows[i].sentiment !in ExcludedSentiments {
      var i :| 0 <= i < |rows| && rows[i].sentiment !in ExcludedSentiments;
      assert col[i] in multiset(col);
      ChartCounts(rows, col[i]);
      assert |chart| > 0;
    }
  }

  /**
   * What a score `v` over `p` positive and `n` negative rows out of `t` is:
   * `5 + 5 * (p - n) / t`, within [0, 10], 5 exactly when positives and
   * negatives balance, above 5 exactly when positives outnumber negatives,
   * 10 exactly when every row is positive and 0 exactly when every row is
   * negative.
   */
  predicate ScoreMeaning(v: real, p: nat, n: nat, t: nat) {
    var pos, neg, total := p as real, n as real, t as real;
    && total > 0.0
    && v == 5.0 + 5.0 * (pos - neg) / total
    && 0.0 <= v <= 10.0
    && (v == 5.0 <==> pos == neg)
    && (v > 5.0 <==> pos > neg)
    && (v == 10.0 <==> pos == total)
    && (v == 0.0 <==> neg == total)
  }

  /** The score means the above over the chart's rows; the clamp never cuts it. */
  lemma NpsValue(rows: seq<Labels>)
    requires NpsSocial(rows).Some?
    ensures var chart := SentimentChart(rows);
      ScoreMeaning(NpsSocial(rows).value, Count(chart, Positive), Count(chart, Negative), |chart|)
  {
    NpsOfChart(rows);
    var chart := SentimentChart(rows);
    TwoCountsBound(chart);
    var p := Count(chart, Positive);
    var n := Count(chart, Negative);
    var t := |chart|;
    ScoreShape(p, n, t);
  }

  /** The formula's behaviour for counts that fit in the total. */
  lemma ScoreShape(p: nat, n: nat, t: nat)
    requires t > 0 && p + n <= t
    ensures Clamp(NpsFormula(p, n, t)) == NpsFormula(p, n, t)
    ensures ScoreMeaning(NpsFormula(p, n, t), p, n, t)
  {
    var pos, neg, total := p as real, n as real, t as real;
    var d := (pos - neg) / total;
    assert pos / total - neg / total == d;
    assert NpsFormula(p, n, t) == 5.0 + 5.0 * d;
    assert 5.0 * (pos - neg) / total == 5.0 * d;
    Ratio(pos - neg, total);
    assert pos - neg == total <==> pos == total;
    assert neg - pos == total <==> neg == total;
  }

  /** How a quotient by a positive total compares with 0, 1 and -1. */
  lemma Ratio(x: real, total: real)
    requires total > 0.0
    ensures x / total == 0.0 <==> x == 0.0
    ensures x / total > 0.0 <==> x > 0.0
    ensures x / total == 1.0 <==> x == total
    ensures x / total == -1.0 <==> -x == total
    ensures -total <= x <= total ==> -1.0 <= x / total <= 1.0
  {
    var d := x / total;
    assert d * total == x;
  }

  /** On classifier output the chart holds exactly the positive, negative and neutral rows. */
  lemma ChartOfClassifierOutput(rows: seq<Labels>)
    requires forall i :: 0 <= i < |rows| ==> IsClassifierOutput(rows[i])
    ensures |SentimentChart(rows)| ==
      Count(SentimentColumn(rows), Positive) + Count(SentimentColumn(rows), Negative) + Count(SentimentColumn(rows), Neutral)
  {
    var chart := SentimentChart(rows);
    ChartWithinThree(rows);
    SumOverThree(chart, Positive, Negative, Neutral);
    ChartCounts(rows, Positive);
    ChartCounts(rows, Negative);
    ChartCounts(rows, Neutral);
    RealSentimentsCharted();
  }

  lemma ChartWithinThree(rows: seq<Labels>)
    requires forall i :: 0 <= i < |rows| ==> IsClassifierOutput(rows[i])
    ensures |SentimentChart(rows)| == SumOver(SentimentChart(rows), [Positive, Negative, Neutral])
  {
    var keys := [Positive, Negative, Neutral];
    ChartLabelsOfClassifierOutput(rows);
    assert Distinct(keys);
    assert forall x :: x in SentimentChart(rows) ==> x in keys;
    SumOverBound(SentimentChart(rows), keys);
  }

  /** The three real sentiments are not excluded from the chart. */
  lemma RealSentimentsCharted()
    ensures Positive !in ExcludedSentiments && Negative !in ExcludedSentiments && Neutral !in ExcludedSentiments
  {
    VocabulariesDisjoint();
    assert Positive in ValidSentiments && Negative in ValidSentiments && Neutral in ValidSentiments;
  }

  /** Six positive, two negative and two neutral chart rows score 7.0. */
  lemma NpsExample(rows: seq<Labels>)
    requires Count(SentimentChart(rows), Positive) == 6 && Count(SentimentChart(rows), Negative) == 2
    requires |SentimentChart(rows)| == 10
    ensures NpsSocial(rows) == Some(7.0)
  {
    NpsOfChart(rows);
  }

  // The full tables.

  /** One table line: a category, its volume and its share of all rows. */
  datatype TableRow = TableRow(category: string, volume: nat, percent: real)

  const TotalLabel: string := "Total Geral"

  /** `todas_cats_sent` and `todas_cats_tema`: the vocabulary, then the errors in `sorted()` order. */
  const SentimentIndex: seq<string> := ValidSentiments + SortedErrors
  const ThemeIndex: seq<string> := ValidThemes + SortedErrors

  /** `counts.reindex(index, fill_value=0)`. */
  function Reindex(counts: seq<Tally<string>>, index: seq<string>): (r: seq<Tally<string>>)
    ensures |r| == |index| && forall i :: 0 <= i < |index| ==> r[i].value == index[i]
  {
    seq(|index|, i requires 0 <= i < |index| => Tally(index[i], CountOf(counts, index[i])))
  }

  /** `counts[~counts.index.duplicated(keep='first')]`. */
  function DropRepeatedLabels(counts: seq<Tally<string>>): (r: seq<Tally<string>>)
    ensures Distinct(Values(r))
    ensures forall x :: x in Values(r) <==> x in Values(counts)
    ensures forall k :: 0 <= k < |r| ==> r[k] in counts
    ensures Distinct(Values(counts)) ==> r == counts
  {
    if counts == [] then []
    else
      var init := counts[..|counts| - 1];
      var last := counts[|counts| - 1];
      var r := DropRepeatedLabels(init);
      assert counts == init + [last];
      assert Values(counts) == Values(init) + [last.value];
      if last.value in Values(init) then
        assert !Distinct(Values(counts)) by {
          var j :| 0 <= j < |init| && Values(init)[j] == last.value;
          assert Values(counts)[j] == Values(counts)[|counts| - 1];
        }
        r
      else
        assert Values(r + [last]) == Values(r) + [last.value];
        assert Distinct(Values(counts)) ==> Distinct(Values(init)) by {
          if Distinct(Values(counts)) {
            forall i, j | 0 <= i < j < |init| ensures Values(init)[i] != Values(init)[j] {
              assert Values(counts)[i] == Values(init)[i] && Values(counts)[j] == Values(init)[j];
            }
          }
        }
        r + [last]
  }

  /** No entry before position `p` has the label of the entry at `p`. */
  predicate FirstOfLabel(counts: seq<Tally<string>>, p: nat)
    requires p < |counts|
  {
    forall p' :: 0 <= p' < p ==> counts[p'].value != counts[p].value
  }

  /** The positions whose entry is the first with its label, in increasing order. */
  function FirstPositions(counts: seq<Tally<string>>): (idx: seq<nat>)
    ensures forall k :: 0 <= k < |idx| ==> idx[k] < |counts| && FirstOfLabel(counts, idx[k])
    ensures forall i, j :: 0 <= i < j < |idx| ==> idx[i] < idx[j]
    ensures forall p :: 0 <= p < |counts| && FirstOfLabel(counts, p) ==> p in idx
  {
    if counts == [] then []
    else
      var init, last := counts[..|counts| - 1], counts[|counts| - 1];
      var idx := FirstPositions(init);
      assert counts == init + [last];
      assert forall k :: 0 <= k < |idx| ==> FirstOfLabel(counts, idx[k]) by {
        forall k | 0 <= k < |idx| ensures FirstOfLabel(counts, idx[k]) {
          FirstInPrefix(init, last, idx[k]);
        }
      }
      assert forall p :: 0 <= p < |init| && FirstOfLabel(counts, p) ==> FirstOfLabel(init, p) by {
        forall p | 0 <= p < |init| && FirstOfLabel(counts, p) ensures FirstOfLabel(init, p) {
          assert forall p' :: 0 <= p' < p ==> init[p'] == counts[p'];
        }
      }
      if FirstOfLabel(counts, |counts| - 1) then idx + [|counts| - 1] else idx
  }

  /** An entry first with its label in a prefix stays first in the whole. */
  lemma FirstInPrefix(init: seq<Tally<string>>, last: Tally<string>, p: nat)
    requires p < |init| && FirstOfLabel(init, p)
    ensures FirstOfLabel(init + [last], p)
  {
    var counts := init + [last];
    forall p' | 0 <= p' < p ensures counts[p'].value != counts[p].value {
      assert counts[p'] == init[p'] && counts[p] == init[p];
    }
  }

  /** The last entry is first with its label exactly when no earlier entry has it. */
  lemma LastFirstOfLabel(init: seq<Tally<string>>, last: Tally<string>)
    ensures FirstOfLabel(init + [last], |init|) <==> last.value !in Values(init)
  {
    var counts := init + [last];
    if last.value in Values(init) {
      var p :| 0 <= p < |init| && Values(init)[p] == last.value;
      assert counts[p].value == counts[|init|].value;
    } else {
      forall p | 0 <= p < |init| ensures counts[p].value != counts[|init|].value {
        assert counts[p].value == Values(init)[p];
      }
    }
  }

  /**
   * `keep='first'`: the kept entries are exactly those first with their
   * label, in the order of `counts`.
   */
  lemma {:induction false} DropRepeatedKeepsFirst(counts: seq<Tally<string>>)
    ensures DropRepeatedLabels(counts) == At(counts, FirstPositions(counts))
  {
    if counts != [] {
      var init, last := counts[..|counts| - 1], counts[|counts| - 1];
      assert counts == init + [last];
      DropRepeatedKeepsFirst(init);
      LastFirstOfLabel(init, last);
      AtSnoc(init, last, FirstPositions(init));
    }
  }

  predicate HasVolume(row: TableRow) {
    row.volume > 0
  }

  /** The category lines with their shares of `total`. */
  function WithPercent(counts: seq<Tally<string>>, total: nat): (r: seq<TableRow>)
    requires total > 0
    ensures |r| == |counts|
    ensures forall k :: 0 <= k < |r| ==> r[k] == TableRow(counts[k].value, counts[k].count, counts[k].count as real / total as real * 100.0)
  {
    seq(|counts|, k requires 0 <= k < |counts| => TableRow(counts[k].value, counts[k].count, counts[k].count as real / total as real * 100.0))
  }

  /** The lines with a positive volume, then the total line. */
  function Displayed(counts: seq<Tally<string>>, total: nat): seq<TableRow>
    requires total > 0
  {
    Filter(WithPercent(counts, total), HasVolume) + [TableRow(TotalLabel, total, 100.0)]
  }

  /** Table 1. The analysis only runs on a non-empty batch (line 377). */
  function SentimentTable(rows: seq<Labels>): seq<TableRow>
    requires rows != []
  {
    Displayed(Reindex(ValueCounts(SentimentColumn(rows)), SentimentIndex), |rows|)
  }

  /** Table 2. */
  function ThemeTable(rows: seq<Labels>): seq<TableRow>
    requires rows != []
  {
    Displayed(DropRepeatedLabels(Reindex(ValueCounts(ThemeColumn(rows)), ThemeIndex)), |rows|)
  }

  /** `counts` holds one entry per index label, with that label's count in `col`. */
  predicate CountsIndex(counts: seq<Tally<string>>, col: seq<string>, index: seq<string>) {
    |counts| == |index| && forall i :: 0 <= i < |index| ==> counts[i] == Tally(index[i], Count(col, index[i]))
  }

  /** Reindexing a `value_counts()` result gives each index label its count, zero when absent. */
  lemma ReindexCounts(col: seq<string>, index: seq<string>)
    ensures CountsIndex(Reindex(ValueCounts(col), index), col, index)
  {
    var vc := ValueCounts(col);
    ValueCountsCorrect(col);
    forall i | 0 <= i < |index| ensures CountOf(vc, index[i]) == Count(col, index[i]) {
      CountOfValueCounts(col, vc, index[i]);
    }
  }

  lemma DistinctConcat(a: seq<string>, b: seq<string>)
    requires Distinct(a) && Distinct(b)
    requires forall x :: x in a ==> x !in b
    ensures Distinct(a + b)
  {
    forall i, j | 0 <= i < j < |a + b| ensures (a + b)[i] != (a + b)[j] {
      if i < |a| && j >= |a| {
        assert (a + b)[i] in a && (a + b)[j] == b[j - |a|];
      }
    }
  }

  /** Each category of either index appears once, so dropping repeated labels keeps every line. */
  lemma IndexesDistinct()
    ensures Distinct(SentimentIndex) && Distinct(ThemeIndex)
  {
    VocabulariesDisjoint();
    SortedErrorsCover();
    SentimentsDistinct();
    ThemesDistinct();
    ErrorRowsDistinct();
    assert forall e :: e in SortedErrors ==> e in AllErrors;
    DistinctConcat(ValidSentiments, SortedErrors);
    DistinctConcat(ValidThemes, SortedErrors);
  }

  lemma SentimentsDistinct()
    ensures Distinct(ValidSentiments)
  {
  }

  lemma ThemesDistinct()
    ensures Distinct(ValidThemes)
  {
    var lengths: seq<nat> := [14, 27, 21, 35, 33, 31, 18, 41, 30, 23];
    assert Lengths(ValidThemes) == lengths;
    DistinctByLength(ValidThemes, lengths);
  }

  lemma ErrorRowsDistinct()
    ensures Distinct(SortedErrors)
  {
    var lengths: seq<nat> := [8, 29, 16, 30, 18, 12];
    assert Lengths(SortedErrors) == lengths;
    DistinctByLength(SortedErrors, lengths);
  }

  function Lengths(s: seq<string>): (r: seq<nat>)
    ensures |r| == |s| && forall i :: 0 <= i < |s| ==> r[i] == |s[i]|
  {
    seq(|s|, i requires 0 <= i < |s| => |s[i]|)
  }

  /** Labels of pairwise different lengths are pairwise different. */
  lemma DistinctByLength(s: seq<string>, lengths: seq<nat>)
    requires Lengths(s) == lengths && Distinct(lengths)
    ensures Distinct(s)
  {
    forall i, j | 0 <= i < j < |s| ensures s[i] != s[j] {
      assert lengths[i] != lengths[j];
    }
  }

  /**
   * The shape of a displayed table: every line but the last has a positive
   * volume and comes from `counts` with its share of `total`; every entry
   * of `counts` with a positive volume is shown; the lines keep the order
   * of `counts`; the last line is `Total Geral` with `total` and 100%.
   */
  lemma DisplayedShape(counts: seq<Tally<string>>, total: nat)
    requires total > 0
    ensures var t := Displayed(counts, total);
      && |t| >= 1 && t[|t| - 1] == TableRow(TotalLabel, total, 100.0)
      && (forall k :: 0 <= k < |t| - 1 ==>
            t[k].volume > 0 && Tally(t[k].category, t[k].volume) in counts
            && t[k].percent == t[k].volume as real / total as real * 100.0)
      && (forall e :: e in counts && e.count > 0 ==>
            TableRow(e.value, e.count, e.count as real / total as real * 100.0) in t[..|t| - 1])
      && (forall i, j :: 0 <= i < j < |t| - 1 ==>
            exists p, q :: 0 <= p < q < |counts|
              && counts[p] == Tally(t[i].category, t[i].volume) && counts[q] == Tally(t[j].category, t[j].volume))
  {
    DisplayedLines(counts, total);
    DisplayedAll(counts, total);
    DisplayedInOrder(counts, total);
  }

  /** Each displayed category line is the line of the entry of `counts` at its kept position. */
  lemma KeptLines(counts: seq<Tally<string>>, total: nat)
    requires total > 0
    ensures var w := WithPercent(counts, total);
      var kept, idx := Filter(w, HasVolume), KeptPositions(w, HasVolume);
      forall k :: 0 <= k < |kept| ==>
        && idx[k] < |counts| && counts[idx[k]] == Tally(kept[k].category, kept[k].volume)
        && kept[k].volume > 0 && kept[k].percent == kept[k].volume as real / total as real * 100.0
  {
  }

  lemma DisplayedLines(counts: seq<Tally<string>>, total: nat)
    requires total > 0
    ensures var t := Displayed(counts, total);
      && |t| >= 1 && t[|t| - 1] == TableRow(TotalLabel, total, 100.0)
      && (forall k :: 0 <= k < |t| - 1 ==>
            t[k].volume > 0 && Tally(t[k].category, t[k].volume) in counts
            && t[k].percent == t[k].volume as real / total as real * 100.0)
  {
    var t := Displayed(counts, total);
    var w := WithPercent(counts, total);
    var kept, idx := Filter(w, HasVolume), KeptPositions(w, HasVolume);
    KeptLines(counts, total);
    forall k | 0 <= k < |t| - 1
      ensures t[k].volume > 0 && Tally(t[k].category, t[k].volume) in counts
    {
      assert t[k] == kept[k];
      assert counts[idx[k]] == Tally(kept[k].category, kept[k].volume);
    }
  }

  lemma DisplayedAll(counts: seq<Tally<string>>, total: nat)
    requires total > 0
    ensures var t := Displayed(counts, total);
      forall e :: e in counts && e.count > 0 ==>
        TableRow(e.value, e.count, e.count as real / total as real * 100.0) in t[..|t| - 1]
  {
    var w := WithPercent(counts, total);
    var kept := Filter(w, HasVolume);
    var t := Displayed(counts, total);
    assert t[..|t| - 1] == kept;
    forall e | e in counts && e.count > 0 ensures TableRow(e.value, e.count, e.count as real / total as real * 100.0) in kept {
      var j :| 0 <= j < |counts| && counts[j] == e;
      assert w[j] in multiset(w);
      assert Count(kept, w[j]) == Count(w, w[j]);
    }
  }

  lemma DisplayedInOrder(counts: seq<Tally<string>>, total: nat)
    requires total > 0
    ensures var t := Displayed(counts, total);
      forall i, j :: 0 <= i < j < |t| - 1 ==>
        exists p, q :: 0 <= p < q < |counts|
          && counts[p] == Tally(t[i].category, t[i].volume) && counts[q] == Tally(t[j].category, t[j].volume)
  {
    var t := Displayed(counts, total);
    var w := WithPercent(counts, total);
    var kept, idx := Filter(w, HasVolume), KeptPositions(w, HasVolume);
    KeptLines(counts, total);
    forall i, j | 0 <= i < j < |t| - 1
      ensures exists p, q :: 0 <= p < q < |counts| &&
                counts[p] == Tally(t[i].category, t[i].volume) && counts[q] == Tally(t[j].category, t[j].volume)
    {
      assert t[i] == kept[i] && t[j] == kept[j];
      assert idx[i] < idx[j];
      assert counts[idx[i]] == Tally(kept[i].category, kept[i].volume);
    }
  }

  /**
   * The shape of a full table over a column and an index: the last line is
   * `Total Geral` with `total` and 100%; every other line is an index
   * category that occurs in the column, with its exact count and its share
   * of `total`; each such category is shown, and only once; the lines
   * follow the order of the index.
   */
  predicate IsFullTable(t: seq<TableRow>, col: seq<string>, index: seq<string>, total: nat) {
    && total > 0
    && |t| >= 1 && t[|t| - 1] == TableRow(TotalLabel, total, 100.0)
    && (forall k :: 0 <= k < |t| - 1 ==>
          && t[k].category in index && t[k].volume == Count(col, t[k].category) > 0
          && t[k].percent == t[k].volume as real / total as real * 100.0)
    && (forall x :: x in index && Count(col, x) > 0 ==>
          TableRow(x, Count(col, x), Count(col, x) as real / total as real * 100.0) in t[..|t| - 1])
    && (forall i, j :: 0 <= i < j < |t| - 1 ==> t[i].category != t[j].category)
    && InIndexOrder(t, index)
  }

  /** The category lines are index categories, listed in the order of the index. */
  predicate InIndexOrder(t: seq<TableRow>, index: seq<string>) {
    && (forall k :: 0 <= k < |t| - 1 ==> t[k].category in index)
    && (forall i, j :: 0 <= i < j < |t| - 1 ==>
          exists p, q :: 0 <= p < q < |index| && index[p] == t[i].category && index[q] == t[j].category)
  }

  /** Displaying exact counts over a repetition-free index gives a full table. */
  lemma FullTable(counts: seq<Tally<string>>, col: seq<string>, index: seq<string>, total: nat)
    requires total > 0 && Distinct(index) && CountsIndex(counts, col, index)
    ensures IsFullTable(Displayed(counts, total), col, index, total)
  {
    DisplayedShape(counts, total);
    TableLines(counts, col, index, total);
    TableLinesOnce(counts, col, index, total);
    TableShowsAll(counts, col, index, total);
    TableInIndexOrder(counts, col, index, total);
  }

  lemma TableShowsAll(counts: seq<Tally<string>>, col: seq<string>, index: seq<string>, total: nat)
    requires total > 0 && CountsIndex(counts, col, index)
    ensures var t := Displayed(counts, total);
      forall x :: x in index && Count(col, x) > 0 ==>
        TableRow(x, Count(col, x), Count(col, x) as real / total as real * 100.0) in t[..|t| - 1]
  {
    var t := Displayed(counts, total);
    var w := WithPercent(counts, total);
    var kept := Filter(w, HasVolume);
    assert t[..|t| - 1] == kept;
    forall x | x in index && Count(col, x) > 0
      ensures TableRow(x, Count(col, x), Count(col, x) as real / total as real * 100.0) in kept
    {
      var j :| 0 <= j < |index| && index[j] == x;
      var row := w[j];
      assert row == TableRow(x, Count(col, x), Count(col, x) as real / total as real * 100.0);
      assert row in multiset(w);
      assert Count(kept, row) == Count(w, row);
      assert row in multiset(kept);
    }
  }

  lemma TableLines(counts: seq<Tally<string>>, col: seq<string>, index: seq<string>, total: nat)
    requires total > 0 && CountsIndex(counts, col, index)
    ensures var t := Displayed(counts, total);
      forall k :: 0 <= k < |t| - 1 ==> t[k].category in index && t[k].volume == Count(col, t[k].category)
  {
    var t := Displayed(counts, total);
    DisplayedShape(counts, total);
    forall k | 0 <= k < |t| - 1 ensures t[k].category in index && t[k].volume == Count(col, t[k].category) {
      var j :| 0 <= j < |counts| && counts[j] == Tally(t[k].category, t[k].volume);
    }
  }

  /** The category lines come in the order of the index. */
  lemma TableInIndexOrder(counts: seq<Tally<string>>, col: seq<string>, index: seq<string>, total: nat)
    requires total > 0 && CountsIndex(counts, col, index)
    ensures InIndexOrder(Displayed(counts, total), index)
  {
    var t := Displayed(counts, total);
    DisplayedInOrder(counts, total);
    TableLines(counts, col, index, total);
    forall i, j | 0 <= i < j < |t| - 1
      ensures exists p, q :: 0 <= p < q < |index| && index[p] == t[i].category && index[q] == t[j].category
    {
      var p, q :| 0 <= p < q < |counts|
        && counts[p] == Tally(t[i].category, t[i].volume) && counts[q] == Tally(t[j].category, t[j].volume);
      assert index[p] == t[i].category && index[q] == t[j].category;
    }
  }

  lemma TableLinesOnce(counts: seq<Tally<string>>, col: seq<string>, index: seq<string>, total: nat)
    requires total > 0 && Distinct(index) && CountsIndex(counts, col, index)
    ensures var t := Displayed(counts, total);
      forall i, j :: 0 <= i < j < |t| - 1 ==> t[i].category != t[j].category
  {
    var t := Displayed(counts, total);
    TableInIndexOrder(counts, col, index, total);
    assert InIndexOrder(t, index);
    forall i, j | 0 <= i < j < |t| - 1 ensures t[i].category != t[j].category {
      var p, q :| 0 <= p < q < |index| && index[p] == t[i].category && index[q] == t[j].category;
    }
  }

  /** Dropping repeated labels from the theme counts removes nothing. */
  lemma ThemeTableKeepsAll(rows: seq<Labels>)
    requires rows != []
    ensures ThemeTable(rows) == Displayed(Reindex(ValueCounts(ThemeColumn(rows)), ThemeIndex), |rows|)
  {
    var counts := Reindex(ValueCounts(ThemeColumn(rows)), ThemeIndex);
    IndexesDistinct();
    assert Values(counts) == ThemeIndex;
  }

  /** Table 1 is a full table over the sentiment column and its index. */
  lemma SentimentTableShape(rows: seq<Labels>)
    requires rows != []
    ensures IsFullTable(SentimentTable(rows), SentimentColumn(rows), SentimentIndex, |rows|)
  {
    IndexesDistinct();
    ReindexCounts(SentimentColumn(rows), SentimentIndex);
    FullTable(Reindex(ValueCounts(SentimentColumn(rows)), SentimentIndex), SentimentColumn(rows), SentimentIndex, |rows|);
  }

  /** Table 2 is a full table over the theme column and its index. */
  lemma ThemeTableShape(rows: seq<Labels>)
    requires rows != []
    ensures IsFullTable(ThemeTable(rows), ThemeColumn(rows), ThemeIndex, |rows|)
  {
    IndexesDistinct();
    ThemeTableKeepsAll(rows);
    ReindexCounts(ThemeColumn(rows), ThemeIndex);
    FullTable(Reindex(ValueCounts(ThemeColumn(rows)), ThemeIndex), ThemeColumn(rows), ThemeIndex, |rows|);
  }

  /**
   * The category lines of a table over the vocabulary and the sorted
   * errors: each is a vocabulary or an error category, the vocabulary lines
   * come first, and the error lines come in Python's string order.
   */
  predicate VocabularyThenSortedErrors(t: seq<TableRow>, vocab: seq<string>) {
    && (forall k :: 0 <= k < |t| - 1 ==> t[k].category in vocab || t[k].category in AllErrors)
    && (forall i, j :: 0 <= i < j < |t| - 1 && t[j].category in vocab ==> t[i].category in vocab)
    && (forall i, j :: 0 <= i < j < |t| - 1 && t[i].category in AllErrors && t[j].category in AllErrors ==>
          LexLess(t[i].category, t[j].category))
  }

  /** Lines in the order of the vocabulary followed by the sorted errors come in that order. */
  lemma IndexOrderShown(t: seq<TableRow>, vocab: seq<string>)
    requires InIndexOrder(t, vocab + SortedErrors)
    requires forall x :: x in vocab ==> x !in AllErrors
    ensures VocabularyThenSortedErrors(t, vocab)
  {
    ErrorRowsAreErrors();
    forall k | 0 <= k < |t| - 1 ensures t[k].category in vocab || t[k].category in AllErrors {
      assert t[k].category in vocab + SortedErrors;
    }
    VocabularyFirst(t, vocab);
    ErrorsSorted(t, vocab);
  }

  lemma VocabularyFirst(t: seq<TableRow>, vocab: seq<string>)
    requires InIndexOrder(t, vocab + SortedErrors)
    requires forall x :: x in vocab ==> x !in AllErrors
    ensures forall i, j :: 0 <= i < j < |t| - 1 && t[j].category in vocab ==> t[i].category in vocab
  {
    var index := vocab + SortedErrors;
    ErrorRowsAreErrors();
    forall i, j | 0 <= i < j < |t| - 1 && t[j].category in vocab ensures t[i].category in vocab {
      var p, q :| 0 <= p < q < |index| && index[p] == t[i].category && index[q] == t[j].category;
      assert q < |vocab|;
      assert index[p] == vocab[p];
    }
  }

  lemma ErrorsSorted(t: seq<TableRow>, vocab: seq<string>)
    requires InIndexOrder(t, vocab + SortedErrors)
    requires forall x :: x in vocab ==> x !in AllErrors
    ensures forall i, j :: 0 <= i < j < |t| - 1 && t[i].category in AllErrors && t[j].category in AllErrors ==>
      LexLess(t[i].category, t[j].category)
  {
    var index := vocab + SortedErrors;
    SortedErrorsOrdered();
    forall i, j | 0 <= i < j < |t| - 1 && t[i].category in AllErrors && t[j].category in AllErrors
      ensures LexLess(t[i].category, t[j].category)
    {
      var p, q :| 0 <= p < q < |index| && index[p] == t[i].category && index[q] == t[j].category;
      assert p >= |vocab|;
      assert index[p] == SortedErrors[p - |vocab|] && index[q] == SortedErrors[q - |vocab|];
      SortedAllPairs(SortedErrors, p - |vocab|, q - |vocab|);
    }
  }

  lemma ErrorRowsAreErrors()
    ensures forall i :: 0 <= i < |SortedErrors| ==> SortedErrors[i] in AllErrors
  {
    SortedErrorsCover();
  }

  /** Table 1 lists the sentiments first, then the error rows in `sorted()` order. */
  lemma SentimentTableOrder(rows: seq<Labels>)
    requires rows != []
    ensures VocabularyThenSortedErrors(SentimentTable(rows), ValidSentiments)
  {
    SentimentTableShape(rows);
    VocabulariesDisjoint();
    IndexOrderShown(SentimentTable(rows), ValidSentiments);
  }

  /** Table 2 lists the themes first, then the error rows in `sorted()` order. */
  lemma ThemeTableOrder(rows: seq<Labels>)
    requires rows != []
    ensures VocabularyThenSortedErrors(ThemeTable(rows), ValidThemes)
  {
    ThemeTableShape(rows);
    VocabulariesDisjoint();
    IndexOrderShown(ThemeTable(rows), ValidThemes);
  }

  // Totals.

  function VolumeSum(t: seq<TableRow>): nat {
    if t == [] then 0 else t[0].volume + VolumeSum(t[1..])
  }

  function PercentSum(t: seq<TableRow>): real {
    if t == [] then 0.0 else t[0].percent + PercentSum(t[1..])
  }

  lemma {:induction false} SumsSnoc(t: seq<TableRow>, x: TableRow)
    ensures VolumeSum(t + [x]) == VolumeSum(t) + x.volume
    ensures PercentSum(t + [x]) == PercentSum(t) + x.percent
  {
    if t != [] {
      assert (t + [x])[1..] == t[1..] + [x];
      SumsSnoc(t[1..], x);
    }
  }

  /** Dropping the empty lines changes neither total when empty lines carry 0%. */
  lemma {:induction false} DropEmptyLines(w: seq<TableRow>)
    requires forall k :: 0 <= k < |w| && w[k].volume == 0 ==> w[k].percent == 0.0
    ensures VolumeSum(Filter(w, HasVolume)) == VolumeSum(w)
    ensures PercentSum(Filter(w, HasVolume)) == PercentSum(w)
  {
    if w != [] {
      var init := w[..|w| - 1];
      var last := w[|w| - 1];
      assert w == init + [last];
      DropEmptyLines(init);
      SumsSnoc(init, last);
      FilterSnoc(init, last, HasVolume);
      if HasVolume(last) {
        SumsSnoc(Filter(init, HasVolume), last);
      }
    }
  }

  /** The lines' volumes add up to the counts' sum, their shares to that sum's share. */
  lemma {:induction false} PercentSums(counts: seq<Tally<string>>, total: nat)
    requires total > 0
    ensures VolumeSum(WithPercent(counts, total)) == SumCounts(counts)
    ensures PercentSum(WithPercent(counts, total)) == SumCounts(counts) as real / total as real * 100.0
  {
    if counts != [] {
      assert WithPercent(counts, total)[1..] == WithPercent(counts[1..], total);
      PercentSums(counts[1..], total);
      SharesAdd(counts[0].count, SumCounts(counts[1..]), total);
    }
  }

  lemma SharesAdd(a: nat, b: nat, total: nat)
    requires total > 0
    ensures a as real / total as real * 100.0 + b as real / total as real * 100.0 == (a + b) as real / total as real * 100.0
  {
  }

  /** The category lines of a full table account for the whole column and 100%. */
  predicate AddsUp(t: seq<TableRow>, total: nat) {
    |t| >= 1 && VolumeSum(t[..|t| - 1]) == total && PercentSum(t[..|t| - 1]) == 100.0
  }

  /** When the index lists every value of the column, the category lines add up. */
  lemma TableTotals(counts: seq<Tally<string>>, col: seq<string>, index: seq<string>)
    requires col != [] && Distinct(index) && CountsIndex(counts, col, index)
    requires forall x :: x in col ==> x in index
    ensures AddsUp(Displayed(counts, |col|), |col|)
  {
    var w := WithPercent(counts, |col|);
    var t := Displayed(counts, |col|);
    assert t[..|t| - 1] == Filter(w, HasVolume);
    EmptyLinesNoShare(counts, |col|);
    DropEmptyLines(w);
    PercentSums(counts, |col|);
    CountsSum(counts, col, index);
    Ratio(|col| as real, |col| as real);
  }

  lemma EmptyLinesNoShare(counts: seq<Tally<string>>, total: nat)
    requires total > 0
    ensures var w := WithPercent(counts, total);
      forall k :: 0 <= k < |w| && w[k].volume == 0 ==> w[k].percent == 0.0
  {
  }

  lemma CountsSum(counts: seq<Tally<string>>, col: seq<string>, index: seq<string>)
    requires Distinct(index) && CountsIndex(counts, col, index)
    requires forall x :: x in col ==> x in index
    ensures SumCounts(counts) == |col|
  {
    SumCountsOver(col, counts);
    assert Values(counts) == index;
    SumOverBound(col, index);
  }

  /** Every label the classifier can produce has a line in its full table. */
  lemma ClassifierLabelsIndexed(l: Labels)
    requires IsClassifierOutput(l)
    ensures l.sentiment in SentimentIndex && l.theme in ThemeIndex
  {
    assert SentimentIndex == [Positive, Negative, Neutral, Unclassified] + SortedErrors;
    assert ThemeIndex[9] == UnclassifiedTheme;
    assert ThemeIndex[10] == ApiError && ThemeIndex[11] == ApiContentBlocked && ThemeIndex[12] == ApiGeneral;
    assert ThemeIndex[13] == ApiModelNotReady && ThemeIndex[14] == ApiTimeout && ThemeIndex[15] == ParsingError;
    assert l.theme in ValidThemes ==> l.theme in ThemeIndex;
  }

  /** On classifier output both tables account for every row: volumes sum to the row count, shares to 100%. */
  lemma TablesAddUp(rows: seq<Labels>)
    requires rows != []
    requires forall i :: 0 <= i < |rows| ==> IsClassifierOutput(rows[i])
    ensures AddsUp(SentimentTable(rows), |rows|)
    ensures AddsUp(ThemeTable(rows), |rows|)
  {
    IndexesDistinct();
    forall x | x in SentimentColumn(rows) ensures x in SentimentIndex {
      var i :| 0 <= i < |rows| && SentimentColumn(rows)[i] == x;
      ClassifierLabelsIndexed(rows[i]);
    }
    forall x | x in ThemeColumn(rows) ensures x in ThemeIndex {
      var i :| 0 <= i < |rows| && ThemeColumn(rows)[i] == x;
      ClassifierLabelsIndexed(rows[i]);
    }
    ReindexCounts(SentimentColumn(rows), SentimentIndex);
    TableTotals(Reindex(ValueCounts(SentimentColumn(rows)), SentimentIndex), SentimentColumn(rows), SentimentIndex);
    ThemeTableKeepsAll(rows);
    ReindexCounts(ThemeColumn(rows), ThemeIndex);
    TableTotals(Reindex(ValueCounts(ThemeColumn(rows)), ThemeIndex), ThemeColumn(rows), ThemeIndex);
  }
}
