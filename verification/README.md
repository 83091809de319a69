# Sentiment and theme dashboard: a verified model of its deterministic core

`analise_app.py` is a Streamlit dashboard. It sends each social-media
comment to a Gemini model and asks for a sentiment and a theme, then turns
the answers into charts, an "NPS Social" score, summary tables and an
insights report. The core that this project models is everything between
the model's reply and the figures shown on screen:

- **the closed vocabularies** (`categories.dfy`): the four sentiments, the
  ten themes, the error sentinels, the two exclusion lists, and the
  `sorted()` order of the error rows;
- **Python's string operations** the validator uses (`text.dfy`):
  `strip()` with Python's whitespace set, `split('\n')`, `lower()` (ASCII
  folding), `startswith`, `in` on strings, and `split(":", 1)[1]`;
- **the reply validator `analisar_comentario`** (`validator.dfy`):
  - the blank-comment and missing-model guards;
  - the line scan, as a method with a loop, proved against a last-wins fold;
  - the decision ladder;
  - the exception mapping;
  - the pair of labels it returns;
- **the pandas operations** the aggregation needs (`counting.dfy`): boolean
  masks, `value_counts()` (each distinct value once, with its count,
  in non-increasing count order), `Series.get(x, 0)`, `sum()` and `head(n)`;
- **the results table** (`results.dfy`):
  - the analysis loop that builds it;
  - its two columns;
  - the exclusion filters of the charts, the score and the rankings;
- **`gerar_insights`** up to the model call (`insights.dfy`): the sentiment
  buckets and their shares, the top-5 themes and the top-3 negative themes;
- **the results page** (`dashboard.dfy`): the clamped 0–10 "NPS Social"
  score and the two full summary tables, with their `Total Geral` line.

Labels are kept as the strings the source compares. Counts are `nat`.
Percentages and the score are `real`, which means exact rationals.

## Model

| member | source | states |
|---|---|---|
| Categories.SortedErrorsIsSorted | analise_app.py:431 | the error rows of both tables are in Python's code-point string order, and are exactly the six error sentinels, each once |
| Categories.LexLessTransitive | analise_app.py:431 | Python's string `<`, which `sorted()` orders by, is transitive |
| Categories.SortedAllPairs | analise_app.py:431 | in a list sorted by `sorted()` every entry comes before every later one, not only its neighbour |
| Categories.SortedErrorsCover | analise_app.py:218-220 | `set(categorias_erro + categorias_erro_tema_especifico)` has six members, the same as the sorted error rows |
| Categories.VocabulariesDisjoint | analise_app.py:205-223 | no valid sentiment or theme is an error sentinel; the only excluded sentiment in the vocabulary is NC; the only excluded themes are the NC theme and "Interação Social e Engajamento" |
| Categories.ErrorsExcluded | analise_app.py:218-223 | every error sentinel is excluded from both the sentiment and the theme views |
| PyText.LeadingSpace | analise_app.py:254 | the length of the run of Python whitespace that `strip()` removes at the front |
| PyText.KeptBeforeTrailingSpace | analise_app.py:254 | where the run of trailing whitespace that `strip()` removes begins |
| PyText.Strip | analise_app.py:229 | definition; its properties are PyText.LeadingSpace, PyText.KeptBeforeTrailingSpace, PyText.StripShape, PyText.StripEmptyIffAllSpace and PyText.StripIdentity |
| PyText.StripShape | analise_app.py:254 | the stripped text neither starts nor ends with whitespace, and occurs inside the original |
| PyText.StripEmptyIffAllSpace | analise_app.py:229 | `s.strip() == ""` exactly when every character of `s` is whitespace |
| PyText.StripIdentity | analise_app.py:254 | text with no whitespace at either end is unchanged by `strip()` |
| PyText.Split | analise_app.py:251 | `split('\n')` gives at least one part, and no part contains the separator |
| PyText.JoinSplit | analise_app.py:251 | joining the parts of `split(sep)` with `sep` gives back the original text |
| PyText.SplitNoSep | analise_app.py:251 | text without the separator splits into itself alone |
| PyText.SplitAppend | analise_app.py:251 | splitting `a + sep + b` gives the parts of `a` followed by the parts of `b` |
| PyText.FirstIndex | analise_app.py:256 | the position `split(":", 1)` cuts at: a `:`, with none before it |
| PyText.AfterFirst | analise_app.py:256 | definition of `split(":", 1)[1]`; its property is PyText.AfterPrefix |
| PyText.LowerChar | analise_app.py:255 | `lower()` on one character maps A-Z to a-z and leaves every other character alone (ASCII folding only; see "Left out") |
| PyText.Lower | analise_app.py:277 | `lower()` keeps the length and lowers each character |
| PyText.StartsWithLower | analise_app.py:255 | definition of `s.lower().startswith(p)`; its properties are PyText.StartsWithLowerIff and PyText.StartsWithLowerAt |
| PyText.Contains | analise_app.py:278 | definition of `needle in haystack`; its property is Validator.ExceptionTheme |
| PyText.StartsWithLowerIff | analise_app.py:255 | the case-insensitive prefix test is exactly `s.lower().startswith(p)` |
| PyText.StartsWithLowerAt | analise_app.py:257 | a text whose first characters lower to `p` passes the case-insensitive test for `p` |
| PyText.AfterPrefix | analise_app.py:256 | after a lower-case prefix closed by `:`, `split(":", 1)[1]` is what follows the prefix |
| Validator.PrefixShapes | analise_app.py:255-257 | `sentimento:` and `tema:` are lower-case letters closed by a single `:` |
| Validator.Captured | analise_app.py:256 | definition of `linha_strip.split(":", 1)[1].strip()`; its properties are PyText.AfterPrefix, Validator.SentimentLineOf and Validator.ThemeLineOf |
| Validator.Step | analise_app.py:254-258 | definition of one loop iteration; its properties are Validator.StepCases and Validator.StepFields |
| Validator.ScanLines | analise_app.py:249-258 | definition of the last-wins fold; its properties are Validator.ScanLinesPrefix, Validator.UnmatchedFieldStaysUnset, Validator.LastSentimentLineWins and Validator.LastThemeLineWins |
| Validator.Scan | analise_app.py:248-258 | definition over `response.text.strip().split('\n')`; its properties are Validator.ScanReply and Validator.ScanFormatted |
| Validator.ScanReply | analise_app.py:251-258 | the loop over the reply's lines returns the last-wins fold of the steps over `response.text.strip().split('\n')` |
| Validator.ScanLinesPrefix | analise_app.py:253-258 | scanning one more line applies exactly one more step |
| Validator.StepCases | analise_app.py:254-258 | one loop iteration: a `sentimento:` line overwrites the sentiment with the stripped text after its first `:`; otherwise a `tema:` line overwrites the theme; any other line changes nothing |
| Validator.StepFields | analise_app.py:255-258 | a step changes only the field its line labels |
| Validator.UnmatchedFieldStaysUnset | analise_app.py:249-250 | a field that no line labels keeps its starting value `Erro Parsing` |
| Validator.LastSentimentLineWins | analise_app.py:253-256 | the extracted sentiment is the value on the last sentiment line |
| Validator.LastThemeLineWins | analise_app.py:253-258 | the extracted theme is the value on the last theme line |
| Validator.ExceptionTheme | analise_app.py:275-280 | an exception's theme is "Erro API (Timeout)" exactly when the lowered message contains `timeout` or `deadline exceeded`, and "Erro API (Geral)" otherwise |
| Validator.Classify | analise_app.py:227-280 | definition of `analisar_comentario`; its properties are Validator.AnalyzeComment, Validator.BlankComment, Validator.MissingModel, Validator.ExceptionMapping, Validator.NcBinding, Validator.ThemeClosure, Validator.ClassifyOutputs and Validator.OutputsReachable |
| Validator.AnalyzeComment | analise_app.py:227-280 | the method returns the validator's answer for the comment, model state and reply |
| Validator.BlankComment | analise_app.py:229-230 | an empty or all-whitespace comment is (NC, NC theme), with or without a model |
| Validator.MissingModel | analise_app.py:231-232 | a non-blank comment without a model is ("Erro API", "Erro API (Modelo não iniciado)") |
| Validator.ExceptionMapping | analise_app.py:273-280 | a content stop is ("Erro API", "Erro API (Conteúdo Bloqueado)"); any other exception puts "Erro API" in the sentiment slot, and Timeout in the theme slot exactly when the message mentions a timeout, General otherwise |
| Validator.Decide | analise_app.py:260-271 | definition of the decision ladder; its properties are Validator.DecideLadder and Validator.DecideOutputs |
| Validator.DecideLadder | analise_app.py:260-271 | (Erro Parsing, Erro Parsing) exactly when a field is unset or the sentiment is unknown; NC forces the NC theme; under P/N/Neu the theme is kept when valid and not NC, else it becomes Erro Parsing |
| Validator.DecideOutputs | analise_app.py:260-271 | the ladder only returns pairs of the validator's output space |
| Validator.NcBinding | analise_app.py:265-266 | an NC sentiment always comes with the NC theme |
| Validator.ThemeClosure | analise_app.py:267-271 | a P/N/Neu sentiment comes with a valid non-NC theme or Erro Parsing, so the NC theme never pairs with a real sentiment |
| Validator.ClassifyOutputs | analise_app.py:227-280 | every answer lies in the output space |
| Validator.OutputsReachable | analise_app.py:227-280 | every pair of the output space is the answer for some comment, model state and reply |
| Validator.SentimentLineOf | analise_app.py:255-256 | `Sentimento: v` is a sentiment line that carries `v` |
| Validator.ThemeLineOf | analise_app.py:257-258 | `Tema: v` is a theme line that carries `v` |
| Validator.FormatLines | analise_app.py:248-251 | the two-line reply the prompt asks for splits into its two lines |
| Validator.ScanFormatted | analise_app.py:249-258 | scanning a well-formed two-line reply gives back exactly the two values written in it |
| Validator.ClassifyFormatted | analise_app.py:248-271 | a well-formed reply is judged by the ladder on exactly the values it carries |
| Validator.MissingThemeLine | analise_app.py:249-261 | any reply none of whose lines is a theme line gives (Erro Parsing, Erro Parsing) |
| Validator.MissingSentimentLine | analise_app.py:249-261 | any reply none of whose lines is a sentiment line gives (Erro Parsing, Erro Parsing) |
| Validator.SentimentOnlyReply | analise_app.py:249-261 | the one-line reply `Sentimento: v` gives (Erro Parsing, Erro Parsing) |
| Validator.ScenarioUnclassifiedOverridesTheme | analise_app.py:265-266 | "Não Classificado" with the theme "Marca e Imagem" gives (NC, NC theme) |
| Validator.ScenarioUnclassifiedThemeRefused | analise_app.py:268-269 | "Positivo" with the NC theme gives (Positivo, Erro Parsing) |
| Validator.ScenarioMissingThemeLine | analise_app.py:260-261 | the reply "Sentimento: Negativo" alone gives (Erro Parsing, Erro Parsing) |
| Validator.ScenarioLiteralParsingErrorTheme | analise_app.py:260-261 | a theme line reading "Erro Parsing" is treated as a missing line, so the whole pair is refused |
| Validator.ScenarioUnknownTheme | analise_app.py:268-269 | an unknown theme under "Positivo" keeps the sentiment: (Positivo, Erro Parsing) |
| Counting.KeptPositions | analise_app.py:301 | positions that pass the mask, strictly increasing |
| Counting.KeptPositionsComplete | analise_app.py:301 | every position whose element passes the mask is listed |
| Counting.Filter | analise_app.py:301 | a mask keeps exactly the elements at the passing positions, in their original order; so every occurrence of each value that passes, and no value that fails |
| Counting.FilterSnoc | analise_app.py:301 | masking one more element appends it when it passes and changes nothing otherwise |
| Counting.ValueCounts | analise_app.py:292 | definition of `value_counts()`; its property is Counting.ValueCountsCorrect against the independent Counting.IsValueCounts |
| Counting.ValueCountsCorrect | analise_app.py:292 | `value_counts()` lists each distinct value once, with its exact count, in non-increasing count order |
| Counting.InsertKeepsOrder | analise_app.py:302 | inserting an entry by count keeps a count series in non-increasing order |
| Counting.CountOf | analise_app.py:293-295 | definition of `.get(x, 0)`; its property is Counting.CountOfValueCounts |
| Counting.CountOfValueCounts | analise_app.py:293-295 | `.get(x, 0)` on exact counts is the number of occurrences of `x`, 0 when it is absent |
| Counting.SumCounts | analise_app.py:306 | definition of `Series.sum()`; its property is Counting.SumOfValueCounts |
| Counting.SumOfValueCounts | analise_app.py:306 | the counts of `value_counts()` sum to the number of elements |
| Counting.SumOverComplement | analise_app.py:296 | the counts of distinct keys, plus the number of elements that are none of them, is the total |
| Counting.Head | analise_app.py:307 | definition of `head(n)`; its property is Counting.TopCounts |
| Counting.TopCounts | analise_app.py:307 | `head(n)` holds min(n, #distinct) distinct values with exact positive counts, in non-increasing order; every value left out is no more frequent than the last one kept |
| Results.AnalyzeBatch | analise_app.py:383-386 | the loop gives one row per comment, each the validator's answer, and every row lies in the output space |
| Results.SentimentChart | analise_app.py:392 | definition of the sentiment chart filter; its properties are Results.ChartCounts and Results.ChartLabelsOfClassifierOutput |
| Results.ThemeChart | analise_app.py:415-417 | definition of the theme chart filter; its properties are Results.ChartCounts and Results.ChartLabelsOfClassifierOutput |
| Results.ChartCounts | analise_app.py:392 | the chart filters drop exactly the excluded labels and keep every occurrence of the others |
| Results.NegativeThemes | analise_app.py:309-311 | definition of the negative-theme column; its properties are Results.NegativeThemeCounts and Results.NegativeThemesFromNegativeRows |
| Results.NegativeThemeCounts | analise_app.py:309-311 | a theme counted by the negative ranking occurs once per negative row with that theme, and an excluded theme not at all |
| Results.NegativeThemesFromNegativeRows | analise_app.py:309-311 | every theme of the negative ranking is a non-excluded theme of some negative row |
| Results.KeptLabelsOfClassifierOutput | analise_app.py:221-223 | what survives the filters from an answer of the validator is P/N/Neu, or a business theme |
| Results.ChartLabelsOfClassifierOutput | analise_app.py:415-417 | on the validator's answers the sentiment chart sees only P/N/Neu, and the theme chart only business themes |
| Insights.GenerateInsights | analise_app.py:285-289 | definition of the guards before the summary; its property is Insights.InsightsGuards |
| Insights.Summarize | analise_app.py:291-317 | definition of the figures passed to the prompt; its properties are Insights.SentimentBuckets, Insights.SentimentShares, Insights.TopThemes and Insights.TopNegativeThemes |
| Insights.Percent | analise_app.py:297-300 | definition of `count / total * 100`; its property is Insights.SentimentShares |
| Insights.Ranked | analise_app.py:305-316 | definition of a top-n list with shares; its property is Insights.RankingOf |
| Insights.InsightsGuards | analise_app.py:286-289 | no rows means no insights; otherwise a missing model is reported; otherwise the summary covers every row |
| Insights.SentimentBuckets | analise_app.py:291-296 | P, N and Neu are the exact counts, the remainder is the rows outside them, and the four buckets sum to the total |
| Insights.SentimentShares | analise_app.py:297-300 | the four percentages sum to 100 |
| Insights.RankingOf | analise_app.py:305-307 | a ranking's total is the ranked subset's size; its lines are min(n, #distinct) distinct themes with exact positive counts, non-increasing; shares are taken over the subset; nothing left out beats the last line |
| Insights.TopThemes | analise_app.py:301-307 | the top-5 has only non-excluded themes, each with its count in the theme column and its share of the filtered total, non-increasing; it is maximal |
| Insights.TopNegativeThemes | analise_app.py:309-316 | the top-3 counts only negative rows with non-excluded themes, and has the same shape as the top-5 |
| Insights.TopThemesAreBusinessThemes | analise_app.py:301-302 | on the validator's answers the top-5 holds only valid themes other than social interaction |
| Insights.TopNegativeThemesAreBusinessThemes | analise_app.py:309-311 | the same for the top-3 negative themes |
| Insights.NegativeRankedRow | analise_app.py:309-311 | each theme of the top-3 negative themes comes from a negative row |
| Dashboard.NpsSocial | analise_app.py:392-393 | definition of the score; its properties are Dashboard.NpsOfChart, Dashboard.NpsDefined and Dashboard.NpsValue |
| Dashboard.NpsFormula | analise_app.py:393 | definition of `((pos / total - neg / total) + 1) / 2 * 10`; its property is Dashboard.ScoreShape |
| Dashboard.Clamp | analise_app.py:393 | `max(0, min(10, v))` lies in [0, 10] and leaves values already there unchanged |
| Dashboard.NpsOfChart | analise_app.py:392-393 | the score is computed from the exact P and N counts of the filtered chart, over its size, and is absent when the chart is empty |
| Dashboard.NpsDefined | analise_app.py:392-395 | there is a score exactly when some row has a sentiment outside the excluded ones |
| Dashboard.NpsValue | analise_app.py:393 | the score is 5 + 5·(pos−neg)/total over the chart; it lies in [0, 10]; it is 5 exactly when pos = neg, above 5 exactly when pos > neg, 10 exactly when every chart row is positive, and 0 exactly when every chart row is negative |
| Dashboard.ScoreShape | analise_app.py:393 | the formula with counts that fit in the total is never cut by the clamp and has the meaning above |
| Dashboard.ChartOfClassifierOutput | analise_app.py:392 | on the validator's answers, the chart's size is the P + N + Neu count |
| Dashboard.NpsExample | analise_app.py:393 | 6 positive, 2 negative and 2 neutral chart rows score 7.0 |
| Dashboard.Reindex | analise_app.py:431 | `reindex(index, fill_value=0)` has one entry per index label, in index order |
| Dashboard.ReindexCounts | analise_app.py:431 | reindexing `value_counts()` gives each index label its count in the column, 0 when it is absent |
| Dashboard.DropRepeatedLabels | analise_app.py:434 | the result has each label once, keeps every label, and changes nothing when the labels are already distinct |
| Dashboard.FirstPositions | analise_app.py:434 | the positions of `~index.duplicated(keep='first')`: exactly those whose label no earlier entry has, in increasing order |
| Dashboard.DropRepeatedKeepsFirst | analise_app.py:434 | dropping repeated labels keeps exactly the entries first with their label, in the order of the counts |
| Dashboard.IndexesDistinct | analise_app.py:431-434 | both table indexes list each category once |
| Dashboard.ThemeTableKeepsAll | analise_app.py:434 | dropping repeated labels from the theme counts removes nothing |
| Dashboard.Displayed | analise_app.py:431 | definition of `pd.concat([tabela[Volume > 0], total_row])`; its properties are Dashboard.DisplayedShape, Dashboard.DisplayedInOrder and Dashboard.FullTable |
| Dashboard.DisplayedShape | analise_app.py:431 | the displayed table is the lines with a positive volume, each with its share of the total, in the order of the counts, then `Total Geral` with the total and 100% |
| Dashboard.DisplayedInOrder | analise_app.py:431 | of two category lines, the earlier comes from an earlier entry of the counts |
| Dashboard.FullTable | analise_app.py:431 | over a repetition-free index, exact counts give a full table: the last line is `Total Geral`; every other line is a category that occurs, with its exact count and share; each occurring category is shown exactly once; the lines follow the index order |
| Dashboard.TableInIndexOrder | analise_app.py:431 | the category lines are index categories, and of two lines the earlier has the earlier index position |
| Dashboard.TableLinesOnce | analise_app.py:434 | no category is shown on two lines |
| Dashboard.SentimentTable | analise_app.py:431 | definition of table 1; its properties are Dashboard.SentimentTableShape, Dashboard.SentimentTableOrder and Dashboard.TablesAddUp |
| Dashboard.SentimentTableShape | analise_app.py:431 | table 1 is a full table, in index order, over the sentiment column, the sentiment vocabulary and the sorted error rows |
| Dashboard.ThemeTable | analise_app.py:434 | definition of table 2; its properties are Dashboard.ThemeTableKeepsAll, Dashboard.ThemeTableShape, Dashboard.ThemeTableOrder and Dashboard.TablesAddUp |
| Dashboard.ThemeTableShape | analise_app.py:434 | table 2 is a full table, in index order, over the theme column, the theme vocabulary and the sorted error rows |
| Dashboard.IndexOrderShown | analise_app.py:431-434 | lines in the order of a vocabulary followed by the sorted errors show the vocabulary lines first and the error lines in Python's string order |
| Dashboard.SentimentTableOrder | analise_app.py:431 | table 1 shows the sentiment lines first, then the error lines in `sorted()` order |
| Dashboard.ThemeTableOrder | analise_app.py:434 | table 2 shows the theme lines first, then the error lines in `sorted()` order |
| Dashboard.DropEmptyLines | analise_app.py:431 | dropping the zero-volume lines changes neither the volume total nor the percentage total |
| Dashboard.PercentSums | analise_app.py:431 | the lines' volumes add up to the counts' sum, and their shares add up to that sum's share |
| Dashboard.TableTotals | analise_app.py:431 | when the index covers the column, the category lines add up to the row count and to 100% |
| Dashboard.ClassifierLabelsIndexed | analise_app.py:431-434 | every label the validator can return has a line in its table's index |
| Dashboard.TablesAddUp | analise_app.py:431-434 | on the validator's answers, the category lines of both tables add up to the `Total Geral` line: the row count and 100% |

## Left out

- The Streamlit UI is not modelled: page layout, sidebar, session state, the API-key set-up and reruns. They are presentation and global UI state.
- The Gemini calls are not modelled. The reply text, a content-safety stop and any other exception with its message are inputs (`Validator.Reply`). The same holds for whether a model is configured.
- The prompt texts are not modelled, nor their `.format` filling, nor the insights text the model writes. `gerar_insights` is modelled up to the figures it passes to the prompt.
- The `try/except` around `gerar_insights`, which reports any failure in the UI, is not modelled.
- File upload, CSV and Excel parsing, the encoding fallback, dropping blank rows, and the CSV export are not modelled. They are input and output.
- Plotly charts, the progress bar and timing are not modelled. The `:.1f` and `:.2f` percentage formatting is not modelled either; shares are exact rationals.
- `value_counts()` does not fix the order of tied counts, and neither do the lemmas. The model breaks ties by first appearance. Every ranking lemma holds whatever tie order is used.
- PyText.LowerChar: `lower()` on a character is modelled as ASCII folding. Python also lowers non-ASCII letters. The only non-ASCII characters whose lower case contains ASCII letters are U+212A (to `k`) and U+0130 (to `i` plus a combining dot). No needle contains `k`, and in every needle `i` is followed by a letter. So the case-insensitive prefix tests and the `timeout` / `deadline exceeded` search give the same answers as in Python.
- PyText.Lower: keeps the length of the text, where Python's `lower()` can lengthen U+0130; by the argument above no needle test is affected.
- The `not isinstance(comentario, str)` test is not modelled. The analysis loop always passes `str(comentario)` (analise_app.py:384), so comments are strings.
- Dashboard.SentimentTable and Dashboard.ThemeTable require at least one row. With zero rows the source would fail on `0.values`. Analysis never starts on an empty batch (analise_app.py:377), so the tables are never built from zero rows.
- Insights.RankingOf: does not state the order among themes with equal counts, because pandas leaves it unspecified.
