/**
 * The reply validator of `analisar_comentario` (analise_app.py, lines 227-280):
 * turns one comment, the availability of the model and what the model call
 * gave back (a reply text or an exception) into a (sentiment, theme) pair
 * drawn from the closed vocabularies or the error sentinels.
 */
module Validator {
  import opened PyText
  import opened Categories

  /** The two classification columns of one result row. */
  datatype Labels = Labels(sentiment: string, theme: string)

  /**
   * What the model call produced: the text of its reply, a content-safety
   * stop (`StopCandidateException`), or any other exception, with its message
   * (`str(e)`); reading `response.text` itself may be what raised.
   */
  datatype Reply = Text(text: string) | Blocked | Raised(message: string)

  /**
   * The two values the line scan extracts (`sentimento_extraido`,
   * `tema_extraido`); `Erro Parsing` doubles as "no line seen".
   */
  datatype Extracted = Extracted(sentiment: string, theme: string)

  const Unset: Extracted := Extracted(ParsingError, ParsingError)

  const SentimentPrefix: string := "sentimento:"
  const ThemePrefix: string := "tema:"

  /** Both prefixes are lower-case letters closed by a single `:`. */
  lemma PrefixShapes()
    ensures forall k :: 0 <= k < |SentimentPrefix| - 1 ==> 'a' <= SentimentPrefix[k] <= 'z'
    ensures forall k :: 0 <= k < |ThemePrefix| - 1 ==> 'a' <= ThemePrefix[k] <= 'z'
    ensures |SentimentPrefix| == 11 && SentimentPrefix[10] == ':'
    ensures |ThemePrefix| == 5 && ThemePrefix[4] == ':'
  {
  }

  /** The stripped line, lower-cased, starts with `sentimento:`. */
  predicate IsSentimentLine(line: string) {
    StartsWithLower(Strip(line), SentimentPrefix)
  }

  /** The stripped line starts with `tema:` and not with `sentimento:` (the `elif`). */
  predicate IsThemeLine(line: string) {
    !IsSentimentLine(line) && StartsWithLower(Strip(line), ThemePrefix)
  }

  /** The value a labelled line carries: what follows its first `:`, stripped. */
  function Captured(line: string): string
    requires IsSentimentLine(line) || IsThemeLine(line)
  {
    var l := Strip(line);
    PrefixShapes();
    if IsSentimentLine(line) then
      AfterPrefix(l, SentimentPrefix);
      Strip(AfterFirst(l, ':'))
    else
      AfterPrefix(l, ThemePrefix);
      Strip(AfterFirst(l, ':'))
  }

  /** One iteration of the scan: a labelled line overwrites its field. */
  function Step(st: Extracted, line: string): Extracted {
    if IsSentimentLine(line) then st.(sentiment := Captured(line))
    else if IsThemeLine(line) then st.(theme := Captured(line))
    else st
  }

  /** The scan over a list of lines, as a left fold from `Unset`. */
  function ScanLines(lines: seq<string>): Extracted {
    if lines == [] then Unset
    else Step(ScanLines(lines[..|lines| - 1]), lines[|lines| - 1])
  }

  /** `response.text.strip().split('\n')`. */
  function Lines(text: string): seq<string> {
    Split(Strip(text), '\n')
  }

  function Scan(text: string): Extracted {
    ScanLines(Lines(text))
  }

  /** Scanning one more line is one more step. */
  lemma ScanLinesPrefix(lines: seq<string>, i: nat)
    requires i < |lines|
    ensures ScanLines(lines[..i + 1]) == Step(ScanLines(lines[..i]), lines[i])
  {
    assert lines[..i + 1][..i] == lines[..i];
  }

  /** The loop of lines 249-258: each labelled line overwrites the value extracted so far. */
  method ScanReply(text: string) returns (ext: Extracted)
    ensures ext == Scan(text)
  {
    var lines := Split(Strip(text), '\n');
    var sentiment, theme := ParsingError, ParsingError;
    var i := 0;
    assert lines[..0] == [];
    while i < |lines|
      invariant 0 <= i <= |lines|
      invariant Extracted(sentiment, theme) == ScanLines(lines[..i])
    {
      var line := Strip(lines[i]);
      StepCases(Extracted(sentiment, theme), lines[i]);
      ScanLinesPrefix(lines, i);
      if StartsWithLower(line, SentimentPrefix) {
        sentiment := Strip(AfterFirst(line, ':'));
      } else if StartsWithLower(line, ThemePrefix) {
        theme := Strip(AfterFirst(line, ':'));
      }
      i := i + 1;
    }
    assert lines[..i] == lines;
    ext := Extracted(sentiment, theme);
  }

  /** The three branches of one iteration, on the stripped line. */
  lemma StepCases(st: Extracted, line: string)
    ensures var l := Strip(line);
      && (StartsWithLower(l, SentimentPrefix) ==>
            ':' in l && Step(st, line) == Extracted(Strip(AfterFirst(l, ':')), st.theme))
      && (!StartsWithLower(l, SentimentPrefix) && StartsWithLower(l, ThemePrefix) ==>
            ':' in l && Step(st, line) == Extracted(st.sentiment, Strip(AfterFirst(l, ':'))))
      && (!StartsWithLower(l, SentimentPrefix) && !StartsWithLower(l, ThemePrefix) ==> Step(st, line) == st)
  {
    var l := Strip(line);
    PrefixShapes();
    if StartsWithLower(l, SentimentPrefix) {
      AfterPrefix(l, SentimentPrefix);
    } else if StartsWithLower(l, ThemePrefix) {
      AfterPrefix(l, ThemePrefix);
    }
  }

  /** A field no line sets keeps its `Erro Parsing` starting value. */
  lemma {:induction false} UnmatchedFieldStaysUnset(lines: seq<string>)
    ensures (forall k :: 0 <= k < |lines| ==> !IsSentimentLine(lines[k])) ==> ScanLines(lines).sentiment == ParsingError
    ensures (forall k :: 0 <= k < |lines| ==> !IsThemeLine(lines[k])) ==> ScanLines(lines).theme == ParsingError
  {
    if lines != [] {
      UnmatchedFieldStaysUnset(lines[..|lines| - 1]);
    }
  }

  /** A step changes only the field its line sets. */
  lemma StepFields(st: Extracted, line: string)
    ensures Step(st, line).sentiment == if IsSentimentLine(line) then Captured(line) else st.sentiment
    ensures Step(st, line).theme == if IsThemeLine(line) then Captured(line) else st.theme
  {
  }

  /**
   * The last sentiment line wins: the sentiment is the value carried by the
   * last line that sets it, whatever earlier lines said.
   */
  lemma {:induction false} LastSentimentLineWins(lines: seq<string>, i: nat)
    requires i < |lines| && IsSentimentLine(lines[i])
    requires forall k :: i < k < |lines| ==> !IsSentimentLine(lines[k])
    ensures ScanLines(lines).sentiment == Captured(lines[i])
  {
    var n := |lines| - 1;
    var init := lines[..n];
    var before := ScanLines(init);
    assert ScanLines(lines) == Step(before, lines[n]);
    StepFields(before, lines[n]);
    if i == n {
      assert ScanLines(lines).sentiment == Captured(lines[n]);
    } else {
      assert init[i] == lines[i];
      forall k | i < k < |init| ensures !IsSentimentLine(init[k]) {
        assert init[k] == lines[k];
      }
      LastSentimentLineWins(init, i);
      assert ScanLines(lines).sentiment == before.sentiment;
    }
  }

  /** The last theme line wins, in the same way. */
  lemma {:induction false} LastThemeLineWins(lines: seq<string>, i: nat)
    requires i < |lines| && IsThemeLine(lines[i])
    requires forall k :: i < k < |lines| ==> !IsThemeLine(lines[k])
    ensures ScanLines(lines).theme == Captured(lines[i])
  {
    var n := |lines| - 1;
    var init := lines[..n];
    var before := ScanLines(init);
    assert ScanLines(lines) == Step(before, lines[n]);
    StepFields(before, lines[n]);
    if i == n {
      assert ScanLines(lines).theme == Captured(lines[n]);
    } else {
      assert init[i] == lines[i];
      forall k | i < k < |init| ensures !IsThemeLine(init[k]) {
        assert init[k] == lines[k];
      }
      LastThemeLineWins(init, i);
      assert ScanLines(lines).theme == before.theme;
    }
  }

  /** The decision ladder of lines 260-271, applied to the extracted values. */
  function Decide(e: Extracted): Labels {
    if e.sentiment == ParsingError || e.theme == ParsingError then Labels(ParsingError, ParsingError)
    else if e.sentiment !in ValidSentiments then Labels(ParsingError, ParsingError)
    else if e.sentiment == Unclassified then Labels(Unclassified, UnclassifiedTheme)
    else if e.theme !in ValidThemes || e.theme == UnclassifiedTheme then Labels(e.sentiment, ParsingError)
    else Labels(e.sentiment, e.theme)
  }

  /** Lines 276-280: the theme slot of an exception other than a content stop. */
  function ExceptionTheme(message: string): (t: string)
    ensures t == ApiTimeout <==> Contains(Lower(message), "timeout") || Contains(Lower(message), "deadline exceeded")
    ensures t == ApiTimeout || t == ApiGeneral
  {
    var m := Lower(message);
    if Contains(m, "timeout") || Contains(m, "deadline exceeded") then ApiTimeout else ApiGeneral
  }

  /** Line 229 for a text comment: empty, or nothing left after `strip()`. */
  predicate IsBlank(comment: string) {
    comment == "" || Strip(comment) == ""
  }

  /** `analisar_comentario` as a function of its inputs. */
  function Classify(comment: string, modelReady: bool, reply: Reply): Labels {
    if IsBlank(comment) then Labels(Unclassified, UnclassifiedTheme)
    else if !modelReady then Labels(ApiError, ApiModelNotReady)
    else
      match reply
      case Text(text) => Decide(Scan(text))
      case Blocked => Labels(ApiError, ApiContentBlocked)
      case Raised(message) => Labels(ApiError, ExceptionTheme(message))
  }

  /** `analisar_comentario`: the guards, the scan loop and the decision ladder. */
  method AnalyzeComment(comment: string, modelReady: bool, reply: Reply) returns (labels: Labels)
    ensures labels == Classify(comment, modelReady, reply)
  {
    if comment == "" || Strip(comment) == "" {
      return Labels(Unclassified, UnclassifiedTheme);
    }
    if !modelReady {
      return Labels(ApiError, ApiModelNotReady);
    }
    match reply {
      case Blocked =>
        labels := Labels(ApiError, ApiContentBlocked);
      case Raised(message) =>
        labels := Labels(ApiError, ExceptionTheme(message));
      case Text(text) =>
        var ext := ScanReply(text);
        labels := Decide(ext);
    }
  }

  /**
   * Every pair the validator can return: the NC pair, the parsing-error pair,
   * an API error with its cause, or a real sentiment with either a valid
   * theme other than the NC theme or the parsing error.
   */
  predicate IsClassifierOutput(l: Labels) {
    || l == Labels(Unclassified, UnclassifiedTheme)
    || l == Labels(ParsingError, ParsingError)
    || (l.sentiment == ApiError && l.theme in {ApiModelNotReady, ApiContentBlocked, ApiTimeout, ApiGeneral})
    || (&& l.sentiment in {Positive, Negative, Neutral}
        && (l.theme == ParsingError || (l.theme in ValidThemes && l.theme != UnclassifiedTheme)))
  }

  /** A blank comment is "Não Classificado" whatever the model would have said, and with or without a model. */
  lemma BlankComment(comment: string, modelReady: bool, reply: Reply)
    requires AllSpace(comment)
    ensures Classify(comment, modelReady, reply) == Labels(Unclassified, UnclassifiedTheme)
  {
    StripEmptyIffAllSpace(comment);
  }

  /** A non-blank comment without a model is an API error of kind "model not started". */
  lemma MissingModel(comment: string, reply: Reply)
    requires !AllSpace(comment)
    ensures Classify(comment, false, reply) == Labels(ApiError, ApiModelNotReady)
  {
    StripEmptyIffAllSpace(comment);
  }

  /** The exception mapping: the sentiment slot is always `Erro API`; the theme names the cause. */
  lemma ExceptionMapping(comment: string, message: string)
    requires !AllSpace(comment)
    ensures Classify(comment, true, Blocked) == Labels(ApiError, ApiContentBlocked)
    ensures Classify(comment, true, Raised(message)).sentiment == ApiError
    ensures Classify(comment, true, Raised(message)).theme == ApiTimeout
      <==> Contains(Lower(message), "timeout") || Contains(Lower(message), "deadline exceeded")
    ensures Classify(comment, true, Raised(message)).theme in {ApiTimeout, ApiGeneral}
  {
    StripEmptyIffAllSpace(comment);
  }

  /**
   * The decision ladder: a missing (or literally `Erro Parsing`) field or an
   * unknown sentiment is a parsing error in both slots; otherwise the
   * sentiment is kept, NC forces the NC theme, and a theme outside the
   * vocabulary or equal to the NC theme becomes `Erro Parsing`.
   */
  lemma DecideLadder(e: Extracted)
    ensures Decide(e) == Labels(ParsingError, ParsingError)
      <==> e.sentiment == ParsingError || e.theme == ParsingError || e.sentiment !in ValidSentiments
    ensures Decide(e).sentiment != ParsingError ==> Decide(e).sentiment == e.sentiment
    ensures e.sentiment == Unclassified && e.theme != ParsingError ==> Decide(e) == Labels(Unclassified, UnclassifiedTheme)
    ensures e.sentiment in {Positive, Negative, Neutral} && e.theme != ParsingError ==>
      Decide(e).theme == (if e.theme in ValidThemes && e.theme != UnclassifiedTheme then e.theme else ParsingError)
  {
  }

  /** The ladder only ever produces pairs of the validator's output space. */
  lemma DecideOutputs(e: Extracted)
    ensures IsClassifierOutput(Decide(e))
  {
  }

  /** NC binding: an NC sentiment always comes with the NC theme. */
  lemma NcBinding(comment: string, modelReady: bool, reply: Reply)
    ensures Classify(comment, modelReady, reply).sentiment == Unclassified
      ==> Classify(comment, modelReady, reply).theme == UnclassifiedTheme
  {
    ClassifyOutputs(comment, modelReady, reply);
  }

  /**
   * Theme closure: a real sentiment comes with a valid theme other than the
   * NC theme, or with `Erro Parsing`; never with the NC theme.
   */
  lemma ThemeClosure(comment: string, modelReady: bool, reply: Reply)
    ensures var l := Classify(comment, modelReady, reply);
      l.sentiment in {Positive, Negative, Neutral} ==>
        (l.theme == ParsingError || (l.theme in ValidThemes && l.theme != UnclassifiedTheme))
    ensures Classify(comment, modelReady, reply).theme != UnclassifiedTheme
      || Classify(comment, modelReady, reply).sentiment == Unclassified
  {
    ClassifyOutputs(comment, modelReady, reply);
  }

  /** The validator never returns anything outside its output space. */
  lemma ClassifyOutputs(comment: string, modelReady: bool, reply: Reply)
    ensures IsClassifierOutput(Classify(comment, modelReady, reply))
  {
    if !IsBlank(comment) && modelReady && reply.Text? {
      DecideOutputs(Scan(reply.text));
    }
  }

  /** The reply shape the classification prompt asks for. */
  function Format(sentiment: string, theme: string): string {
    "Sentimento: " + sentiment + "\n" + "Tema: " + theme
  }

  /** A value that survives `strip()` and sits on one line. */
  predicate IsLineValue(v: string) {
    && v != [] && !IsSpace(v[0]) && !IsSpace(v[|v| - 1])
    && forall k :: 0 <= k < |v| ==> v[k] != '\n'
  }

  lemma StripPrefixed(p: string, v: string)
    requires p != [] && !IsSpace(p[0])
    requires IsLineValue(v)
    ensures Strip(p + v) == p + v
  {
    StripIdentity(p + v);
  }

  lemma CapturedAfterSpace(v: string)
    requires IsLineValue(v)
    ensures Strip(" " + v) == v
  {
    assert (" " + v)[1..] == v;
    StripIdentity(v);
  }

  /** `Sentimento: v` is a sentiment line carrying `v`. */
  lemma SentimentLineOf(v: string)
    requires IsLineValue(v)
    ensures IsSentimentLine("Sentimento: " + v) && Captured("Sentimento: " + v) == v
  {
    var a := "Sentimento: " + v;
    SentimentLineIs(v);
    StripPrefixed("Sentimento: ", v);
    PrefixShapes();
    AfterPrefix(a, SentimentPrefix);
    assert a[11..] == " " + v;
    CapturedAfterSpace(v);
  }

  lemma SentimentLineIs(v: string)
    requires IsLineValue(v)
    ensures IsSentimentLine("Sentimento: " + v)
  {
    var a := "Sentimento: " + v;
    StripPrefixed("Sentimento: ", v);
    StartsWithLowerAt(a, SentimentPrefix);
  }

  /** `Tema: v` is a theme line carrying `v`. */
  lemma ThemeLineOf(v: string)
    requires IsLineValue(v)
    ensures IsThemeLine("Tema: " + v) && Captured("Tema: " + v) == v
  {
    var b := "Tema: " + v;
    ThemeLineIs(v);
    StripPrefixed("Tema: ", v);
    PrefixShapes();
    AfterPrefix(b, ThemePrefix);
    assert b[5..] == " " + v;
    CapturedAfterSpace(v);
  }

  lemma ThemeLineIs(v: string)
    requires IsLineValue(v)
    ensures IsThemeLine("Tema: " + v)
  {
    var b := "Tema: " + v;
    StripPrefixed("Tema: ", v);
    assert LowerChar(b[0]) != SentimentPrefix[0];
    StartsWithLowerAt(b, ThemePrefix);
  }

  /** The formatted reply splits into its two lines. */
  lemma FormatLines(sentiment: string, theme: string)
    requires IsLineValue(sentiment) && IsLineValue(theme)
    ensures Lines(Format(sentiment, theme)) == ["Sentimento: " + sentiment, "Tema: " + theme]
  {
    var a := "Sentimento: " + sentiment;
    var b := "Tema: " + theme;
    var text := Format(sentiment, theme);
    assert text == a + ['\n'] + b;
    assert text[|text| - 1] == theme[|theme| - 1];
    StripIdentity(text);
    SplitAppend(a, b, '\n');
    assert '\n' !in a by {
      forall k | 0 <= k < |a| ensures a[k] != '\n' {
        if k >= 12 { assert a[k] == sentiment[k - 12]; }
      }
    }
    assert '\n' !in b by {
      forall k | 0 <= k < |b| ensures b[k] != '\n' {
        if k >= 6 { assert b[k] == theme[k - 6]; }
      }
    }
    SplitNoSep(a, '\n');
    SplitNoSep(b, '\n');
  }

  /** A two-line reply is scanned by two steps. */
  lemma ScanTwoLines(x: string, y: string)
    ensures ScanLines([x, y]) == Step(Step(Unset, x), y)
  {
    assert [x, y][..1] == [x];
    assert ScanLines([x, y]) == Step(ScanLines([x]), y);
    assert [x][..0] == [];
    assert ScanLines([x]) == Step(ScanLines([]), x);
  }

  /** Reading back a well-formed two-line reply yields exactly the two values written. */
  lemma ScanFormatted(sentiment: string, theme: string)
    requires IsLineValue(sentiment) && IsLineValue(theme)
    ensures Scan(Format(sentiment, theme)) == Extracted(sentiment, theme)
  {
    var a := "Sentimento: " + sentiment;
    var b := "Tema: " + theme;
    FormatLines(sentiment, theme);
    ScanTwoLines(a, b);
    SentimentLineOf(sentiment);
    ThemeLineOf(theme);
    StepFields(Unset, a);
    var mid := Step(Unset, a);
    assert mid == Extracted(sentiment, ParsingError);
    StepFields(mid, b);
    assert Step(mid, b) == Extracted(sentiment, theme);
  }

  /** Every sentiment can be written on a reply line as it is. */
  lemma SentimentLineValues()
    ensures forall s :: s in ValidSentiments ==> IsLineValue(s)
  {
  }

  /** "Marca e Imagem" to "Plataformas Digitais (App/Site/ATM)" can be written on a reply line as they are. */
  lemma ThemeLineValuesA()
    ensures forall j :: 0 <= j < 4 ==> IsLineValue(ValidThemes[j])
  {
    assert IsLineValue(ValidThemes[0]) && IsLineValue(ValidThemes[1]);
    assert IsLineValue(ValidThemes[2]) && IsLineValue(ValidThemes[3]);
  }

  /** So can "Figuras Públicas e Representantes" to "Segurança e Fraude". */
  lemma ThemeLineValuesB()
    ensures forall j :: 4 <= j < 7 ==> IsLineValue(ValidThemes[j])
  {
    assert IsLineValue(ValidThemes[4]) && IsLineValue(ValidThemes[5]) && IsLineValue(ValidThemes[6]);
  }

  /** And "Solicitação/Dúvida/Sugestão (Transversal)" to the NC theme. */
  lemma ThemeLineValuesC()
    ensures forall j :: 7 <= j < 10 ==> IsLineValue(ValidThemes[j])
  {
    assert IsLineValue(ValidThemes[7]) && IsLineValue(ValidThemes[8]) && IsLineValue(ValidThemes[9]);
  }

  /** Every theme can be written on a reply line as it is (in three parts, by position in the vocabulary). */
  lemma ThemeLineValues()
    ensures forall t :: t in ValidThemes ==> IsLineValue(t)
  {
    ThemeLineValuesA();
    ThemeLineValuesB();
    ThemeLineValuesC();
  }

  /**
   * A well-formed two-line reply is judged on exactly the two values it
   * carries: the validator's answer is the ladder applied to them.
   */
  lemma ClassifyFormatted(comment: string, sentiment: string, theme: string)
    requires !AllSpace(comment)
    requires IsLineValue(sentiment) && IsLineValue(theme)
    ensures Classify(comment, true, Text(Format(sentiment, theme))) == Decide(Extracted(sentiment, theme))
  {
    StripEmptyIffAllSpace(comment);
    ScanFormatted(sentiment, theme);
  }

  /** A reply with no theme line is a parsing error in both slots, whatever else it says. */
  lemma MissingThemeLine(comment: string, text: string)
    requires !AllSpace(comment)
    requires forall k :: 0 <= k < |Lines(text)| ==> !IsThemeLine(Lines(text)[k])
    ensures Classify(comment, true, Text(text)) == Labels(ParsingError, ParsingError)
  {
    StripEmptyIffAllSpace(comment);
    UnmatchedFieldStaysUnset(Lines(text));
  }

  /** A reply with no sentiment line is a parsing error in both slots, whatever else it says. */
  lemma MissingSentimentLine(comment: string, text: string)
    requires !AllSpace(comment)
    requires forall k :: 0 <= k < |Lines(text)| ==> !IsSentimentLine(Lines(text)[k])
    ensures Classify(comment, true, Text(text)) == Labels(ParsingError, ParsingError)
  {
    StripEmptyIffAllSpace(comment);
    UnmatchedFieldStaysUnset(Lines(text));
  }

  /** A reply naming only a sentiment is a parsing error in both slots. */
  lemma SentimentOnlyReply(comment: string, sentiment: string)
    requires !AllSpace(comment)
    requires IsLineValue(sentiment)
    ensures Classify(comment, true, Text("Sentimento: " + sentiment)) == Labels(ParsingError, ParsingError)
  {
    StripEmptyIffAllSpace(comment);
    var a := "Sentimento: " + sentiment;
    StripPrefixed("Sentimento: ", sentiment);
    assert '\n' !in a by {
      forall k | 0 <= k < |a| ensures a[k] != '\n' {
        if k >= 12 { assert a[k] == sentiment[k - 12]; }
      }
    }
    SplitNoSep(a, '\n');
    assert Lines(a) == [a];
    assert [a][..0] == [];
    assert ScanLines([a]) == Step(Unset, a);
    SentimentLineOf(sentiment);
    StepFields(Unset, a);
  }

  /** An NC sentiment overrides whatever theme the reply gave. */
  lemma ScenarioUnclassifiedOverridesTheme(comment: string)
    requires !AllSpace(comment)
    ensures Classify(comment, true, Text(Format(Unclassified, "Marca e Imagem")))
      == Labels(Unclassified, UnclassifiedTheme)
  {
    SentimentLineValues();
    ThemeLineValuesA();
    ClassifyFormatted(comment, Unclassified, ValidThemes[0]);
  }

  /** The NC theme under a real sentiment is refused. */
  lemma ScenarioUnclassifiedThemeRefused(comment: string)
    requires !AllSpace(comment)
    ensures Classify(comment, true, Text(Format(Positive, UnclassifiedTheme))) == Labels(Positive, ParsingError)
  {
    SentimentLineValues();
    ThemeLineValuesC();
    ClassifyFormatted(comment, Positive, UnclassifiedTheme);
  }

  /** A reply without a theme line is a parsing error in both slots. */
  lemma ScenarioMissingThemeLine(comment: string)
    requires !AllSpace(comment)
    ensures Classify(comment, true, Text("Sentimento: Negativo")) == Labels(ParsingError, ParsingError)
  {
    SentimentLineValues();
    assert "Sentimento: " + Negative == "Sentimento: Negativo";
    SentimentOnlyReply(comment, Negative);
  }

  /**
   * A theme line that literally reads `Erro Parsing` counts as a missing
   * theme line: the whole pair is refused, where an unknown theme keeps the
   * sentiment (below).
   */
  lemma ScenarioLiteralParsingErrorTheme(comment: string)
    requires !AllSpace(comment)
    ensures Classify(comment, true, Text(Format(Positive, ParsingError))) == Labels(ParsingError, ParsingError)
  {
    SentimentLineValues();
    ErrorLineValue();
    ClassifyFormatted(comment, Positive, ParsingError);
  }

  /** An unknown theme under a real sentiment keeps the sentiment. */
  lemma ScenarioUnknownTheme(comment: string)
    requires !AllSpace(comment)
    ensures Classify(comment, true, Text(Format(Positive, "Clima"))) == Labels(Positive, ParsingError)
  {
    SentimentLineValues();
    UnknownTheme();
    ClassifyFormatted(comment, Positive, "Clima");
  }

  lemma UnknownTheme()
    ensures IsLineValue("Clima") && "Clima" !in ValidThemes
  {
    var v := "Clima";
    assert v[0] == 'C' && v[|v| - 1] == 'a';
    forall t | t in ValidThemes ensures t != v {
      assert |t| != 5;
    }
  }

  lemma ErrorLineValue()
    ensures IsLineValue(ParsingError)
  {
    var v := ParsingError;
    assert v[0] == 'E' && v[|v| - 1] == 'g';
  }

  /** Every pair of the output space is returned for some comment, model state and reply. */
  lemma OutputsReachable(l: Labels)
    requires IsClassifierOutput(l)
    ensures exists comment, modelReady, reply :: Classify(comment, modelReady, reply) == l
  {
    var c := "ok";
    assert !IsSpace(c[0]);
    assert !AllSpace(c);
    StripEmptyIffAllSpace(c);
    assert !IsBlank(c);
    SentimentLineValues();
    ThemeLineValues();
    if l == Labels(Unclassified, UnclassifiedTheme) {
      assert Classify("", false, Blocked) == l;
    } else if l == Labels(ParsingError, ParsingError) {
      assert Lines("") == [""];
      assert [""][..0] == [];
      assert ScanLines([""]) == Step(Unset, "");
      assert Classify(c, true, Text("")) == l;
    } else if l.sentiment == ApiError {
      if l.theme == ApiModelNotReady {
        assert Classify(c, false, Blocked) == l;
      } else if l.theme == ApiContentBlocked {
        assert Classify(c, true, Blocked) == l;
      } else if l.theme == ApiTimeout {
        assert Lower("timeout") == "timeout";
        assert OccursAt(Lower("timeout"), "timeout", 0);
        assert Classify(c, true, Raised("timeout")) == l;
      } else {
        assert !Contains(Lower(""), "timeout");
        assert !Contains(Lower(""), "deadline exceeded");
        assert Classify(c, true, Raised("")) == l;
      }
    } else if l.theme == ParsingError {
      ClassifyFormatted(c, l.sentiment, UnclassifiedTheme);
      assert Classify(c, true, Text(Format(l.sentiment, UnclassifiedTheme))) == l;
    } else {
      ClassifyFormatted(c, l.sentiment, l.theme);
      assert Classify(c, true, Text(Format(l.sentiment, l.theme))) == l;
    }
  }
}
