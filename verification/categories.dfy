/**
 * The closed vocabularies of the classifier (analise_app.py, lines 205-223):
 * the four sentiments, the ten themes, the error sentinels and the two
 * exclusion lists the charts, the score and the rankings filter by.
 */
module Categories {

  // Sentiments.
  const Positive: string := "Positivo"
  const Negative: string := "Negativo"
  const Neutral: string := "Neutro"
  const Unclassified: string := "Não Classificado"

  // Themes named on their own by the code.
  const UnclassifiedTheme: string := "Não Classificado (Tema)"
  const SocialInteraction: string := "Interação Social e Engajamento"

  // Error sentinels: both slots may hold them.
  const ParsingError: string := "Erro Parsing"
  const ApiError: string := "Erro API"
  const ApiTimeout: string := "Erro API (Timeout)"
  const ApiGeneral: string := "Erro API (Geral)"
  const ApiModelNotReady: string := "Erro API (Modelo não iniciado)"
  const ApiContentBlocked: string := "Erro API (Conteúdo Bloqueado)"

  /** `categorias_sentimento_validas`, in the source's order. */
  const ValidSentiments: seq<string> := [Positive, Negative, Neutral, Unclassified]

  /** `categorias_tema_validas`, in the source's order. */
  const ValidThemes: seq<string> := [
    "Marca e Imagem",
    "Produtos e Serviços (Geral)",
    "Atendimento e Suporte",
    "Plataformas Digitais (App/Site/ATM)",
    "Figuras Públicas e Representantes",
    "Eventos e Campanhas Específicas",
    "Segurança e Fraude",
    "Solicitação/Dúvida/Sugestão (Transversal)",
    SocialInteraction,
    UnclassifiedTheme
  ]

  /** `categorias_erro` and `categorias_erro_tema_especifico`. */
  const GeneralErrors: seq<string> := [ParsingError, ApiError]
  const ThemeSpecificErrors: seq<string> := [ApiTimeout, ApiGeneral, ApiModelNotReady, ApiContentBlocked]

  /**
   * `todas_categorias_erro = list(set(...))`: the list's order comes from a
   * hash set and is unspecified, and every use of it is a membership test or
   * a `sorted()`, so the model keeps the set.
   */
  const AllErrors: set<string> := set e | e in GeneralErrors + ThemeSpecificErrors

  /** `categorias_excluir_sentimento`: left out of the sentiment chart and the score. */
  const ExcludedSentiments: set<string> := {Unclassified} + AllErrors

  /** `categorias_excluir_tema`: left out of the theme chart and the rankings. */
  const ExcludedThemes: set<string> := {UnclassifiedTheme, SocialInteraction} + AllErrors

  /** `sorted(list(set(todas_categorias_erro)))`: the error rows of both full tables. */
  const SortedErrors: seq<string> := [
    ApiError, ApiContentBlocked, ApiGeneral, ApiModelNotReady, ApiTimeout, ParsingError
  ]

  /** Python's string `<`: code-point lexicographic order. */
  predicate LexLess(a: string, b: string) {
    exists k | 0 <= k <= |a| && k <= |b| :: DiffersFirstAt(a, b, k)
  }

  /** `a` and `b` agree before `k`, and at `k` either `a` has ended and `b` has not, or `a[k] < b[k]`. */
  predicate DiffersFirstAt(a: string, b: string, k: nat) {
    && k <= |a| && k <= |b| && a[..k] == b[..k]
    && ((k == |a| && k < |b|) || (k < |a| && k < |b| && a[k] < b[k]))
  }

  predicate StrictlySorted(s: seq<string>) {
    forall i :: 0 <= i < |s| - 1 ==> LexLess(s[i], s[i + 1])
  }

  /** Python's string `<` is transitive. */
  lemma LexLessTransitive(a: string, b: string, c: string)
    requires LexLess(a, b) && LexLess(b, c)
    ensures LexLess(a, c)
  {
    var k1 :| 0 <= k1 <= |a| && k1 <= |b| && DiffersFirstAt(a, b, k1);
    var k2 :| 0 <= k2 <= |b| && k2 <= |c| && DiffersFirstAt(b, c, k2);
    var k := if k1 <= k2 then k1 else k2;
    assert a[..k] == a[..k1][..k] == b[..k1][..k] == b[..k];
    assert b[..k] == b[..k2][..k] == c[..k2][..k] == c[..k];
    if k1 < k2 {
      assert b[k1] == c[k1] by { assert b[..k2][k1] == c[..k2][k1]; }
    } else if k2 < k1 {
      assert a[k2] == b[k2] by { assert a[..k1][k2] == b[..k1][k2]; }
    }
    assert DiffersFirstAt(a, c, k);
  }

  /** In a strictly sorted list every entry comes before every later one. */
  lemma {:induction false} SortedAllPairs(s: seq<string>, i: nat, j: nat)
    requires StrictlySorted(s) && i < j < |s|
    ensures LexLess(s[i], s[j])
    decreases j - i
  {
    if i + 1 < j {
      SortedAllPairs(s, i + 1, j);
      LexLessTransitive(s[i], s[i + 1], s[j]);
    }
  }

  /**
   * The error rows of the full tables come in the order `sorted()` gives
   * them, and they are exactly the error categories, each once.
   */
  lemma SortedErrorsIsSorted()
    ensures StrictlySorted(SortedErrors)
    ensures (set e | e in SortedErrors) == AllErrors
    ensures |SortedErrors| == |AllErrors| == 6
  {
    SortedErrorsOrdered();
    SortedErrorsCover();
  }

  lemma SortedErrorsOrdered()
    ensures StrictlySorted(SortedErrors)
  {
    assert DiffersFirstAt(SortedErrors[0], SortedErrors[1], 8);
    assert DiffersFirstAt(SortedErrors[1], SortedErrors[2], 10);
    assert DiffersFirstAt(SortedErrors[2], SortedErrors[3], 10);
    assert DiffersFirstAt(SortedErrors[3], SortedErrors[4], 10);
    assert DiffersFirstAt(SortedErrors[4], SortedErrors[5], 5);
  }

  lemma SortedErrorsCover()
    ensures (set e | e in SortedErrors) == AllErrors
    ensures |SortedErrors| == |AllErrors| == 6
  {
    var s := set e | e in SortedErrors;
    assert s == {ApiError, ApiContentBlocked, ApiGeneral, ApiModelNotReady, ApiTimeout, ParsingError};
    assert AllErrors == s;
  }

  /** Every error sentinel is excluded from both the sentiment and the theme views. */
  lemma ErrorsExcluded()
    ensures forall e :: e in GeneralErrors + ThemeSpecificErrors ==> e in AllErrors
    ensures forall e :: e in GeneralErrors + ThemeSpecificErrors ==> e in ExcludedSentiments && e in ExcludedThemes
  {
  }

  /**
   * The vocabularies do not overlap the error sentinels, and the exclusion
   * lists keep exactly the business-facing labels.
   */
  lemma VocabulariesDisjoint()
    ensures forall s :: s in ValidSentiments ==> s !in AllErrors
    ensures forall t :: t in ValidThemes ==> t !in AllErrors
    ensures forall s :: s in ValidSentiments ==> (s in ExcludedSentiments <==> s == Unclassified)
    ensures forall t :: t in ValidThemes ==> (t in ExcludedThemes <==> t == UnclassifiedTheme || t == SocialInteraction)
  {
  }
}
