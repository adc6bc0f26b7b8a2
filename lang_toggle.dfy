/**
 * The page-text translator: the language read from the path and the two
 * dictionaries applied to every `[data-i18n]` element.
 */
module LangToggle {
  import opened Wrappers
  import opened Text
  import LangLinks

  /* ---------- the dictionaries ---------- */

  const EnWelcomeSubtitle: string :=
    "Choose a topic from the left menu. This is the base layout for Topic \U{2192} Series \U{2192} Posts."
  const PtWelcomeSubtitle: string :=
    "Escolha um t\U{00F3}pico no menu \U{00E0} esquerda. Este layout serve como base para organizar o "
    + "conte\U{00FA}do em T\U{00F3}pico \U{2192} S\U{00E9}rie \U{2192} Posts."

  const En: map<string, string> := map[
    "forEngineers" := "for Engineers",
    "tagline" := "Structures, proofs, and intuition",
    "welcomeTitle" := "Welcome",
    "welcomeSubtitle" := EnWelcomeSubtitle,
    "nextStepsTitle" := "Suggested next steps"
  ]

  const Pt: map<string, string> := map[
    "forEngineers" := "para Engenheiros",
    "tagline" := "Estruturas, provas e intui\U{00E7}\U{00E3}o",
    "welcomeTitle" := "Seja bem-vindo",
    "welcomeSubtitle" := PtWelcomeSubtitle,
    "nextStepsTitle" := "Pr\U{00F3}ximos passos sugeridos"
  ]

  /** Both languages translate the same five keys, none of them to the empty text. */
  lemma DictionariesAgree()
    ensures En.Keys == Pt.Keys
    ensures En.Keys == {"forEngineers", "tagline", "welcomeTitle", "welcomeSubtitle", "nextStepsTitle"}
    ensures forall k :: k in En ==> En[k] != "" && Pt[k] != ""
  {
    assert |EnWelcomeSubtitle| > 0;
    assert |PtWelcomeSubtitle| > 0;
  }

  /** `dict[lang] || dict.en`. */
  function Table(lang: string): (t: map<string, string>)
    ensures lang != "pt" ==> t == En
  {
    if lang == "pt" then Pt else En
  }

  /* ---------- the language of the path ---------- */

  /** `/en` or `/pt` (any case) at `k`, followed by `/` or by the end of the path. */
  predicate LangAt(s: string, k: nat) {
    && k + 3 <= |s|
    && s[k] == '/'
    && LangLinks.LangCodeAt(s, k + 1)
    && (k + 3 == |s| || s[k + 3] == '/')
  }

  /** The first position at or after `from` where the pattern matches. */
  function FirstLangFrom(s: string, from: nat): (r: Option<nat>)
    ensures r.Some? ==> from <= r.value && LangAt(s, r.value)
    ensures r.Some? ==> forall j :: from <= j < r.value ==> !LangAt(s, j)
    ensures r.None? ==> forall j :: from <= j ==> !LangAt(s, j)
    decreases |s| - from
  {
    if from + 3 > |s| then None
    else if LangAt(s, from) then Some(from)
    else FirstLangFrom(s, from + 1)
  }

  /** `detectLang(pathname)`: the first match of `/\/(en|pt)(\/|$)/i`, lower-cased; else `en`. */
  function DetectLang(pathname: string): (r: string)
    ensures r == "en" || r == "pt"
    ensures (forall k: nat :: !LangAt(pathname, k)) ==> r == "en"
    ensures forall k: nat :: LangAt(pathname, k) && (forall j: nat :: j < k ==> !LangAt(pathname, j)) ==>
      r == Lower(pathname[k + 1..k + 3])
  {
    match FirstLangFrom(pathname, 0)
    case None => "en"
    case Some(k) =>
      var code := Lower(pathname[k + 1..k + 3]);
      assert code == [LowerChar(pathname[k + 1]), LowerChar(pathname[k + 2])];
      code
  }

  /** `/english` has no segment of its own, so it reads as the default language. */
  lemma EnglishWordIsNoSegment()
    ensures DetectLang("/pt-english") == "en"
    ensures DetectLang("/english/x") == "en"
  {
    forall k: nat ensures !LangAt("/pt-english", k) {
    }
    forall k: nat ensures !LangAt("/english/x", k) {
    }
  }

  /** Letter case does not matter and the first segment wins. */
  lemma FirstSegmentWins()
    ensures DetectLang("/PT/x/en/y") == "pt"
  {
    var s := "/PT/x/en/y";
    assert LangAt(s, 0);
    assert Lower(s[1..3]) == [LowerChar('P'), LowerChar('T')];
  }

  /**
   * The translator picks the first segment, the language switch the last one,
   * so on a path holding both they disagree.
   */
  lemma DetectAndSplitDisagree()
    ensures DetectLang("/en/pt/") == "en"
    ensures LangLinks.SplitByLangSegment(Some("/en/pt/")).Some?
    ensures LangLinks.SplitByLangSegment(Some("/en/pt/")).value.lang == "pt"
  {
    var s := "/en/pt/";
    assert LangAt(s, 0);
    assert Lower(s[1..3]) == [LowerChar('e'), LowerChar('n')];
    var p := LangLinks.NormPath(Some(s));
    assert p == s;
    assert !LangLinks.HasLineTerminator(p);
    assert LangLinks.SegmentAt(p, 3);
    assert forall j :: 3 < j < |p| ==> !LangLinks.SegmentAt(p, j);
  }

  /* ---------- applying a dictionary ---------- */

  /** An element carrying `data-i18n`: its key and its text. */
  datatype I18nElement = I18nElement(key: string, text: string)

  /** One element under `if (t[key]) el.textContent = t[key]`. */
  function Translate(t: map<string, string>, e: I18nElement): (r: I18nElement)
    ensures r.key == e.key
    ensures r != e ==> e.key in t && t[e.key] != "" && r.text == t[e.key]
    ensures e.key in t && t[e.key] != "" ==> r.text == t[e.key]
  {
    if e.key in t && t[e.key] != "" then e.(text := t[e.key]) else e
  }

  /** Every element translated with the table for `lang`. */
  function Translated(lang: string, s: seq<I18nElement>): (r: seq<I18nElement>)
    ensures |r| == |s|
    ensures forall i :: 0 <= i < |s| ==> r[i] == Translate(Table(lang), s[i])
  {
    seq(|s|, i requires 0 <= i < |s| => Translate(Table(lang), s[i]))
  }

  /** Translating an element twice is translating it once. */
  lemma TranslateIdempotent(t: map<string, string>, e: I18nElement)
    ensures Translate(t, Translate(t, e)) == Translate(t, e)
  {
  }

  /** Re-running the translation on `pageshow` leaves the page as the first run did. */
  lemma {:induction false} TranslatedIdempotent(lang: string, s: seq<I18nElement>)
    ensures Translated(lang, Translated(lang, s)) == Translated(lang, s)
  {
    forall i | 0 <= i < |s|
      ensures Translated(lang, Translated(lang, s))[i] == Translated(lang, s)[i]
    {
      TranslateIdempotent(Table(lang), s[i]);
    }
  }

  /** `applyI18n(lang)` over every `[data-i18n]` element. */
  method ApplyI18n(lang: string, els: array<I18nElement>)
    modifies els
    ensures els[..] == Translated(lang, old(els[..]))
  {
    var t := Table(lang);
    var i := 0;
    while i < els.Length
      invariant 0 <= i <= els.Length
      invariant forall j :: 0 <= j < i ==> els[j] == Translate(t, old(els[j]))
      invariant forall j :: i <= j < els.Length ==> els[j] == old(els[j])
    {
      var el := els[i];
      if el.key in t && t[el.key] != "" {
        els[i] := el.(text := t[el.key]);
      }
      i := i + 1;
    }
  }

  /** `DOMContentLoaded` and `pageshow`: detect the language, then translate. */
  method OnPageLoad(pathname: string, els: array<I18nElement>)
    modifies els
    ensures els[..] == Translated(DetectLang(pathname), old(els[..]))
  {
    var lang := DetectLang(pathname);
    ApplyI18n(lang, els);
  }
}
