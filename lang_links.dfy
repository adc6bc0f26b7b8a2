/**
 * The page-side language switch: finding the language segment of the current
 * path, building the other language's URL, and marking the toggle buttons.
 */
module LangLinks {
  import opened Wrappers
  import opened Text

  /* ---------- paths ---------- */

  /** `normPath(p)`: a missing path is empty; every backslash becomes a slash. */
  function NormPath(p: Option<string>): (r: string)
    ensures p.None? ==> r == ""
    ensures p.Some? ==> |r| == |p.value|
    ensures p.Some? ==> forall i :: 0 <= i < |r| && p.value[i] != '\\' ==> r[i] == p.value[i]
    ensures p.Some? ==> forall i :: 0 <= i < |r| && p.value[i] == '\\' ==> r[i] == '/'
    ensures forall i :: 0 <= i < |r| ==> r[i] != '\\'
  {
    match p
    case None => ""
    case Some(s) => seq(|s|, i requires 0 <= i < |s| => if s[i] == '\\' then '/' else s[i])
  }

  /** Normalising twice is normalising once. */
  lemma NormPathIdempotent(p: Option<string>)
    ensures NormPath(Some(NormPath(p))) == NormPath(p)
  {
  }

  /** What `.` in a regular expression without the `s` flag does not match. */
  predicate IsLineTerminator(c: char) {
    c == '\n' || c == '\r' || c == '\U{2028}' || c == '\U{2029}'
  }

  /** `en` or `pt` in any letter case at `s[k]`, `s[k + 1]`. */
  predicate LangCodeAt(s: string, k: nat)
    requires k + 2 <= |s|
  {
    || (LowerChar(s[k]) == 'e' && LowerChar(s[k + 1]) == 'n')
    || (LowerChar(s[k]) == 'p' && LowerChar(s[k + 1]) == 't')
  }

  /** `/en/` or `/pt/`, in any letter case, starts at `k`. */
  predicate SegmentAt(s: string, k: nat) {
    k + 4 <= |s| && s[k] == '/' && LangCodeAt(s, k + 1) && s[k + 3] == '/'
  }

  /** The last language segment starting before `n`. */
  function LastSegmentBefore(s: string, n: nat): (r: Option<nat>)
    requires n <= |s|
    ensures r.Some? ==> r.value < n && SegmentAt(s, r.value)
    ensures r.Some? ==> forall j :: r.value < j < n ==> !SegmentAt(s, j)
    ensures r.None? ==> forall j :: 0 <= j < n ==> !SegmentAt(s, j)
  {
    if n == 0 then None
    else if SegmentAt(s, n - 1) then Some(n - 1)
    else LastSegmentBefore(s, n - 1)
  }

  predicate HasLineTerminator(s: string) {
    exists i :: 0 <= i < |s| && IsLineTerminator(s[i])
  }

  /** The match of `^(.*)\/(en|pt)\/(.*)$` (case-insensitive) on the normalised path. */
  datatype Split = Split(prefix: string, lang: string, suffix: string)

  /**
   * `splitByLangSegment(pathname)`: the greedy `(.*)` puts the split at the
   * last segment; a line terminator anywhere makes the whole match fail.
   */
  function SplitByLangSegment(pathname: Option<string>): (r: Option<Split>)
    ensures var p := NormPath(pathname);
      r.None? <==> HasLineTerminator(p) || forall k :: 0 <= k < |p| ==> !SegmentAt(p, k)
    ensures r.Some? ==> var p := NormPath(pathname); var k := |r.value.prefix|;
      && SegmentAt(p, k)
      && (forall j :: k < j < |p| ==> !SegmentAt(p, j))
      && r.value.prefix == p[..k]
      && r.value.suffix == p[k + 4..]
      && r.value.lang == Lower(p[k + 1..k + 3])
    ensures r.Some? ==> r.value.lang == "en" || r.value.lang == "pt"
  {
    var p := NormPath(pathname);
    if HasLineTerminator(p) then None
    else match LastSegmentBefore(p, |p|)
      case None => None
      case Some(k) =>
        var lang := Lower(p[k + 1..k + 3]);
        assert lang == [LowerChar(p[k + 1]), LowerChar(p[k + 2])];
        Some(Split(p[..k], lang, p[k + 4..]))
  }

  /** The three parts and the segment between them give back the normalised path. */
  lemma SplitReassembles(pathname: Option<string>)
    requires SplitByLangSegment(pathname).Some?
    ensures var sp := SplitByLangSegment(pathname).value; var p := NormPath(pathname);
      var code := p[|sp.prefix| + 1..|sp.prefix| + 3];
      Lower(code) == sp.lang && p == sp.prefix + "/" + code + "/" + sp.suffix
  {
    var sp := SplitByLangSegment(pathname).value;
    SegmentRegrouped(NormPath(pathname), |sp.prefix|);
  }

  /** A segment cut out of a path and glued back in gives the path. */
  lemma SegmentRegrouped(p: string, k: nat)
    requires SegmentAt(p, k)
    ensures p == p[..k] + "/" + p[k + 1..k + 3] + "/" + p[k + 4..]
  {
    assert p == p[..k] + p[k..k + 4] + p[k + 4..];
    assert p[k..k + 4] == "/" + p[k + 1..k + 3] + "/";
  }

  /** `langFromHtml()`, given the `lang` attribute of the root element. */
  function LangFromHtml(attr: Option<string>): (r: string)
    ensures r == "en" || r == "pt"
    ensures r == "pt" <==> StartsWith(Lower(if attr.Some? then attr.value else ""), "pt")
  {
    var htmlLang := Lower(if attr.Some? then attr.value else "");
    if StartsWith(htmlLang, "pt") then "pt" else "en"
  }

  datatype Site = Site(prefix: string, lang: string, suffix: string)

  /** `getSitePrefixAndLang()`: the path's language segment, else the document's language. */
  function GetSitePrefixAndLang(pathname: string, htmlLang: Option<string>): (r: Site)
    ensures r.lang == "en" || r.lang == "pt"
    ensures SplitByLangSegment(Some(pathname)).None? ==>
      r == Site("", LangFromHtml(htmlLang), "")
  {
    match SplitByLangSegment(Some(pathname))
    case Some(sp) => Site(sp.prefix, sp.lang, sp.suffix)
    case None => Site("", LangFromHtml(htmlLang), "")
  }

  /* ---------- URLs ---------- */

  /** `s.replace(/\/+/g, "/")`: every run of slashes becomes one slash. */
  function Collapse(s: string): (r: string)
    ensures |r| <= |s|
    ensures |s| > 0 ==> |r| > 0 && r[0] == s[0]
  {
    if |s| == 0 then ""
    else if |s| >= 2 && s[0] == '/' && s[1] == '/' then Collapse(s[1..])
    else [s[0]] + Collapse(s[1..])
  }

  predicate NoDoubleSlash(s: string) {
    forall i :: 0 <= i < |s| - 1 ==> !(s[i] == '/' && s[i + 1] == '/')
  }

  /** The result never holds two slashes in a row. */
  lemma {:induction false} CollapseHasNoDoubleSlash(s: string)
    ensures NoDoubleSlash(Collapse(s))
    decreases |s|
  {
    if |s| >= 2 && s[0] == '/' && s[1] == '/' {
      CollapseHasNoDoubleSlash(s[1..]);
    } else if |s| > 0 {
      CollapseHasNoDoubleSlash(s[1..]);
      var t := Collapse(s[1..]);
      if |t| > 0 {
        assert t[0] == s[1];
      }
      assert Collapse(s) == [s[0]] + t;
    }
  }

  /** A string without two slashes in a row is left alone. */
  lemma {:induction false} CollapseKeepsClean(s: string)
    requires NoDoubleSlash(s)
    ensures Collapse(s) == s
    decreases |s|
  {
    if |s| > 0 {
      CollapseKeepsClean(s[1..]);
      assert [s[0]] + s[1..] == s;
    }
  }

  /** The step of `CollapseAbsorbs` for a prefix starting with a double slash. */
  lemma AbsorbSkip(x: string, y: string)
    requires |x| >= 2 && x[0] == '/' && x[1] == '/'
    requires Collapse(Collapse(x[1..]) + y) == Collapse(x[1..] + y)
    ensures Collapse(Collapse(x) + y) == Collapse(x + y)
  {
    assert (x + y)[1..] == x[1..] + y;
  }

  /** The step of `CollapseAbsorbs` for a prefix whose first character is kept. */
  lemma AbsorbKeep(x: string, y: string)
    requires |x| >= 2 && !(x[0] == '/' && x[1] == '/')
    requires Collapse(Collapse(x[1..]) + y) == Collapse(x[1..] + y)
    ensures Collapse(Collapse(x) + y) == Collapse(x + y)
  {
    var t := Collapse(x[1..]);
    assert Collapse(x) == [x[0]] + t;
    assert |t| > 0 && t[0] == x[1];
    var u := Collapse(x) + y;
    assert u[0] == x[0] && u[1] == x[1] && u[1..] == t + y;
    assert Collapse(u) == [x[0]] + Collapse(t + y);
    var v := x + y;
    assert v[0] == x[0] && v[1] == x[1] && v[1..] == x[1..] + y;
    assert Collapse(v) == [x[0]] + Collapse(x[1..] + y);
  }

  /** Collapsing a prefix first changes nothing once the whole is collapsed. */
  lemma {:induction false} CollapseAbsorbs(x: string, y: string)
    ensures Collapse(Collapse(x) + y) == Collapse(x + y)
    decreases |x|
  {
    if |x| == 0 {
      assert x + y == y;
    } else if |x| == 1 {
      assert Collapse(x) == x;
    } else {
      CollapseAbsorbs(x[1..], y);
      if x[0] == '/' && x[1] == '/' {
        AbsorbSkip(x, y);
      } else {
        AbsorbKeep(x, y);
      }
    }
  }

  /** `joinUrl(prefix, lang, rel)`. */
  function JoinUrl(prefix: string, lang: string, rel: string): string {
    var base := Collapse(prefix + "/" + lang);
    var path := if rel != "" then "/" + rel else "";
    Collapse(base + path)
  }

  /** Collapsing twice is the same as collapsing the whole URL once. */
  lemma JoinUrlCollapsesOnce(prefix: string, lang: string, rel: string)
    ensures JoinUrl(prefix, lang, rel) == Collapse(prefix + "/" + lang + (if rel != "" then "/" + rel else ""))
    ensures NoDoubleSlash(JoinUrl(prefix, lang, rel))
  {
    CollapseAbsorbs(prefix + "/" + lang, if rel != "" then "/" + rel else "");
    CollapseHasNoDoubleSlash(prefix + "/" + lang + (if rel != "" then "/" + rel else ""));
  }

  /* ---------- the page-suffix mapping ---------- */

  const EnPagePrefix: string := "pages/graphs/foundations/part-"
  const PtPagePrefix: string := "pages/grafos/fundamentos/parte-"
  const HtmlTail: string := ".html"
  const IndexPage: string := "index.html"

  predicate IsDigit(c: char) {
    '0' <= c <= '9'
  }

  predicate AllDigits(s: string) {
    forall i :: 0 <= i < |s| ==> IsDigit(s[i])
  }

  /** `s` matches `^<prefix>(\d+)\.html$`, ignoring letter case. */
  predicate MatchesPage(s: string, prefix: string) {
    && |s| > |prefix| + |HtmlTail|
    && Lower(s[..|prefix|]) == prefix
    && AllDigits(s[|prefix|..|s| - |HtmlTail|])
    && Lower(s[|s| - |HtmlTail|..]) == HtmlTail
  }

  /** The digit string the pattern captured. */
  function PartNumber(s: string, prefix: string): string
    requires MatchesPage(s, prefix)
  {
    s[|prefix|..|s| - |HtmlTail|]
  }

  function EnPage(n: string): string {
    EnPagePrefix + n + HtmlTail
  }

  function PtPage(n: string): string {
    PtPagePrefix + n + HtmlTail
  }

  /** `mapSuffixToOtherLang(suffix, targetLang)`. */
  function MapSuffixToOtherLang(suffix: string, target: string): string {
    if suffix == "" || suffix == IndexPage then IndexPage
    else if MatchesPage(suffix, EnPagePrefix) then
      (if target == "pt" then PtPage(PartNumber(suffix, EnPagePrefix)) else suffix)
    else if MatchesPage(suffix, PtPagePrefix) then
      (if target == "en" then EnPage(PartNumber(suffix, PtPagePrefix)) else suffix)
    else IndexPage
  }

  predicate NoUpper(s: string) {
    forall i :: 0 <= i < |s| ==> !('A' <= s[i] <= 'Z')
  }

  lemma LowerKeepsLowerCase(s: string)
    requires NoUpper(s)
    ensures Lower(s) == s
  {
  }

  lemma PrefixesAreLowerCase()
    ensures Lower(EnPagePrefix) == EnPagePrefix && Lower(PtPagePrefix) == PtPagePrefix
    ensures Lower(HtmlTail) == HtmlTail
  {
    EnPrefixHasNoUpper();
    PtPrefixHasNoUpper();
    assert NoUpper(HtmlTail);
    LowerKeepsLowerCase(EnPagePrefix);
    LowerKeepsLowerCase(PtPagePrefix);
    LowerKeepsLowerCase(HtmlTail);
  }

  lemma EnPrefixHasNoUpper()
    ensures NoUpper(EnPagePrefix)
  {
  }

  lemma PtPrefixHasNoUpper()
    ensures NoUpper(PtPagePrefix)
  {
  }

  /** An English part page matches the English pattern and not the Portuguese one. */
  lemma EnPageMatches(n: string)
    requires |n| > 0 && AllDigits(n)
    ensures MatchesPage(EnPage(n), EnPagePrefix) && PartNumber(EnPage(n), EnPagePrefix) == n
    ensures !MatchesPage(EnPage(n), PtPagePrefix)
    ensures EnPage(n) != "" && EnPage(n) != IndexPage
  {
    var s := EnPage(n);
    PrefixesAreLowerCase();
    assert s[..|EnPagePrefix|] == EnPagePrefix;
    assert s[|EnPagePrefix|..|s| - |HtmlTail|] == n;
    assert s[|s| - |HtmlTail|..] == HtmlTail;
    assert s[9] == 'p' && PtPagePrefix[9] == 'f';
    if |s| > |PtPagePrefix| {
      assert Lower(s[..|PtPagePrefix|])[9] == 'p';
    }
    assert IndexPage[0] == 'i';
  }

  /** A Portuguese part page matches the Portuguese pattern and not the English one. */
  lemma PtPageMatches(n: string)
    requires |n| > 0 && AllDigits(n)
    ensures MatchesPage(PtPage(n), PtPagePrefix) && PartNumber(PtPage(n), PtPagePrefix) == n
    ensures !MatchesPage(PtPage(n), EnPagePrefix)
    ensures PtPage(n) != "" && PtPage(n) != IndexPage
  {
    var s := PtPage(n);
    PrefixesAreLowerCase();
    assert s[..|PtPagePrefix|] == PtPagePrefix;
    assert s[|PtPagePrefix|..|s| - |HtmlTail|] == n;
    assert s[|s| - |HtmlTail|..] == HtmlTail;
    assert s[9] == 'f' && EnPagePrefix[9] == 'p';
    assert Lower(s[..|EnPagePrefix|])[9] == 'f';
    assert IndexPage[0] == 'i';
  }

  /** Part `n` of the English series maps to part `n` of the Portuguese one, and back. */
  lemma FoundationsRoundTrip(n: string)
    requires |n| > 0 && AllDigits(n)
    ensures MapSuffixToOtherLang(EnPage(n), "pt") == PtPage(n)
    ensures MapSuffixToOtherLang(EnPage(n), "en") == EnPage(n)
    ensures MapSuffixToOtherLang(PtPage(n), "en") == EnPage(n)
    ensures MapSuffixToOtherLang(PtPage(n), "pt") == PtPage(n)
    ensures MapSuffixToOtherLang(MapSuffixToOtherLang(EnPage(n), "pt"), "en") == EnPage(n)
    ensures MapSuffixToOtherLang(MapSuffixToOtherLang(PtPage(n), "en"), "pt") == PtPage(n)
  {
    EnPageMatches(n);
    PtPageMatches(n);
  }

  /** Whatever the target, the result is the index page or a page of one of the two series. */
  lemma MapSuffixResult(suffix: string, target: string)
    ensures var r := MapSuffixToOtherLang(suffix, target);
      r == IndexPage || MatchesPage(r, EnPagePrefix) || MatchesPage(r, PtPagePrefix)
    ensures !MatchesPage(suffix, EnPagePrefix) && !MatchesPage(suffix, PtPagePrefix) ==>
      MapSuffixToOtherLang(suffix, target) == IndexPage
  {
    if suffix != "" && suffix != IndexPage {
      if MatchesPage(suffix, EnPagePrefix) && target == "pt" {
        PtPageMatches(PartNumber(suffix, EnPagePrefix));
      } else if !MatchesPage(suffix, EnPagePrefix) && MatchesPage(suffix, PtPagePrefix) && target == "en" {
        EnPageMatches(PartNumber(suffix, PtPagePrefix));
      }
    }
  }

  /* ---------- the toggle buttons ---------- */

  /** An element carrying `data-lang`: its value, its classes and its `href`. */
  datatype LangButton = LangButton(dataLang: string, classes: set<string>, href: Option<string>)

  const Active: string := "active"

  /** `setActiveLang(lang)` over every `[data-lang]` element. */
  method SetActiveLang(buttons: array<LangButton>, lang: string)
    modifies buttons
    ensures forall i :: 0 <= i < buttons.Length ==> (Active in buttons[i].classes <==> buttons[i].dataLang == lang)
    ensures forall i :: 0 <= i < buttons.Length ==>
      buttons[i].classes - {Active} == old(buttons[i].classes) - {Active}
    ensures forall i :: 0 <= i < buttons.Length ==>
      buttons[i].dataLang == old(buttons[i].dataLang) && buttons[i].href == old(buttons[i].href)
  {
    var i := 0;
    while i < buttons.Length
      invariant 0 <= i <= buttons.Length
      invariant forall j :: 0 <= j < i ==> (Active in buttons[j].classes <==> buttons[j].dataLang == lang)
      invariant forall j :: 0 <= j < i ==> buttons[j].classes - {Active} == old(buttons[j].classes) - {Active}
      invariant forall j :: 0 <= j < buttons.Length ==>
        buttons[j].dataLang == old(buttons[j].dataLang) && buttons[j].href == old(buttons[j].href)
      invariant forall j :: i <= j < buttons.Length ==> buttons[j] == old(buttons[j])
    {
      var b := buttons[i];
      var classes := if b.dataLang == lang then b.classes + {Active} else b.classes - {Active};
      buttons[i] := b.(classes := classes);
      i := i + 1;
    }
  }

  /** `document.querySelector("[data-lang='<lang>']")`: the first button with that value. */
  function FirstWithLang(s: seq<LangButton>, lang: string): (r: Option<nat>)
    ensures r.Some? ==> r.value < |s| && s[r.value].dataLang == lang
    ensures r.Some? ==> forall j :: 0 <= j < r.value ==> s[j].dataLang != lang
    ensures r.None? ==> forall j :: 0 <= j < |s| ==> s[j].dataLang != lang
  {
    if |s| == 0 then None
    else if s[|s| - 1].dataLang == lang && FirstWithLang(s[..|s| - 1], lang).None? then Some(|s| - 1)
    else
      var r := FirstWithLang(s[..|s| - 1], lang);
      assert forall j :: 0 <= j < |s| - 1 ==> s[..|s| - 1][j] == s[j];
      r
  }

  /** The search `querySelector` does, as a loop over the buttons. */
  method FindButton(buttons: array<LangButton>, lang: string) returns (r: Option<nat>)
    ensures r.Some? ==> r.value < buttons.Length && buttons[r.value].dataLang == lang
    ensures r.Some? ==> forall j :: 0 <= j < r.value ==> buttons[j].dataLang != lang
    ensures r.None? ==> forall j :: 0 <= j < buttons.Length ==> buttons[j].dataLang != lang
  {
    var i := 0;
    while i < buttons.Length
      invariant 0 <= i <= buttons.Length
      invariant forall j :: 0 <= j < i ==> buttons[j].dataLang != lang
    {
      if buttons[i].dataLang == lang {
        return Some(i);
      }
      i := i + 1;
    }
    return None;
  }

  /** The `href` the toggle for language `lang` gets on the page at `site`. */
  function ToggleHref(site: Site, lang: string): string {
    JoinUrl(site.prefix, lang, MapSuffixToOtherLang(site.suffix, lang))
  }

  /** The two assignments of `applyLangToggleLinks`: the first `en` and the first `pt` button get their address. */
  method SetToggleHrefs(buttons: array<LangButton>, enHref: string, ptHref: string)
    modifies buttons
    ensures forall i :: 0 <= i < buttons.Length ==>
      buttons[i] == old(buttons[i]).(href :=
        if FirstWithLang(old(buttons[..]), "pt") == Some(i) then Some(ptHref)
        else if FirstWithLang(old(buttons[..]), "en") == Some(i) then Some(enHref)
        else old(buttons[i].href))
  {
    ghost var before := buttons[..];
    var en := FindButton(buttons, "en");
    var pt := FindButton(buttons, "pt");
    assert en == FirstWithLang(before, "en");
    assert pt == FirstWithLang(before, "pt");
    if en.Some? {
      var b := buttons[en.value];
      buttons[en.value] := b.(href := Some(enHref));
    }
    if pt.Some? {
      var b := buttons[pt.value];
      buttons[pt.value] := b.(href := Some(ptHref));
    }
  }

  /**
   * `applyLangToggleLinks()`: the first `en` button and the first `pt` button get
   * the address of the same page in their language; nothing else changes.
   */
  method ApplyLangToggleLinks(buttons: array<LangButton>, pathname: string, htmlLang: Option<string>)
    modifies buttons
    ensures var site := GetSitePrefixAndLang(pathname, htmlLang);
      forall i :: 0 <= i < buttons.Length ==>
        buttons[i] == old(buttons[i]).(href :=
          if FirstWithLang(old(buttons[..]), "pt") == Some(i) then Some(ToggleHref(site, "pt"))
          else if FirstWithLang(old(buttons[..]), "en") == Some(i) then Some(ToggleHref(site, "en"))
          else old(buttons[i].href))
  {
    var site := GetSitePrefixAndLang(pathname, htmlLang);
    SetToggleHrefs(buttons, ToggleHref(site, "en"), ToggleHref(site, "pt"));
  }

  predicate NoSlash(s: string) {
    forall i :: 0 <= i < |s| ==> s[i] != '/'
  }

  /** A URL made of clean segments comes out of `joinUrl` as written. */
  lemma JoinUrlOfSegments(lang: string, rel: string)
    requires |lang| > 0 && NoSlash(lang) && |rel| > 0 && NoSlash(rel)
    ensures JoinUrl("", lang, rel) == "/" + lang + "/" + rel
  {
    var u := "" + "/" + lang + "/" + rel;
    assert u == "/" + lang + "/" + rel;
    assert forall i :: 1 <= i <= |lang| ==> u[i] == lang[i - 1];
    assert forall i :: |lang| + 2 <= i < |u| ==> u[i] == rel[i - |lang| - 2];
    assert NoDoubleSlash(u);
    JoinUrlCollapsesOnce("", lang, rel);
    assert "" + "/" + lang + "/" + rel == "" + "/" + lang + ("/" + rel);
    CollapseKeepsClean(u);
  }

  /** On a page outside both language trees the toggles lead to the two home pages. */
  lemma TogglesWithoutSegment(pathname: string, htmlLang: Option<string>)
    requires SplitByLangSegment(Some(pathname)).None?
    ensures ToggleHref(GetSitePrefixAndLang(pathname, htmlLang), "en") == "/" + "en" + "/" + IndexPage
    ensures ToggleHref(GetSitePrefixAndLang(pathname, htmlLang), "pt") == "/" + "pt" + "/" + IndexPage
  {
    assert NoSlash("en") && NoSlash("pt") && NoSlash(IndexPage);
    JoinUrlOfSegments("en", IndexPage);
    JoinUrlOfSegments("pt", IndexPage);
  }
}
