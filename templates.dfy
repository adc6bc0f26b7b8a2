/**
 * The pure half of the static-site build: the page classifier, the partial
 * overlay, the single-pass `{{> name}}` renderer and the page skeleton.
 */
module Templates {
  import opened Wrappers
  import opened Text
  import opened Errors

  /** Named partials: file name without `.html` to file content. */
  type Partials = map<string, string>

  /* ---------- page classification ---------- */

  const DoctypeMarker: string := "<!doctype html"
  const HtmlMarker: string := "<html"

  /** A page is a full document when its trimmed, lower-cased text starts with a marker. */
  predicate LooksLikeFullHtml(raw: string) {
    var s := Lower(Trim(raw));
    StartsWith(s, DoctypeMarker) || StartsWith(s, HtmlMarker)
  }

  /** A prefix that ends in a non-space character survives trimming the end of `t`. */
  lemma MarkerSurvivesTrimEnd(t: string, m: string)
    requires |m| > 0 && !IsSpace(m[|m| - 1])
    ensures StartsWith(Lower(TrimEnd(t)), m) <==> StartsWith(Lower(t), m)
  {
    var r := TrimEnd(t);
    if StartsWith(Lower(t), m) {
      assert LowerChar(t[|m| - 1]) == m[|m| - 1];
      assert Lower(r)[..|m|] == Lower(t)[..|m|];
    }
    if StartsWith(Lower(r), m) {
      assert Lower(r)[..|m|] == Lower(t)[..|m|];
    }
  }

  /**
   * Trimming the end never matters: the classifier only looks at the text after
   * the leading whitespace, so a leading comment makes a fragment even when a
   * doctype follows it. Whitespace here is ASCII whitespace; JavaScript's
   * `trim()` also strips U+FEFF and the other Unicode spaces.
   */
  lemma FullHtmlIffMarkerAfterLeadingSpace(raw: string)
    ensures LooksLikeFullHtml(raw) <==>
      (StartsWith(Lower(TrimStart(raw)), DoctypeMarker) || StartsWith(Lower(TrimStart(raw)), HtmlMarker))
  {
    var t := TrimStart(raw);
    assert Trim(raw) == TrimEnd(t);
    assert DoctypeMarker[|DoctypeMarker| - 1] == 'l' && HtmlMarker[|HtmlMarker| - 1] == 'l';
    MarkerSurvivesTrimEnd(t, DoctypeMarker);
    MarkerSurvivesTrimEnd(t, HtmlMarker);
  }

  /** After leading whitespace `w`, the lower-cased text starts with the lower-cased `m`. */
  lemma LoweredAfterSpace(w: string, m: string, rest: string)
    requires AllSpace(w) && |m| > 0 && !IsSpace(m[0])
    ensures StartsWith(Lower(TrimStart(w + m + rest)), Lower(m))
  {
    assert w + m + rest == w + (m + rest);
    TrimAfterSpace(w, m + rest);
    LowerOfPrefix(m, rest);
  }

  /** Trimming the start of `w + t` leaves exactly `t`. */
  lemma TrimAfterSpace(w: string, t: string)
    requires AllSpace(w) && |t| > 0 && !IsSpace(t[0])
    ensures TrimStart(w + t) == t
  {
    var raw := w + t;
    assert raw[|w|] == t[0];
    TrimStartIs(raw, |w|);
    assert raw[|w|..] == t;
  }

  /** Lower-casing keeps a prefix a prefix. */
  lemma LowerOfPrefix(a: string, b: string)
    ensures StartsWith(Lower(a + b), Lower(a))
  {
    assert Lower(a + b)[..|a|] == Lower(a);
  }

  /** Leading whitespace and letter case do not change the classification. */
  lemma LeadingSpaceAndCaseIgnored(w: string, m: string, rest: string)
    requires AllSpace(w) && (Lower(m) == DoctypeMarker || Lower(m) == HtmlMarker)
    ensures LooksLikeFullHtml(w + m + rest)
  {
    assert Lower(m)[0] == '<';
    assert !IsSpace(LowerChar(m[0]));
    LoweredAfterSpace(w, m, rest);
    FullHtmlIffMarkerAfterLeadingSpace(w + m + rest);
  }

  /** Text opening with `<!-` (a comment) matches neither marker. */
  lemma CommentIsNoMarker(t: string)
    requires |t| >= 3 && t[0] == '<' && t[1] == '!' && t[2] == '-'
    ensures !StartsWith(Lower(t), DoctypeMarker) && !StartsWith(Lower(t), HtmlMarker)
  {
    assert Lower(t)[1] == '!' && Lower(t)[2] == '-';
    assert DoctypeMarker[2] == 'd' && HtmlMarker[1] == 'h';
  }

  /** A comment before the doctype makes the page a fragment, whatever follows it. */
  lemma LeadingCommentIsFragment(w: string, t: string)
    requires AllSpace(w)
    requires |t| >= 4 && t[0] == '<' && t[1] == '!' && t[2] == '-' && t[3] == '-'
    ensures !LooksLikeFullHtml(w + t)
  {
    var raw := w + t;
    assert raw[|w|] == '<';
    TrimStartIs(raw, |w|);
    assert raw[|w|..] == t;
    FullHtmlIffMarkerAfterLeadingSpace(raw);
    CommentIsNoMarker(t);
  }

  /* ---------- overlay ---------- */

  /** `{ ...shared, ...lang }`: the language's partials win on a name clash. */
  function Merge(shared: Partials, lang: Partials): (r: Partials)
    ensures r.Keys == shared.Keys + lang.Keys
    ensures forall n :: n in lang ==> r[n] == lang[n]
    ensures forall n :: n in shared && n !in lang ==> r[n] == shared[n]
  {
    shared + lang
  }

  /** `partials[name]` is truthy: present and not the empty string. */
  predicate Resolves(p: Partials, name: string) {
    name in p && p[name] != ""
  }

  /* ---------- the token scanner ---------- */

  predicate IsNameChar(c: char) {
    'a' <= c <= 'z' || 'A' <= c <= 'Z' || '0' <= c <= '9' || c == '-' || c == '_'
  }

  predicate ValidName(name: string) {
    name != [] && forall i :: 0 <= i < |name| ==> IsNameChar(name[i])
  }

  /** The end of the run of whitespace that starts at `i`. */
  function SpaceEnd(s: string, i: nat): (k: nat)
    requires i <= |s|
    ensures i <= k <= |s|
    ensures k == |s| || !IsSpace(s[k])
    decreases |s| - i
  {
    if i < |s| && IsSpace(s[i]) then SpaceEnd(s, i + 1) else i
  }

  /** Everything a whitespace run covers is whitespace. */
  lemma {:induction false} SpaceRun(s: string, i: nat)
    requires i <= |s|
    ensures forall j :: i <= j < SpaceEnd(s, i) ==> IsSpace(s[j])
    decreases |s| - i
  {
    if i < |s| && IsSpace(s[i]) {
      SpaceRun(s, i + 1);
    }
  }

  /** The end of the run of name characters that starts at `i`. */
  function NameEnd(s: string, i: nat): (k: nat)
    requires i <= |s|
    ensures i <= k <= |s|
    ensures k == |s| || !IsNameChar(s[k])
    decreases |s| - i
  {
    if i < |s| && IsNameChar(s[i]) then NameEnd(s, i + 1) else i
  }

  /** Everything a name run covers is a name character. */
  lemma {:induction false} NameRun(s: string, i: nat)
    requires i <= |s|
    ensures forall j :: i <= j < NameEnd(s, i) ==> IsNameChar(s[j])
    decreases |s| - i
  {
    if i < |s| && IsNameChar(s[i]) {
      NameRun(s, i + 1);
    }
  }

  /** A run end is determined by its defining property. */
  lemma {:induction false} SpaceEndIs(s: string, i: nat, k: nat)
    requires i <= k <= |s|
    requires forall j :: i <= j < k ==> IsSpace(s[j])
    requires k == |s| || !IsSpace(s[k])
    ensures SpaceEnd(s, i) == k
    decreases k - i
  {
    if i < k {
      SpaceEndIs(s, i + 1, k);
    }
  }

  lemma {:induction false} NameEndIs(s: string, i: nat, k: nat)
    requires i <= k <= |s|
    requires forall j :: i <= j < k ==> IsNameChar(s[j])
    requires k == |s| || !IsNameChar(s[k])
    ensures NameEnd(s, i) == k
    decreases k - i
  {
    if i < k {
      NameEndIs(s, i + 1, k);
    }
  }

  /** One occurrence of `{{> name}}`: the name and the length of the whole token text. */
  datatype Token = Token(name: string, len: nat)

  /**
   * The match of `\{\{\>\s*([a-zA-Z0-9\-_]+)\s*\}\}` anchored at the start of `s`.
   * The name class excludes whitespace and braces, so the greedy regular
   * expression never backtracks and this scan is exact.
   */
  function MatchAt(s: string): (r: Option<Token>)
    ensures r.Some? ==> 6 <= r.value.len <= |s| && s[r.value.len - 1] == '}'
    ensures r.Some? ==> s[0] == '{' && s[1] == '{' && s[2] == '>' && ValidName(r.value.name)
  {
    if |s| < 3 || s[0] != '{' || s[1] != '{' || s[2] != '>' then None
    else
      var a := SpaceEnd(s, 3);
      var b := NameEnd(s, a);
      if b == a then None
      else
        var c := SpaceEnd(s, b);
        NameRun(s, a);
        if c + 2 <= |s| && s[c] == '}' && s[c + 1] == '}' then Some(Token(s[a..b], c + 2)) else None
  }

  /** A match depends only on the text it covers: extending the text keeps it. */
  lemma MatchExtend(s: string, u: string)
    requires MatchAt(s).Some?
    ensures MatchAt(s + u) == MatchAt(s)
  {
    var su := s + u;
    assert forall j :: 0 <= j < |s| ==> su[j] == s[j];
    var a := SpaceEnd(s, 3);
    var b := NameEnd(s, a);
    var c := SpaceEnd(s, b);
    SpaceRun(s, 3);
    NameRun(s, a);
    SpaceRun(s, b);
    SpaceEndIs(su, 3, a);
    NameEndIs(su, a, b);
    SpaceEndIs(su, b, c);
    assert su[a..b] == s[a..b];
  }

  /** A match that ends within `s` is already a match of `s`. */
  lemma MatchRestrict(s: string, u: string)
    requires MatchAt(s + u).Some? && MatchAt(s + u).value.len <= |s|
    ensures MatchAt(s) == MatchAt(s + u)
  {
    var su := s + u;
    assert forall j :: 0 <= j < |s| ==> su[j] == s[j];
    var a := SpaceEnd(su, 3);
    var b := NameEnd(su, a);
    var c := SpaceEnd(su, b);
    SpaceRun(su, 3);
    NameRun(su, a);
    SpaceRun(su, b);
    SpaceEndIs(s, 3, a);
    NameEndIs(s, a, b);
    SpaceEndIs(s, b, c);
    assert su[a..b] == s[a..b];
  }

  /** Tokens never overlap: no token starts strictly inside another. */
  lemma NoTokenInside(s: string, j: nat)
    requires MatchAt(s).Some? && 0 < j < MatchAt(s).value.len
    ensures MatchAt(s[j..]).None?
  {
    var a := SpaceEnd(s, 3);
    var b := NameEnd(s, a);
    var c := SpaceEnd(s, b);
    SpaceRun(s, 3);
    NameRun(s, a);
    SpaceRun(s, b);
    assert s[j..][0] == s[j];
    if j >= 2 {
      assert s[j] != '{';
    } else {
      assert s[j..][1] == s[2];
    }
  }

  /* ---------- rendering ---------- */

  function Prepend(x: string, r: Result<string, BuildError>): Result<string, BuildError> {
    match r
    case Success(v) => Success(x + v)
    case Failure(e) => Failure(e)
  }

  function Append(r: Result<string, BuildError>, y: string): Result<string, BuildError> {
    match r
    case Success(v) => Success(v + y)
    case Failure(e) => Failure(e)
  }

  /**
   * `html.replace(TOKEN_RE, ...)`: every token is replaced by its partial, left
   * to right, in one pass; the first token whose partial is missing or empty
   * aborts with `Partial not found: <name>`.
   */
  function Render(s: string, p: Partials): (r: Result<string, BuildError>)
    ensures r.Failure? ==> r.error.PartialNotFound? && !Resolves(p, r.error.name)
    decreases |s|
  {
    if s == [] then Success("")
    else
      match MatchAt(s)
      case Some(t) =>
        if !Resolves(p, t.name) then Failure(PartialNotFound(t.name))
        else Prepend(p[t.name], Render(s[t.len..], p))
      case None => Prepend([s[0]], Render(s[1..], p))
  }

  /** Text in which no token starts anywhere comes back unchanged. */
  lemma {:induction false} RenderNoTokens(s: string, p: Partials)
    requires forall i :: 0 <= i < |s| ==> MatchAt(s[i..]).None?
    ensures Render(s, p) == Success(s)
  {
    if s != [] {
      assert s[0..] == s;
      forall i | 0 <= i < |s| - 1 ensures MatchAt(s[1..][i..]).None? {
        assert s[1..][i..] == s[i + 1..];
      }
      RenderNoTokens(s[1..], p);
      assert [s[0]] + s[1..] == s;
    }
  }

  /** A token at position `i` of `s` names no partial, or an empty one. */
  predicate UnresolvedAt(s: string, i: nat, p: Partials)
    requires i <= |s|
  {
    MatchAt(s[i..]).Some? && !Resolves(p, MatchAt(s[i..]).value.name)
  }

  lemma ShiftUnresolved(s: string, k: nat, p: Partials)
    requires k <= |s|
    ensures forall i :: 0 <= i < |s| - k ==> (UnresolvedAt(s[k..], i, p) <==> UnresolvedAt(s, i + k, p))
  {
    forall i | 0 <= i < |s| - k ensures UnresolvedAt(s[k..], i, p) <==> UnresolvedAt(s, i + k, p) {
      assert s[k..][i..] == s[i + k..];
    }
  }

  /** How far one step of the renderer advances: over a token, or over one character. */
  function Step(s: string): (k: nat)
    requires s != []
    ensures 0 < k <= |s|
  {
    if MatchAt(s).Some? then MatchAt(s).value.len else 1
  }

  /** When the token at the start of `s` (if any) resolves, nothing before `Step(s)` is unresolved. */
  lemma NothingUnresolvedBeforeStep(s: string, p: Partials)
    requires s != [] && !UnresolvedAt(s, 0, p)
    ensures forall j :: 0 <= j < Step(s) ==> !UnresolvedAt(s, j, p)
  {
    forall j | 0 < j < Step(s) ensures !UnresolvedAt(s, j, p) {
      NoTokenInside(s, j);
    }
  }

  /** One resolved step of the renderer: the result is what comes out of the rest, prefixed. */
  lemma RenderStep(s: string, p: Partials)
    requires s != [] && !UnresolvedAt(s, 0, p)
    ensures Render(s, p) == Prepend(if MatchAt(s).Some? then p[MatchAt(s).value.name] else [s[0]], Render(s[Step(s)..], p))
  {
    assert s[0..] == s;
  }

  /** A successful rendering leaves no unresolved token behind anywhere in the text. */
  lemma {:induction false} RenderSuccessResolvesAll(s: string, p: Partials)
    requires Render(s, p).Success?
    ensures forall i :: 0 <= i < |s| ==> !UnresolvedAt(s, i, p)
    decreases |s|
  {
    if s != [] {
      assert s[0..] == s;
      var k := Step(s);
      RenderStep(s, p);
      RenderSuccessResolvesAll(s[k..], p);
      ShiftUnresolved(s, k, p);
      NothingUnresolvedBeforeStep(s, p);
      forall i | k <= i < |s| ensures !UnresolvedAt(s, i, p) {
        assert !UnresolvedAt(s[k..], i - k, p);
      }
    }
  }

  /** A failed rendering names the leftmost unresolved token, at position `i`. */
  lemma {:induction false} RenderFailureIsLeftmost(s: string, p: Partials) returns (i: nat)
    requires Render(s, p).Failure?
    ensures i < |s| && UnresolvedAt(s, i, p)
    ensures Render(s, p).error == PartialNotFound(MatchAt(s[i..]).value.name)
    ensures forall j :: 0 <= j < i ==> !UnresolvedAt(s, j, p)
    decreases |s|
  {
    assert s[0..] == s;
    if UnresolvedAt(s, 0, p) {
      i := 0;
    } else {
      var k := Step(s);
      var rest := s[k..];
      RenderStep(s, p);
      var i' := RenderFailureIsLeftmost(rest, p);
      ShiftUnresolved(s, k, p);
      NothingUnresolvedBeforeStep(s, p);
      i := i' + k;
      assert rest[i'..] == s[i..];
      forall j | k <= j < i ensures !UnresolvedAt(s, j, p) {
        assert !UnresolvedAt(rest, j - k, p);
      }
    }
  }

  /**
   * Rendering fails exactly when some token of the text is unresolved, and it
   * then reports the leftmost one; no partially substituted text is produced.
   */
  lemma RenderFailsIff(s: string, p: Partials)
    ensures Render(s, p).Failure? <==> exists i :: 0 <= i < |s| && UnresolvedAt(s, i, p)
    ensures Render(s, p).Failure? ==>
      exists i :: 0 <= i < |s| && UnresolvedAt(s, i, p)
        && Render(s, p).error == PartialNotFound(MatchAt(s[i..]).value.name)
        && (forall j :: 0 <= j < i ==> !UnresolvedAt(s, j, p))
  {
    if Render(s, p).Success? {
      RenderSuccessResolvesAll(s, p);
    } else {
      var i := RenderFailureIsLeftmost(s, p);
    }
  }

  lemma PrependAssoc(x: string, y: string, r: Result<string, BuildError>)
    ensures Prepend(x, Prepend(y, r)) == Prepend(x + y, r)
  {
    if r.Success? { assert x + (y + r.value) == (x + y) + r.value; }
  }

  /** Literal text without `{` is copied through and the rest is rendered on its own. */
  lemma {:induction false} RenderPlainPrefix(a: string, b: string, p: Partials)
    requires '{' !in a
    ensures Render(a + b, p) == Prepend(a, Render(b, p))
    decreases |a|
  {
    if a == [] {
      assert a + b == b;
      if Render(b, p).Success? { assert "" + Render(b, p).value == Render(b, p).value; }
    } else {
      var s := a + b;
      assert s[0] == a[0];
      assert s[1..] == a[1..] + b;
      RenderPlainPrefix(a[1..], b, p);
      PrependAssoc([a[0]], a[1..], Render(b, p));
      assert [a[0]] + a[1..] == a;
    }
  }

  /** Literal text without braces appended to a page is copied through unchanged. */
  lemma {:induction false} RenderPlainSuffix(a: string, b: string, p: Partials)
    requires '{' !in b && '}' !in b
    ensures Render(a + b, p) == Append(Render(a, p), b)
    decreases |a|
  {
    var s := a + b;
    if a == [] {
      assert s == b + "";
      RenderPlainPrefix(b, "", p);
      assert b + "" == b && "" + b == b;
    } else {
      if MatchAt(a).Some? { MatchExtend(a, b); }
      if MatchAt(s).Some? {
        MatchRestrict(a, b);
      }
      assert MatchAt(s) == MatchAt(a);
      assert s[0] == a[0];
      match MatchAt(a)
      case Some(t) =>
        if Resolves(p, t.name) {
          assert s[t.len..] == a[t.len..] + b;
          RenderPlainSuffix(a[t.len..], b, p);
          var r := Render(a[t.len..], p);
          if r.Success? { assert (p[t.name] + r.value) + b == p[t.name] + (r.value + b); }
        }
      case None =>
        assert s[1..] == a[1..] + b;
        RenderPlainSuffix(a[1..], b, p);
        var r := Render(a[1..], p);
        if r.Success? { assert ([a[0]] + r.value) + b == [a[0]] + (r.value + b); }
    }
  }

  /** The text of a token `{{> name}}` with whitespace `w1`, `w2` around the name. */
  function TokenText(w1: string, name: string, w2: string): string {
    "{{>" + w1 + name + w2 + "}}"
  }

  /**
   * The converse of `TokenMatch`: whatever a match covers is `{{>`, optional
   * whitespace, the name, optional whitespace and `}}`.
   */
  lemma MatchAtShape(s: string)
    requires MatchAt(s).Some?
    ensures exists w1, w2 ::
              AllSpace(w1) && AllSpace(w2) &&
              s[..MatchAt(s).value.len] == TokenText(w1, MatchAt(s).value.name, w2)
  {
    var a := SpaceEnd(s, 3);
    var b := NameEnd(s, a);
    var c := SpaceEnd(s, b);
    assert MatchAt(s).value == Token(s[a..b], c + 2);
    SpaceRun(s, 3);
    SpaceRun(s, b);
    var w1, w2 := s[3..a], s[b..c];
    assert AllSpace(w1) && AllSpace(w2);
    TokenSlices(s, a, b, c);
  }

  /** Cutting a token's text at its whitespace and name boundaries. */
  lemma TokenSlices(s: string, a: nat, b: nat, c: nat)
    requires 3 <= a <= b <= c && c + 2 <= |s|
    requires s[0] == '{' && s[1] == '{' && s[2] == '>' && s[c] == '}' && s[c + 1] == '}'
    ensures s[..c + 2] == TokenText(s[3..a], s[a..b], s[b..c])
  {
    assert s[..3] == "{{>";
    assert s[c..c + 2] == "}}";
    assert s[..c + 2] == s[..3] + s[3..a] + s[a..b] + s[b..c] + s[c..c + 2];
  }

  /** `MatchAt` read off from where the runs of the scanner end. */
  lemma MatchAtIs(s: string, a: nat, b: nat, c: nat)
    requires 3 <= a < b <= c && c + 2 <= |s| && s[0] == '{' && s[1] == '{' && s[2] == '>'
    requires SpaceEnd(s, 3) == a && NameEnd(s, a) == b && SpaceEnd(s, b) == c
    requires s[c] == '}' && s[c + 1] == '}'
    ensures MatchAt(s) == Some(Token(s[a..b], c + 2))
  {
  }

  /** A run of whitespace `w` after `x` ends where `w` ends when `y` does not start with a space. */
  lemma SpaceEndAfter(x: string, w: string, y: string)
    requires AllSpace(w) && |y| > 0 && !IsSpace(y[0])
    ensures SpaceEnd(x + w + y, |x|) == |x| + |w|
  {
    var s := x + w + y;
    assert forall j :: |x| <= j < |x| + |w| ==> s[j] == w[j - |x|];
    assert s[|x| + |w|] == y[0];
    SpaceEndIs(s, |x|, |x| + |w|);
  }

  /** A name `n` after `x` ends where `n` ends when `y` does not start with a name character. */
  lemma NameEndAfter(x: string, n: string, y: string)
    requires ValidName(n) && |y| > 0 && !IsNameChar(y[0])
    ensures NameEnd(x + n + y, |x|) == |x| + |n|
    ensures (x + n + y)[|x|..|x| + |n|] == n
  {
    var s := x + n + y;
    assert forall j :: |x| <= j < |x| + |n| ==> s[j] == n[j - |x|];
    assert s[|x| + |n|] == y[0];
    NameEndIs(s, |x|, |x| + |n|);
  }

  /** The whitespace before the name of a written-out token. */
  lemma TokenLeadingSpace(w1: string, name: string, w2: string, b: string)
    requires AllSpace(w1) && ValidName(name)
    ensures SpaceEnd(TokenText(w1, name, w2) + b, 3) == 3 + |w1|
  {
    var s := TokenText(w1, name, w2) + b;
    assert s == "{{>" + w1 + (name + w2 + "}}" + b);
    assert (name + w2 + "}}" + b)[0] == name[0];
    SpaceEndAfter("{{>", w1, name + w2 + "}}" + b);
  }

  /** A name followed by whitespace and a closing brace ends where the name does. */
  lemma NameBeforeClose(s: string, x: string, name: string, w2: string, rest: string)
    requires ValidName(name) && AllSpace(w2) && |rest| > 0 && rest[0] == '}'
    requires s == x + name + (w2 + rest)
    ensures NameEnd(s, |x|) == |x| + |name|
    ensures s[|x|..|x| + |name|] == name
  {
    var close := w2 + rest;
    assert !IsNameChar(close[0]) by {
      if |w2| > 0 {
        assert close[0] == w2[0] && IsSpace(w2[0]);
      } else {
        assert close[0] == rest[0];
      }
    }
    NameEndAfter(x, name, close);
  }

  /** The name of a written-out token. */
  lemma TokenName(w1: string, name: string, w2: string, b: string)
    requires AllSpace(w2) && ValidName(name)
    ensures var s := TokenText(w1, name, w2) + b;
      NameEnd(s, 3 + |w1|) == 3 + |w1| + |name| && s[3 + |w1|..3 + |w1| + |name|] == name
  {
    var s := TokenText(w1, name, w2) + b;
    var open := "{{>" + w1;
    var rest := "}}" + b;
    ConcatAssoc(open + name + w2, "}}", b);
    ConcatAssoc(open + name, w2, rest);
    NameBeforeClose(s, open, name, w2, rest);
  }

  /** The whitespace after the name of a written-out token, and its closing braces. */
  lemma TokenTrailingSpace(w1: string, name: string, w2: string, b: string)
    requires AllSpace(w2)
    ensures var s := TokenText(w1, name, w2) + b; var c := 3 + |w1| + |name| + |w2|;
      SpaceEnd(s, c - |w2|) == c && c + 2 == |TokenText(w1, name, w2)| && s[c] == '}' && s[c + 1] == '}'
  {
    var s := TokenText(w1, name, w2) + b;
    assert s == ("{{>" + w1 + name) + w2 + ("}}" + b);
    SpaceEndAfter("{{>" + w1 + name, w2, "}}" + b);
  }

  /** Concatenation regrouped. */
  lemma ConcatAssoc(x: string, y: string, z: string)
    ensures x + y + z == x + (y + z)
  {
  }

  /** A written-out token starts with `{{>`. */
  lemma TokenOpens(w1: string, name: string, w2: string, b: string)
    ensures var s := TokenText(w1, name, w2) + b; |s| >= 3 && s[0] == '{' && s[1] == '{' && s[2] == '>'
  {
    var s := TokenText(w1, name, w2) + b;
    assert s == "{{>" + (w1 + name + w2 + "}}" + b);
  }

  lemma TokenMatch(w1: string, name: string, w2: string, b: string)
    requires AllSpace(w1) && AllSpace(w2) && ValidName(name)
    ensures MatchAt(TokenText(w1, name, w2) + b) == Some(Token(name, |TokenText(w1, name, w2)|))
  {
    TokenLeadingSpace(w1, name, w2, b);
    TokenName(w1, name, w2, b);
    TokenTrailingSpace(w1, name, w2, b);
    TokenOpens(w1, name, w2, b);
    var s := TokenText(w1, name, w2) + b;
    MatchAtIs(s, 3 + |w1|, 3 + |w1| + |name|, 3 + |w1| + |name| + |w2|);
  }

  /**
   * A token is replaced verbatim by its partial and the partial's own text is
   * NOT scanned again (single pass): rendering continues after the token.
   */
  lemma RenderToken(w1: string, name: string, w2: string, b: string, p: Partials)
    requires AllSpace(w1) && AllSpace(w2) && ValidName(name)
    ensures Render(TokenText(w1, name, w2) + b, p) ==
      if Resolves(p, name) then Prepend(p[name], Render(b, p)) else Failure(PartialNotFound(name))
  {
    TokenMatch(w1, name, w2, b);
    var s := TokenText(w1, name, w2) + b;
    assert s[|TokenText(w1, name, w2)|..] == b;
  }

  /** A partial that itself holds a token is inserted as it is, even if that token is unresolvable. */
  lemma SinglePassExample()
    ensures Render("{{> a}}", map["a" := "{{> b}}"]) == Success("{{> b}}")
  {
    var p := map["a" := "{{> b}}"];
    assert ValidName("a");
    assert TokenText(" ", "a", "") == "{{> a}}";
    RenderLoneToken(" ", "a", "", p);
  }

  /** A text that is one token renders to the partial, or fails naming it. */
  lemma RenderLoneToken(w1: string, name: string, w2: string, p: Partials)
    requires AllSpace(w1) && AllSpace(w2) && ValidName(name)
    ensures Render(TokenText(w1, name, w2), p) ==
      if Resolves(p, name) then Success(p[name]) else Failure(PartialNotFound(name))
  {
    var t := TokenText(w1, name, w2);
    assert t + "" == t;
    RenderToken(w1, name, w2, "", p);
    if Resolves(p, name) {
      assert p[name] + "" == p[name];
    }
  }

  /** With shared `head` = `<meta a>` and English `head` = `<meta b>`, English pages get `<meta b>`. */
  lemma OverlayExample()
    ensures Render("{{>head}}", Merge(map["head" := "<meta a>"], map["head" := "<meta b>"])) == Success("<meta b>")
    ensures Render("{{>head}}", Merge(map["head" := "<meta a>"], map[])) == Success("<meta a>")
  {
    assert ValidName("head");
    assert TokenText("", "head", "") == "{{>head}}";
    RenderLoneToken("", "head", "", Merge(map["head" := "<meta a>"], map["head" := "<meta b>"]));
    RenderLoneToken("", "head", "", Merge(map["head" := "<meta a>"], map[]));
  }

  /** An empty language partial shadows a non-empty shared one, and rendering then fails. */
  lemma EmptyOverrideFails()
    ensures Render("{{> head}}", Merge(map["head" := "<meta a>"], map["head" := ""])) == Failure(PartialNotFound("head"))
  {
    assert ValidName("head");
    assert TokenText(" ", "head", "") == "{{> head}}";
    RenderLoneToken(" ", "head", "", Merge(map["head" := "<meta a>"], map["head" := ""]));
  }

  /* ---------- the page skeleton ---------- */

  /** The `lang` attribute of a wrapped page: `pt-BR` for Portuguese, `en` for anything else. */
  function HtmlLang(lang: string): string {
    if lang == "pt" then "pt-BR" else "en"
  }

  const Opening: string := "<!doctype html>\n<html lang=\""
  const Title: string := "<title>Discrete Maths for Engineers</title>"
  const PieceAfterLang: string := "\">\n<head>\n  " + Title + "\n  "
  const PieceAfterHead: string := "\n</head>\n<body>\n  "
  const PieceAfterHeader: string := "\n  <div class=\"app\">\n    "
  const PieceAfterSidebar: string := "\n    "
  const SkeletonTail: string := "\n  </div>\n</body>\n</html>"

  /** The literal pieces of the skeleton hold no braces. */
  lemma TitleIsPlain()
    ensures '{' !in Title
  {
  }

  lemma OpeningIsPlain(lang: string)
    ensures '{' !in Opening + HtmlLang(lang) + PieceAfterLang
  {
    TitleIsPlain();
    assert '{' !in Opening;
    assert '{' !in "\">\n<head>\n  ";
  }

  lemma MiddlePiecesArePlain()
    ensures '{' !in PieceAfterHead && '{' !in PieceAfterHeader && '{' !in PieceAfterSidebar
  {
  }

  lemma TailIsPlain()
    ensures '{' !in SkeletonTail && '}' !in SkeletonTail
  {
  }

  const HeadSlot: string := "{{> head}}"
  const HeaderSlot: string := "{{> header}}"
  const SidebarSlot: string := "{{> sidebar}}"

  /** The template string `wrapAsFullHtml` builds before rendering it. */
  function Skeleton(lang: string, body: string): string {
    Opening + HtmlLang(lang) + PieceAfterLang
    + (HeadSlot + (PieceAfterHead
    + (HeaderSlot + (PieceAfterHeader
    + (SidebarSlot + (PieceAfterSidebar
    + (body + SkeletonTail)))))))
  }

  /** `wrapAsFullHtml`: the skeleton around the body, rendered once more as a whole. */
  function Wrap(lang: string, body: string, p: Partials): (r: Result<string, BuildError>)
    ensures r.Failure? ==> r.error.PartialNotFound? && !Resolves(p, r.error.name)
  {
    Render(Skeleton(lang, body), p)
  }

  /** The skeleton's opening with its three slots filled. */
  function FilledHead(lang: string, p: Partials): string
    requires "head" in p && "header" in p && "sidebar" in p
  {
    Opening + HtmlLang(lang) + PieceAfterLang
    + (p["head"] + (PieceAfterHead
    + (p["header"] + (PieceAfterHeader
    + (p["sidebar"] + PieceAfterSidebar)))))
  }

  /** Literal text, then one slot token: the literal and the partial come out, then the rest. */
  lemma RenderLiteralThenSlot(lit: string, slot: string, name: string, rest: string, p: Partials)
    requires '{' !in lit && ValidName(name) && slot == TokenText(" ", name, "")
    ensures Render(lit + (slot + rest), p) ==
      if Resolves(p, name) then Prepend(lit, Prepend(p[name], Render(rest, p))) else Failure(PartialNotFound(name))
  {
    RenderPlainPrefix(lit, slot + rest, p);
    RenderToken(" ", name, "", rest, p);
  }

  lemma SlotsAreTokens()
    ensures HeadSlot == TokenText(" ", "head", "") && ValidName("head")
    ensures HeaderSlot == TokenText(" ", "header", "") && ValidName("header")
    ensures SidebarSlot == TokenText(" ", "sidebar", "") && ValidName("sidebar")
  {
  }

  /**
   * The layout of a wrapped page: head, header and sidebar slots in that order,
   * then the body (rendered a second time), then the closing of the app
   * container; a missing slot partial fails, the first one in that order.
   */
  lemma WrapLayout(lang: string, body: string, p: Partials)
    ensures Wrap(lang, body, p) ==
      if !Resolves(p, "head") then Failure(PartialNotFound("head"))
      else if !Resolves(p, "header") then Failure(PartialNotFound("header"))
      else if !Resolves(p, "sidebar") then Failure(PartialNotFound("sidebar"))
      else Prepend(FilledHead(lang, p), Append(Render(body, p), SkeletonTail))
  {
    SlotsAreTokens();
    OpeningIsPlain(lang);
    MiddlePiecesArePlain();
    TailIsPlain();
    var l1 := Opening + HtmlLang(lang) + PieceAfterLang;
    var r3 := PieceAfterSidebar + (body + SkeletonTail);
    var r2 := PieceAfterHeader + (SidebarSlot + r3);
    var r1 := PieceAfterHead + (HeaderSlot + r2);
    RenderLiteralThenSlot(l1, HeadSlot, "head", r1, p);
    RenderLiteralThenSlot(PieceAfterHead, HeaderSlot, "header", r2, p);
    RenderLiteralThenSlot(PieceAfterHeader, SidebarSlot, "sidebar", r3, p);
    RenderPlainPrefix(PieceAfterSidebar, body + SkeletonTail, p);
    RenderPlainSuffix(body, SkeletonTail, p);
    if Resolves(p, "head") && Resolves(p, "header") && Resolves(p, "sidebar") {
      var r := Append(Render(body, p), SkeletonTail);
      var s3 := p["sidebar"] + PieceAfterSidebar;
      var s2 := PieceAfterHeader + s3;
      var s1 := p["header"] + s2;
      var s0 := PieceAfterHead + s1;
      PrependAssoc(p["sidebar"], PieceAfterSidebar, r);
      PrependAssoc(PieceAfterHeader, s3, r);
      PrependAssoc(p["header"], s2, r);
      PrependAssoc(PieceAfterHead, s1, r);
      PrependAssoc(p["head"], s0, r);
      PrependAssoc(l1, p["head"] + s0, r);
    }
  }
}
