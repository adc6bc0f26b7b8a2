/**
 * The source tree as an in-memory value and the two partial loaders that read it.
 * Directory listings keep the order the file system returned them in.
 */
module SourceTree {
  import opened Wrappers
  import opened Text
  import opened Errors

  /** A directory entry's target: a regular file, a directory, or anything else, a symbolic link included (links are never followed). */
  datatype Node = File(content: string) | Dir(entries: seq<Entry>) | Special
  datatype Entry = Entry(name: string, node: Node)

  /** The first entry called `name`, as `path.join(dir, name)` finds it. */
  function FindEntry(es: seq<Entry>, name: string): (r: Option<Node>)
    ensures r.Some? <==> exists j :: 0 <= j < |es| && es[j].name == name
    ensures r.Some? ==> exists j :: 0 <= j < |es| && es[j].name == name && es[j].node == r.value
  {
    if es == [] then None
    else if es[0].name == name then Some(es[0].node)
    else
      var r := FindEntry(es[1..], name);
      assert forall j :: 1 <= j < |es| ==> es[j] == es[1..][j - 1];
      r
  }

  /** What `fs.existsSync` sees at `path` below `n`: nothing, or the node there. */
  function Lookup(n: Node, path: Path): Option<Node>
    decreases |path|
  {
    if path == [] then Some(n)
    else match n
      case Dir(es) =>
        (match FindEntry(es, path[0])
         case Some(c) => Lookup(c, path[1..])
         case None => None)
      case _ => None
  }

  /* ---------- the partial loaders ---------- */

  const HtmlExt: string := ".html"

  /** `file.replace(".html", "")`: the first `.html` is removed, wherever it is. */
  function KeyOf(name: string): (r: string)
    ensures EndsWith(name, HtmlExt) ==> |r| == |name| - |HtmlExt|
    ensures (forall j :: !OccursAt(name, HtmlExt, j)) ==> r == name
  {
    assert EndsWith(name, HtmlExt) ==> OccursAt(name, HtmlExt, |name| - |HtmlExt|);
    ReplaceFirst(name, HtmlExt, "")
  }

  /** Entry `j` of the listing is a partial file whose key is `k`. */
  predicate ListsKey(es: seq<Entry>, j: int, k: string)
    requires 0 <= j < |es|
  {
    EndsWith(es[j].name, HtmlExt) && KeyOf(es[j].name) == k
  }

  /**
   * The loaders' `for` loop from entry `i` on, with the map `acc` filled so far:
   * non-`.html` names are skipped; reading a `.html` name that is a directory or
   * not a regular file throws.
   */
  function CollectFrom(acc: map<string, string>, es: seq<Entry>, dir: Path, i: nat)
    : (r: Result<map<string, string>, BuildError>)
    requires i <= |es|
    ensures r.Failure? ==> r.error.IsADirectory? || r.error.Unreadable?
    ensures r.Success? ==> acc.Keys <= r.value.Keys
    decreases |es| - i
  {
    if i == |es| then Success(acc)
    else
      var e := es[i];
      if !EndsWith(e.name, HtmlExt) then CollectFrom(acc, es, dir, i + 1)
      else match e.node
        case File(c) => CollectFrom(acc[KeyOf(e.name) := c], es, dir, i + 1)
        case Dir(_) => Failure(IsADirectory(dir + [e.name]))
        case Special => Failure(Unreadable(dir + [e.name]))
  }

  /** A `.html` entry the loaders cannot read. */
  predicate BadPartial(e: Entry) {
    EndsWith(e.name, HtmlExt) && !e.node.File?
  }

  /** The error reading entry `e` of `dir` raises. */
  function ReadError(e: Entry, dir: Path): BuildError {
    if e.node.Dir? then IsADirectory(dir + [e.name]) else Unreadable(dir + [e.name])
  }

  /** Shared body of both loaders: missing folder, folder that is a file, or the loop. */
  function LoadFrom(src: Node, dir: Path, missing: BuildError): (r: Result<map<string, string>, BuildError>)
    ensures Lookup(src, dir).None? ==> r == Failure(missing)
    ensures r.Success? ==> Lookup(src, dir).Some? && Lookup(src, dir).value.Dir?
    ensures Lookup(src, dir).Some? && r.Failure? ==>
              r.error == NotADirectory(dir) || r.error.IsADirectory? || r.error.Unreadable?
  {
    match Lookup(src, dir)
    case None => Failure(missing)
    case Some(Dir(es)) => CollectFrom(map[], es, dir, 0)
    case Some(_) => Failure(NotADirectory(dir))
  }

  const SharedPartialsDir: Path := ["shared", "partials"]

  function LangPartialsDir(lang: string): Path {
    [lang, "partials"]
  }

  /** `loadSharedPartials()` over the source root. */
  function LoadSharedPartials(src: Node): (r: Result<map<string, string>, BuildError>)
    ensures Lookup(src, SharedPartialsDir).None? ==> r == Failure(MissingSharedPartials(SharedPartialsDir))
  {
    LoadFrom(src, SharedPartialsDir, MissingSharedPartials(SharedPartialsDir))
  }

  /** `loadLangPartials(lang)` over the source root. */
  function LoadLangPartials(src: Node, lang: string): (r: Result<map<string, string>, BuildError>)
    ensures Lookup(src, LangPartialsDir(lang)).None? ==>
      r == Failure(MissingLangPartials(lang, LangPartialsDir(lang)))
  {
    LoadFrom(src, LangPartialsDir(lang), MissingLangPartials(lang, LangPartialsDir(lang)))
  }

  /** The loaders' loop over one listing, written as the source writes it. */
  method LoadListing(es: seq<Entry>, dir: Path) returns (r: Result<map<string, string>, BuildError>)
    ensures r == CollectFrom(map[], es, dir, 0)
  {
    var partials: map<string, string> := map[];
    var i := 0;
    while i < |es|
      invariant 0 <= i <= |es|
      invariant CollectFrom(partials, es, dir, i) == CollectFrom(map[], es, dir, 0)
    {
      var e := es[i];
      if EndsWith(e.name, HtmlExt) {
        match e.node {
          case File(c) =>
            partials := partials[KeyOf(e.name) := c];
          case Dir(_) =>
            return Failure(IsADirectory(dir + [e.name]));
          case Special =>
            return Failure(Unreadable(dir + [e.name]));
        }
      }
      i := i + 1;
    }
    return Success(partials);
  }

  /** A loader as the source runs it: the existence check, then the listing loop. */
  method LoadPartialsAt(src: Node, dir: Path, missing: BuildError) returns (r: Result<map<string, string>, BuildError>)
    ensures r == LoadFrom(src, dir, missing)
  {
    var found := Lookup(src, dir);
    if found.None? {
      return Failure(missing);
    }
    match found.value {
      case Dir(es) =>
        r := LoadListing(es, dir);
      case _ =>
        r := Failure(NotADirectory(dir));
    }
  }

  /* ---------- what the loop computes ---------- */

  /** The first unreadable `.html` entry at or after `i`. */
  function FirstBad(es: seq<Entry>, i: nat): (r: Option<nat>)
    requires i <= |es|
    ensures r.Some? ==> i <= r.value < |es| && BadPartial(es[r.value])
    ensures r.Some? ==> forall j :: i <= j < r.value ==> !BadPartial(es[j])
    ensures r.None? ==> forall j :: i <= j < |es| ==> !BadPartial(es[j])
    decreases |es| - i
  {
    if i == |es| then None
    else if BadPartial(es[i]) then Some(i)
    else FirstBad(es, i + 1)
  }

  /** The loop fails exactly when a `.html` entry is unreadable, and names the first one. */
  lemma {:induction false} CollectFailsIff(acc: map<string, string>, es: seq<Entry>, dir: Path, i: nat)
    requires i <= |es|
    ensures CollectFrom(acc, es, dir, i).Failure? <==> FirstBad(es, i).Some?
    ensures CollectFrom(acc, es, dir, i).Failure? ==>
      CollectFrom(acc, es, dir, i).error == ReadError(es[FirstBad(es, i).value], dir)
    decreases |es| - i
  {
    if i < |es| {
      var e := es[i];
      if !EndsWith(e.name, HtmlExt) {
        CollectFailsIff(acc, es, dir, i + 1);
      } else if e.node.File? {
        CollectFailsIff(acc[KeyOf(e.name) := e.node.content], es, dir, i + 1);
      }
    }
  }

  /** On success the keys are those of `acc` plus one per `.html` entry. */
  lemma {:induction false} CollectKeys(acc: map<string, string>, es: seq<Entry>, dir: Path, i: nat)
    requires i <= |es|
    requires CollectFrom(acc, es, dir, i).Success?
    ensures forall k :: k in CollectFrom(acc, es, dir, i).value <==>
      k in acc || exists j :: i <= j < |es| && ListsKey(es, j, k)
    decreases |es| - i
  {
    if i < |es| {
      var e := es[i];
      if !EndsWith(e.name, HtmlExt) {
        CollectKeys(acc, es, dir, i + 1);
      } else {
        CollectKeys(acc[KeyOf(e.name) := e.node.content], es, dir, i + 1);
        assert ListsKey(es, i, KeyOf(e.name));
        assert forall k :: ListsKey(es, i, k) ==> k == KeyOf(e.name);
      }
    }
  }

  /** A key holds the content of the last entry listing it. */
  lemma {:induction false} CollectLastWins(acc: map<string, string>, es: seq<Entry>, dir: Path, i: nat, j: nat)
    requires i <= j < |es| && EndsWith(es[j].name, HtmlExt)
    requires forall j' :: j < j' < |es| ==> !ListsKey(es, j', KeyOf(es[j].name))
    requires CollectFrom(acc, es, dir, i).Success?
    ensures es[j].node.File?
    ensures var m := CollectFrom(acc, es, dir, i).value;
      KeyOf(es[j].name) in m && m[KeyOf(es[j].name)] == es[j].node.content
    decreases |es| - i
  {
    var e := es[i];
    if i < j {
      if !EndsWith(e.name, HtmlExt) {
        CollectLastWins(acc, es, dir, i + 1, j);
      } else {
        CollectLastWins(acc[KeyOf(e.name) := e.node.content], es, dir, i + 1, j);
      }
    } else {
      CollectKeepsAcc(acc[KeyOf(e.name) := e.node.content], es, dir, i + 1, KeyOf(e.name));
    }
  }

  /** A key no later entry lists keeps the value it had. */
  lemma {:induction false} CollectKeepsAcc(acc: map<string, string>, es: seq<Entry>, dir: Path, i: nat, k: string)
    requires i <= |es| && k in acc
    requires forall j :: i <= j < |es| ==> !ListsKey(es, j, k)
    requires CollectFrom(acc, es, dir, i).Success?
    ensures k in CollectFrom(acc, es, dir, i).value && CollectFrom(acc, es, dir, i).value[k] == acc[k]
    decreases |es| - i
  {
    if i < |es| {
      var e := es[i];
      if !EndsWith(e.name, HtmlExt) {
        CollectKeepsAcc(acc, es, dir, i + 1, k);
      } else {
        assert !ListsKey(es, i, k);
        CollectKeepsAcc(acc[KeyOf(e.name) := e.node.content], es, dir, i + 1, k);
      }
    }
  }

  /** Loading a listing with no unreadable partial succeeds, with exactly the listed keys. */
  lemma LoadListingKeys(es: seq<Entry>, dir: Path)
    requires forall j :: 0 <= j < |es| ==> !BadPartial(es[j])
    ensures CollectFrom(map[], es, dir, 0).Success?
    ensures forall k :: k in CollectFrom(map[], es, dir, 0).value <==>
      exists j :: 0 <= j < |es| && ListsKey(es, j, k)
  {
    CollectFailsIff(map[], es, dir, 0);
    assert FirstBad(es, 0).None?;
    CollectKeys(map[], es, dir, 0);
  }

  /** Only the first `.html` goes: `a.html.html` is stored under `a.html`. */
  lemma KeyOfRemovesFirstOnly()
    ensures KeyOf("a.html.html") == "a.html"
  {
    var s := "a.html.html";
    assert !OccursAt(s, HtmlExt, 0) by { assert s[0] != '.'; }
    assert OccursAt(s, HtmlExt, 1);
    assert s[..1] + s[6..] == "a.html";
  }

  /** A name with no dot before its extension loses exactly the extension. */
  lemma KeyOfPlainName(base: string)
    requires forall j :: 0 <= j < |base| ==> base[j] != '.'
    ensures KeyOf(base + HtmlExt) == base
  {
    var s := base + HtmlExt;
    forall j | 0 <= j < |base|
      ensures !OccursAt(s, HtmlExt, j)
    {
      assert s[j] == base[j];
      if j + |HtmlExt| <= |s| {
        assert s[j..j + |HtmlExt|][0] == s[j];
      }
    }
    assert OccursAt(s, HtmlExt, |base|);
    assert IndexOf(s, HtmlExt) == Some(|base|);
    assert s[..|base|] == base;
  }
}
