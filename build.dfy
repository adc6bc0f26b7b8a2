/**
 * The build's side effects: emptying `dist`, mirroring each language's tree
 * into it, and copying the shared assets. Each operation is specified by a
 * function from the output state before it to the output state after it and
 * the error, if any, that stopped it; the `Site` class performs the same
 * steps in place.
 */
module Build {
  import opened Wrappers
  import opened Text
  import opened Errors
  import opened Templates
  import opened SourceTree

  /** The output tree, relative to `dist`: written files and created directories. */
  datatype Out = Out(files: map<Path, string>, dirs: set<Path>)

  /** Where an operation left the output, and the error that stopped it, if any. */
  datatype Run = Run(out: Out, err: Option<BuildError>)

  const Langs: seq<string> := ["en", "pt"]
  const SharedAssetsDir: Path := ["shared", "assets"]
  const AssetsOut: Path := ["assets"]

  /** `dist` after `cleanDist()`: an empty directory. */
  const Empty: Out := Out(map[], {[]})

  /** `mkdirSync(dir, { recursive: true })`: the directory and all its parents exist. */
  function EnsureDirOut(o: Out, p: Path): (r: Out)
    ensures r.files == o.files
  {
    Out(o.files, o.dirs + set k | 0 <= k <= |p| :: p[..k])
  }

  /** After `EnsureDirOut` exactly the old directories, `p` and its ancestors exist. */
  lemma EnsureDirCreatesAncestors(o: Out, p: Path)
    ensures forall k :: 0 <= k <= |p| ==> p[..k] in EnsureDirOut(o, p).dirs
    ensures forall d :: d in EnsureDirOut(o, p).dirs <==> d in o.dirs || (|d| <= |p| && d == p[..|d|])
  {
  }

  function WriteOut(o: Out, p: Path, content: string): Out {
    Out(o.files[p := content], o.dirs)
  }

  /* ---------- one file of a language tree ---------- */

  /**
   * What the walk writes for a regular file called `name`: other files are
   * copied as they are, a full document is rendered, a fragment is rendered
   * and the result wrapped in the page skeleton (which is rendered again).
   */
  function Emit(name: string, raw: string, lang: string, p: Partials): (r: Result<string, BuildError>)
    ensures r.Failure? ==> EndsWith(name, HtmlExt) && r.error.PartialNotFound? && !Resolves(p, r.error.name)
  {
    if !EndsWith(name, HtmlExt) then Success(raw)
    else if LooksLikeFullHtml(raw) then Render(raw, p)
    else match Render(raw, p)
      case Failure(e) => Failure(e)
      case Success(body) => Wrap(lang, body, p)
  }

  /** The three kinds of file, stated from the outside. */
  lemma EmitCases(name: string, raw: string, lang: string, p: Partials)
    ensures !EndsWith(name, HtmlExt) ==> Emit(name, raw, lang, p) == Success(raw)
    ensures EndsWith(name, HtmlExt) && LooksLikeFullHtml(raw) ==> Emit(name, raw, lang, p) == Render(raw, p)
    ensures EndsWith(name, HtmlExt) && !LooksLikeFullHtml(raw) ==>
      (Emit(name, raw, lang, p).Success? <==> Render(raw, p).Success? && Wrap(lang, Render(raw, p).value, p).Success?)
    ensures EndsWith(name, HtmlExt) && !LooksLikeFullHtml(raw) && Emit(name, raw, lang, p).Success? ==>
      Emit(name, raw, lang, p) == Wrap(lang, Render(raw, p).value, p)
  {
  }

  /* ---------- the walk ---------- */

  /**
   * `walk(dir)` from entry `i` of the listing `es` of source directory `path`
   * (relative to `src`, and so also the output directory relative to `dist`).
   */
  function WalkFrom(st: Out, es: seq<Entry>, path: Path, i: nat, lang: string, p: Partials): (r: Run)
    requires i <= |es|
    ensures r.err.Some? ==> r.err.value.PartialNotFound? && !Resolves(p, r.err.value.name)
    ensures st.files.Keys <= r.out.files.Keys && st.dirs <= r.out.dirs
    decreases es, |es| - i
  {
    if i == |es| then Run(st, None)
    else
      var e := es[i];
      match e.node
      case Dir(cs) =>
        var r := WalkFrom(st, cs, path + [e.name], 0, lang, p);
        if r.err.Some? then r else WalkFrom(r.out, es, path, i + 1, lang, p)
      case Special => WalkFrom(st, es, path, i + 1, lang, p)
      case File(raw) =>
        var st1 := EnsureDirOut(st, path);
        match Emit(e.name, raw, lang, p)
        case Failure(err) => Run(st1, Some(err))
        case Success(text) => WalkFrom(WriteOut(st1, path + [e.name], text), es, path, i + 1, lang, p)
  }

  /**
   * The regular files below entry `i` of the listing of `base`, by full path;
   * a later entry for the same path replaces an earlier one.
   */
  function FilesOf(es: seq<Entry>, base: Path, i: nat): map<Path, string>
    requires i <= |es|
    decreases es, |es| - i
  {
    if i == |es| then map[]
    else
      var e := es[i];
      var here: map<Path, string> :=
        match e.node
        case File(c) => map[base + [e.name] := c]
        case Dir(cs) => FilesOf(cs, base + [e.name], 0)
        case Special => map[];
      here + FilesOf(es, base, i + 1)
  }

  /** Every file found below `base` has a path that extends `base`. */
  lemma {:induction false} FilesOfUnder(es: seq<Entry>, base: Path, i: nat)
    requires i <= |es|
    ensures forall q :: q in FilesOf(es, base, i) ==> |q| > |base| && q[..|base|] == base
    decreases es, |es| - i
  {
    if i < |es| {
      var e := es[i];
      FilesOfUnder(es, base, i + 1);
      if e.node.Dir? {
        var m := FilesOf(e.node.entries, base + [e.name], 0);
        FilesOfUnder(e.node.entries, base + [e.name], 0);
        forall q | q in m
          ensures q[..|base|] == base
        {
          assert q[..|base|] == q[..|base| + 1][..|base|];
        }
      }
    }
  }

  /** The last segment of a path: the file's own name. */
  function Last(q: Path): string {
    if q == [] then "" else q[|q| - 1]
  }

  /**
   * `after` is `before` with every file of `f` written as `Emit` makes it, and
   * no other file touched.
   */
  predicate Mirrored(before: map<Path, string>, after: map<Path, string>, f: map<Path, string>,
                     lang: string, p: Partials)
  {
    && after.Keys == before.Keys + f.Keys
    && (forall q :: q in f ==> Emit(Last(q), f[q], lang, p) == Success(after[q]))
    && (forall q :: q in before && q !in f ==> after[q] == before[q])
  }

  /** Two mirroring steps in a row mirror the union of their files, the later step winning. */
  lemma MirroredCompose(a: map<Path, string>, b: map<Path, string>, c: map<Path, string>,
                        f1: map<Path, string>, f2: map<Path, string>, lang: string, p: Partials)
    requires Mirrored(a, b, f1, lang, p) && Mirrored(b, c, f2, lang, p)
    ensures Mirrored(a, c, f1 + f2, lang, p)
  {
    forall q | q in f1 + f2
      ensures Emit(Last(q), (f1 + f2)[q], lang, p) == Success(c[q])
    {
      if q !in f2 {
        assert q in b;
      }
    }
  }

  /**
   * The path-mirroring invariant: a walk that succeeds writes every regular file
   * below the directory to the same relative path, holding what `Emit` makes of
   * it, and leaves every other file as it was.
   */
  lemma {:induction false} WalkMirrors(st: Out, es: seq<Entry>, path: Path, i: nat, lang: string, p: Partials)
    requires i <= |es|
    requires WalkFrom(st, es, path, i, lang, p).err.None?
    ensures Mirrored(st.files, WalkFrom(st, es, path, i, lang, p).out.files, FilesOf(es, path, i), lang, p)
    decreases es, |es| - i, 1
  {
    if i < |es| {
      match es[i].node
      case Dir(_) => WalkMirrorsDir(st, es, path, i, lang, p);
      case File(_) => WalkMirrorsFile(st, es, path, i, lang, p);
      case Special => WalkMirrors(st, es, path, i + 1, lang, p);
    }
  }

  /** The step of `WalkMirrors` for a sub-directory entry. */
  lemma {:induction false} WalkMirrorsDir(st: Out, es: seq<Entry>, path: Path, i: nat, lang: string, p: Partials)
    requires i < |es| && es[i].node.Dir?
    requires WalkFrom(st, es, path, i, lang, p).err.None?
    ensures Mirrored(st.files, WalkFrom(st, es, path, i, lang, p).out.files, FilesOf(es, path, i), lang, p)
    decreases es, |es| - i, 0
  {
    var e := es[i];
    var cs := e.node.entries;
    WalkMirrors(st, cs, path + [e.name], 0, lang, p);
    var r := WalkFrom(st, cs, path + [e.name], 0, lang, p);
    WalkMirrors(r.out, es, path, i + 1, lang, p);
    MirroredCompose(st.files, r.out.files, WalkFrom(r.out, es, path, i + 1, lang, p).out.files,
      FilesOf(cs, path + [e.name], 0), FilesOf(es, path, i + 1), lang, p);
  }

  /** The step of `WalkMirrors` for a regular file entry. */
  lemma {:induction false} WalkMirrorsFile(st: Out, es: seq<Entry>, path: Path, i: nat, lang: string, p: Partials)
    requires i < |es| && es[i].node.File?
    requires WalkFrom(st, es, path, i, lang, p).err.None?
    ensures Mirrored(st.files, WalkFrom(st, es, path, i, lang, p).out.files, FilesOf(es, path, i), lang, p)
    decreases es, |es| - i, 0
  {
    var e := es[i];
    var q := path + [e.name];
    var text := Emit(e.name, e.node.content, lang, p).value;
    var st2 := WriteOut(EnsureDirOut(st, path), q, text);
    WalkMirrors(st2, es, path, i + 1, lang, p);
    assert Last(q) == e.name;
    assert Mirrored(st.files, st2.files, map[q := e.node.content], lang, p);
    MirroredCompose(st.files, st2.files, WalkFrom(st2, es, path, i + 1, lang, p).out.files,
      map[q := e.node.content], FilesOf(es, path, i + 1), lang, p);
  }

  /* ---------- copyDir ---------- */

  /**
   * `copyDir(srcDir, destDir)` given what exists at `srcDir`: nothing happens
   * when it is missing; otherwise `destDir` is created before its listing is read.
   */
  function CopyDirRun(st: Out, src: Option<Node>, srcPath: Path, dest: Path): (r: Run)
    ensures src.None? ==> r == Run(st, None)
  {
    match src
    case None => Run(st, None)
    case Some(Dir(es)) => CopyFrom(EnsureDirOut(st, dest), es, srcPath, dest, 0)
    case Some(_) => Run(EnsureDirOut(st, dest), Some(NotADirectory(srcPath)))
  }

  /** The body of `copyDir`'s loop from entry `i` on; sub-directories recurse. */
  function CopyFrom(st: Out, es: seq<Entry>, srcPath: Path, dest: Path, i: nat): (r: Run)
    requires i <= |es|
    ensures r.err.Some? ==> r.err.value.Unreadable?
    ensures st.files.Keys <= r.out.files.Keys && st.dirs <= r.out.dirs
    decreases es, |es| - i
  {
    if i == |es| then Run(st, None)
    else
      var e := es[i];
      match e.node
      case Dir(cs) =>
        var r := CopyFrom(EnsureDirOut(st, dest + [e.name]), cs, srcPath + [e.name], dest + [e.name], 0);
        if r.err.Some? then r else CopyFrom(r.out, es, srcPath, dest, i + 1)
      case File(c) => CopyFrom(WriteOut(st, dest + [e.name], c), es, srcPath, dest, i + 1)
      case Special => Run(st, Some(Unreadable(srcPath + [e.name])))
  }

  lemma UnionAssoc(a: map<Path, string>, b: map<Path, string>, c: map<Path, string>)
    ensures a + b + c == a + (b + c)
  {
  }

  /** A copy that succeeds adds exactly the source's files, placed below `dest`. */
  lemma {:induction false} CopyMirrors(st: Out, es: seq<Entry>, srcPath: Path, dest: Path, i: nat)
    requires i <= |es|
    requires CopyFrom(st, es, srcPath, dest, i).err.None?
    ensures CopyFrom(st, es, srcPath, dest, i).out.files == st.files + FilesOf(es, dest, i)
    decreases es, |es| - i, 1
  {
    if i < |es| {
      match es[i].node
      case Dir(_) => CopyMirrorsDir(st, es, srcPath, dest, i);
      case File(_) => CopyMirrorsFile(st, es, srcPath, dest, i);
      case Special =>
    }
  }

  /** The step of `CopyMirrors` for a regular file entry. */
  lemma {:induction false} CopyMirrorsFile(st: Out, es: seq<Entry>, srcPath: Path, dest: Path, i: nat)
    requires i < |es| && es[i].node.File?
    requires CopyFrom(st, es, srcPath, dest, i).err.None?
    ensures CopyFrom(st, es, srcPath, dest, i).out.files == st.files + FilesOf(es, dest, i)
    decreases es, |es| - i, 0
  {
    var e := es[i];
    var q := dest + [e.name];
    var c := e.node.content;
    var st2 := WriteOut(st, q, c);
    assert CopyFrom(st, es, srcPath, dest, i) == CopyFrom(st2, es, srcPath, dest, i + 1);
    assert FilesOf(es, dest, i) == map[q := c] + FilesOf(es, dest, i + 1);
    CopyMirrors(st2, es, srcPath, dest, i + 1);
    assert st2.files == st.files + map[q := c];
    UnionAssoc(st.files, map[q := c], FilesOf(es, dest, i + 1));
  }

  /** The step of `CopyMirrors` for a sub-directory entry. */
  lemma {:induction false} CopyMirrorsDir(st: Out, es: seq<Entry>, srcPath: Path, dest: Path, i: nat)
    requires i < |es| && es[i].node.Dir?
    requires CopyFrom(st, es, srcPath, dest, i).err.None?
    ensures CopyFrom(st, es, srcPath, dest, i).out.files == st.files + FilesOf(es, dest, i)
    decreases es, |es| - i, 0
  {
    var e := es[i];
    var cs := e.node.entries;
    var st1 := EnsureDirOut(st, dest + [e.name]);
    CopyMirrors(st1, cs, srcPath + [e.name], dest + [e.name], 0);
    var r := CopyFrom(st1, cs, srcPath + [e.name], dest + [e.name], 0);
    CopyMirrors(r.out, es, srcPath, dest, i + 1);
    UnionAssoc(st.files, FilesOf(cs, dest + [e.name], 0), FilesOf(es, dest, i + 1));
  }

  /* ---------- one language, and main ---------- */

  /**
   * `buildHtmlUnderLang(lang, shared)`: a language without a source directory is
   * skipped before its partials are loaded; otherwise its partials overlay the
   * shared ones and its tree is walked.
   */
  function BuildLangRun(st: Out, src: Node, lang: string, shared: Partials): (r: Run)
    ensures Lookup(src, [lang]).None? ==> r == Run(st, None)
    ensures Lookup(src, [lang]).Some? && Lookup(src, LangPartialsDir(lang)).None? ==>
      r == Run(st, Some(MissingLangPartials(lang, LangPartialsDir(lang))))
    ensures st.files.Keys <= r.out.files.Keys
  {
    match Lookup(src, [lang])
    case None => Run(st, None)
    case Some(n) =>
      match LoadLangPartials(src, lang)
      case Failure(e) => Run(st, Some(e))
      case Success(lp) =>
        match n
        case Dir(es) => WalkFrom(st, es, [lang], 0, lang, Merge(shared, lp))
        case _ => Run(st, Some(NotADirectory([lang])))
  }

  /** The `for (const lang of LANGS)` loop from language `i` on. */
  function LangsFrom(st: Out, src: Node, shared: Partials, i: nat): (r: Run)
    requires i <= |Langs|
    ensures st.files.Keys <= r.out.files.Keys
    decreases |Langs| - i
  {
    if i == |Langs| then Run(st, None)
    else
      var r := BuildLangRun(st, src, Langs[i], shared);
      if r.err.Some? then r else LangsFrom(r.out, src, shared, i + 1)
  }

  /** `main()`: clean, load the shared partials, build each language, copy the assets. */
  function MainRun(src: Node): (r: Run)
    ensures LoadSharedPartials(src).Failure? ==> r == Run(Empty, Some(LoadSharedPartials(src).error))
    ensures Lookup(src, SharedPartialsDir).None? ==> r == Run(Empty, Some(MissingSharedPartials(SharedPartialsDir)))
  {
    match LoadSharedPartials(src)
    case Failure(e) => Run(Empty, Some(e))
    case Success(shared) =>
      var r := LangsFrom(Empty, src, shared, 0);
      if r.err.Some? then r
      else CopyDirRun(r.out, Lookup(src, SharedAssetsDir), SharedAssetsDir, AssetsOut)
  }

  /* ---------- when the build stops ---------- */

  /**
   * Some regular file at or after entry `i` of `es`, or anywhere below a
   * sub-directory there, is one `Emit` fails on.
   */
  predicate EmitFailsIn(es: seq<Entry>, i: nat, lang: string, p: Partials)
    requires i <= |es|
    decreases es, |es| - i
  {
    if i == |es| then false
    else
      var e := es[i];
      var here :=
        match e.node
        case File(raw) => Emit(e.name, raw, lang, p).Failure?
        case Dir(cs) => EmitFailsIn(cs, 0, lang, p)
        case Special => false;
      here || EmitFailsIn(es, i + 1, lang, p)
  }

  /** The walk stops with an error exactly when some file below it cannot be emitted. */
  lemma {:induction false} WalkFailsIff(st: Out, es: seq<Entry>, path: Path, i: nat, lang: string, p: Partials)
    requires i <= |es|
    ensures WalkFrom(st, es, path, i, lang, p).err.Some? <==> EmitFailsIn(es, i, lang, p)
    decreases es, |es| - i
  {
    if i < |es| {
      var e := es[i];
      match e.node
      case Dir(cs) =>
        WalkFailsIff(st, cs, path + [e.name], 0, lang, p);
        WalkFailsIff(WalkFrom(st, cs, path + [e.name], 0, lang, p).out, es, path, i + 1, lang, p);
      case Special =>
        WalkFailsIff(st, es, path, i + 1, lang, p);
      case File(raw) =>
        var em := Emit(e.name, raw, lang, p);
        if em.Success? {
          WalkFailsIff(WriteOut(EnsureDirOut(st, path), path + [e.name], em.value), es, path, i + 1, lang, p);
        }
    }
  }

  /** Entry `i` of `es` or a later one, or an entry anywhere below them, is neither a file nor a directory. */
  predicate SpecialIn(es: seq<Entry>, i: nat)
    requires i <= |es|
    decreases es, |es| - i
  {
    if i == |es| then false
    else
      var here :=
        match es[i].node
        case File(_) => false
        case Dir(cs) => SpecialIn(cs, 0)
        case Special => true;
      here || SpecialIn(es, i + 1)
  }

  /** The copy stops with an error exactly when it meets an entry it cannot read. */
  lemma {:induction false} CopyFailsIff(st: Out, es: seq<Entry>, srcPath: Path, dest: Path, i: nat)
    requires i <= |es|
    ensures CopyFrom(st, es, srcPath, dest, i).err.Some? <==> SpecialIn(es, i)
    decreases es, |es| - i
  {
    if i < |es| {
      var e := es[i];
      match e.node
      case Dir(cs) =>
        var st1 := EnsureDirOut(st, dest + [e.name]);
        CopyFailsIff(st1, cs, srcPath + [e.name], dest + [e.name], 0);
        CopyFailsIff(CopyFrom(st1, cs, srcPath + [e.name], dest + [e.name], 0).out, es, srcPath, dest, i + 1);
      case File(c) =>
        CopyFailsIff(WriteOut(st, dest + [e.name], c), es, srcPath, dest, i + 1);
      case Special =>
    }
  }

  /** Copying what exists at `dir` fails: it is not a directory, or holds an unreadable entry. */
  predicate CopySourceFails(src: Node, dir: Path) {
    match Lookup(src, dir)
    case None => false
    case Some(Dir(es)) => SpecialIn(es, 0)
    case Some(_) => true
  }

  lemma CopyDirFailsIff(st: Out, src: Node, dir: Path, dest: Path)
    ensures CopyDirRun(st, Lookup(src, dir), dir, dest).err.Some? <==> CopySourceFails(src, dir)
  {
    match Lookup(src, dir)
    case Some(Dir(es)) => CopyFailsIff(EnsureDirOut(st, dest), es, dir, dest, 0);
    case _ =>
  }

  /**
   * Building `lang` fails: its source directory exists and its partials cannot
   * be loaded, or it is not a directory, or some file below it cannot be emitted.
   */
  predicate LangFails(src: Node, lang: string, shared: Partials) {
    match Lookup(src, [lang])
    case None => false
    case Some(n) =>
      var lp := LoadLangPartials(src, lang);
      lp.Failure? || !n.Dir? || EmitFailsIn(n.entries, 0, lang, Merge(shared, lp.value))
  }

  lemma BuildLangFailsIff(st: Out, src: Node, lang: string, shared: Partials)
    ensures BuildLangRun(st, src, lang, shared).err.Some? <==> LangFails(src, lang, shared)
  {
    match Lookup(src, [lang])
    case Some(Dir(es)) =>
      var lp := LoadLangPartials(src, lang);
      if lp.Success? {
        WalkFailsIff(st, es, [lang], 0, lang, Merge(shared, lp.value));
      }
    case _ =>
  }

  /**
   * `main` reports an error exactly when the shared partials cannot be loaded,
   * one of the two languages fails, or the shared assets cannot be copied.
   */
  lemma MainFailsIff(src: Node)
    ensures MainRun(src).err.Some? <==>
      var sp := LoadSharedPartials(src);
      || sp.Failure?
      || LangFails(src, "en", sp.value)
      || LangFails(src, "pt", sp.value)
      || CopySourceFails(src, SharedAssetsDir)
  {
    var sp := LoadSharedPartials(src);
    if sp.Success? {
      var shared := sp.value;
      LangsInOrder(Empty, src, shared);
      var r0 := BuildLangRun(Empty, src, "en", shared);
      BuildLangFailsIff(Empty, src, "en", shared);
      if r0.err.None? {
        var r1 := BuildLangRun(r0.out, src, "pt", shared);
        BuildLangFailsIff(r0.out, src, "pt", shared);
        if r1.err.None? {
          CopyDirFailsIff(r1.out, src, SharedAssetsDir, AssetsOut);
        }
      }
    }
  }

  /* ---------- what main leaves in dist ---------- */

  /** The regular files of the source directory `dir`, placed below `base`. */
  function TreeFiles(src: Node, dir: Path, base: Path): map<Path, string> {
    match Lookup(src, dir)
    case Some(Dir(es)) => FilesOf(es, base, 0)
    case _ => map[]
  }

  /** A language step that succeeds mirrors that language's tree and nothing else. */
  lemma BuildLangMirrors(st: Out, src: Node, lang: string, shared: Partials)
    requires BuildLangRun(st, src, lang, shared).err.None?
    ensures Lookup(src, [lang]).Some? ==> LoadLangPartials(src, lang).Success?
    ensures var p := if LoadLangPartials(src, lang).Success? then Merge(shared, LoadLangPartials(src, lang).value) else shared;
      Mirrored(st.files, BuildLangRun(st, src, lang, shared).out.files, TreeFiles(src, [lang], [lang]), lang, p)
  {
    match Lookup(src, [lang])
    case None =>
    case Some(n) =>
      var es := n.entries;
      WalkMirrors(st, es, [lang], 0, lang, Merge(shared, LoadLangPartials(src, lang).value));
  }

  /** Every file of a tree placed below `base` has a path that extends `base`. */
  lemma TreeFilesUnder(src: Node, dir: Path, base: Path)
    ensures forall q :: q in TreeFiles(src, dir, base) ==> |q| > |base| && q[..|base|] == base
  {
    match Lookup(src, dir)
    case Some(Dir(es)) => FilesOfUnder(es, base, 0);
    case _ =>
  }

  /** The languages run in the order `en`, then `pt`; an error in `en` stops the loop. */
  lemma LangsInOrder(st: Out, src: Node, shared: Partials)
    ensures var r0 := BuildLangRun(st, src, "en", shared);
      LangsFrom(st, src, shared, 0) == if r0.err.Some? then r0 else BuildLangRun(r0.out, src, "pt", shared)
  {
    var r0 := BuildLangRun(st, src, "en", shared);
    if r0.err.None? {
      var r1 := BuildLangRun(r0.out, src, "pt", shared);
      assert LangsFrom(r0.out, src, shared, 1) == (if r1.err.Some? then r1 else LangsFrom(r1.out, src, shared, 2));
    }
  }

  /** A successful copy of what exists at `dir` adds exactly its files below `dest`. */
  lemma CopyDirMirrors(st: Out, src: Node, dir: Path, dest: Path)
    requires CopyDirRun(st, Lookup(src, dir), dir, dest).err.None?
    ensures CopyDirRun(st, Lookup(src, dir), dir, dest).out.files == st.files + TreeFiles(src, dir, dest)
  {
    match Lookup(src, dir)
    case None =>
    case Some(n) => CopyMirrors(EnsureDirOut(st, dest), n.entries, dir, dest, 0);
  }

  /** `main` with the shared partials loaded: both languages, then the assets. */
  lemma MainSteps(src: Node)
    requires MainRun(src).err.None?
    ensures LoadSharedPartials(src).Success?
    ensures var shared := LoadSharedPartials(src).value;
      var r0 := BuildLangRun(Empty, src, "en", shared);
      var r1 := BuildLangRun(r0.out, src, "pt", shared);
      && r0.err.None? && r1.err.None?
      && MainRun(src) == CopyDirRun(r1.out, Lookup(src, SharedAssetsDir), SharedAssetsDir, AssetsOut)
  {
    LangsInOrder(Empty, src, LoadSharedPartials(src).value);
  }

  /** The final output holds exactly the two language trees and the shared assets. */
  lemma MainOutputIsExact(src: Node)
    requires MainRun(src).err.None?
    ensures MainRun(src).out.files.Keys ==
      TreeFiles(src, ["en"], ["en"]).Keys + TreeFiles(src, ["pt"], ["pt"]).Keys
      + TreeFiles(src, SharedAssetsDir, AssetsOut).Keys
  {
    MainSteps(src);
    var shared := LoadSharedPartials(src).value;
    var r0 := BuildLangRun(Empty, src, "en", shared);
    BuildLangMirrors(Empty, src, "en", shared);
    BuildLangMirrors(r0.out, src, "pt", shared);
    CopyDirMirrors(BuildLangRun(r0.out, src, "pt", shared).out, src, SharedAssetsDir, AssetsOut);
  }

  /** The partials a language's pages are rendered with: its own over the shared ones. */
  function PartialsFor(src: Node, lang: string): Partials {
    match LoadSharedPartials(src)
    case Failure(_) => map[]
    case Success(shared) =>
      match LoadLangPartials(src, lang)
      case Failure(_) => shared
      case Success(own) => Merge(shared, own)
  }

  /**
   * After a successful build every regular file of `src/<lang>` sits at the same
   * path in `dist`, holding what `Emit` makes of it with that language's partials.
   */
  lemma MainWritesPages(src: Node, lang: string)
    requires lang == "en" || lang == "pt"
    requires MainRun(src).err.None?
    ensures var f := TreeFiles(src, [lang], [lang]);
      forall q :: q in f ==>
        q in MainRun(src).out.files &&
        Emit(Last(q), f[q], lang, PartialsFor(src, lang)) == Success(MainRun(src).out.files[q])
  {
    MainSteps(src);
    var shared := LoadSharedPartials(src).value;
    var r0 := BuildLangRun(Empty, src, "en", shared);
    var r1 := BuildLangRun(r0.out, src, "pt", shared);
    BuildLangMirrors(Empty, src, "en", shared);
    BuildLangMirrors(r0.out, src, "pt", shared);
    CopyDirMirrors(r1.out, src, SharedAssetsDir, AssetsOut);
    TreeFilesUnder(src, ["en"], ["en"]);
    TreeFilesUnder(src, ["pt"], ["pt"]);
    TreeFilesUnder(src, SharedAssetsDir, AssetsOut);
    var f := TreeFiles(src, [lang], [lang]);
    forall q | q in f
      ensures q in MainRun(src).out.files
      ensures Emit(Last(q), f[q], lang, PartialsFor(src, lang)) == Success(MainRun(src).out.files[q])
    {
      assert q[..1] == [lang];
      assert q !in TreeFiles(src, SharedAssetsDir, AssetsOut) by {
        assert q[0] != AssetsOut[0];
      }
      if lang == "en" {
        assert q !in TreeFiles(src, ["pt"], ["pt"]) by {
          assert q[0] == "en";
        }
      }
    }
  }

  /** After a successful build every shared asset is in `dist/assets`, byte for byte. */
  lemma MainCopiesAssets(src: Node)
    requires MainRun(src).err.None?
    ensures var f := TreeFiles(src, SharedAssetsDir, AssetsOut);
      forall q :: q in f ==> q in MainRun(src).out.files && MainRun(src).out.files[q] == f[q]
  {
    MainSteps(src);
    var shared := LoadSharedPartials(src).value;
    var r0 := BuildLangRun(Empty, src, "en", shared);
    CopyDirMirrors(BuildLangRun(r0.out, src, "pt", shared).out, src, SharedAssetsDir, AssetsOut);
  }
}
