/**
 * The build as the script runs it: one `dist` directory changed in place, step
 * by step. Every method is proved to leave `dist` as the matching function of
 * module `Build` says, which is where the build's properties are proved.
 */
module Site {
  import opened Wrappers
  import opened Text
  import opened Errors
  import opened Templates
  import opened SourceTree
  import opened Build

  /** The output directory: the files written to it and the directories created in it. */
  class Dist {
    var files: map<Path, string>
    var dirs: set<Path>

    function State(): Out
      reads this
    {
      Out(files, dirs)
    }

    /** `dist` as an earlier build may have left it. */
    constructor (files0: map<Path, string>, dirs0: set<Path>)
      ensures State() == Out(files0, dirs0)
    {
      files := files0;
      dirs := dirs0;
    }

    /** `ensureDir(dir)`: the directory and every parent of it exist afterwards. */
    method EnsureDir(p: Path)
      modifies this
      ensures State() == EnsureDirOut(old(State()), p)
    {
      dirs := dirs + set k | 0 <= k <= |p| :: p[..k];
    }

    /** `writeFileSync` / `copyFileSync` to `p`, replacing what was there. */
    method Write(p: Path, content: string)
      modifies this
      ensures State() == WriteOut(old(State()), p, content)
    {
      files := files[p := content];
    }

    /** `cleanDist()`: whatever was in `dist` is removed, then `dist` is created empty. */
    method CleanDist()
      modifies this
      ensures State() == Empty
    {
      files := map[];
      dirs := {};
      EnsureDir([]);
      EnsureDirCreatesAncestors(Out(map[], {}), []);
      assert dirs == {[]};
    }

    /** `walk(dir)` over the listing `es` of source directory `path`. */
    method Walk(es: seq<Entry>, path: Path, lang: string, p: Partials) returns (err: Option<BuildError>)
      modifies this
      ensures Run(State(), err) == WalkFrom(old(State()), es, path, 0, lang, p)
      decreases es
    {
      var i := 0;
      while i < |es|
        invariant 0 <= i <= |es|
        invariant WalkFrom(State(), es, path, i, lang, p) == WalkFrom(old(State()), es, path, 0, lang, p)
      {
        var e := es[i];
        var full := path + [e.name];
        match e.node {
          case Dir(cs) =>
            err := Walk(cs, full, lang, p);
            if err.Some? {
              return;
            }
          case Special =>
          case File(raw) =>
            EnsureDir(path);
            if EndsWith(e.name, HtmlExt) {
              var rendered := Render(raw, p);
              if rendered.Failure? {
                return Some(rendered.error);
              }
              if LooksLikeFullHtml(raw) {
                Write(full, rendered.value);
              } else {
                var wrapped := Wrap(lang, rendered.value, p);
                if wrapped.Failure? {
                  return Some(wrapped.error);
                }
                Write(full, wrapped.value);
              }
            } else {
              Write(full, raw);
            }
        }
        i := i + 1;
      }
      return None;
    }

    /** `copyDir(srcDir, destDir)`, given what exists at `srcDir`. */
    method CopyDir(src: Option<Node>, srcPath: Path, dest: Path) returns (err: Option<BuildError>)
      modifies this
      ensures Run(State(), err) == CopyDirRun(old(State()), src, srcPath, dest)
      decreases if src.Some? then src.value else Special, 1
    {
      if src.None? {
        return None;
      }
      EnsureDir(dest);
      match src.value {
        case Dir(es) =>
          err := CopyListing(es, srcPath, dest);
        case _ =>
          err := Some(NotADirectory(srcPath));
      }
    }

    /** The loop of `copyDir` over the listing `es`; a sub-directory is copied recursively. */
    method CopyListing(es: seq<Entry>, srcPath: Path, dest: Path) returns (err: Option<BuildError>)
      modifies this
      ensures Run(State(), err) == CopyFrom(old(State()), es, srcPath, dest, 0)
      decreases Dir(es), 0
    {
      var i := 0;
      while i < |es|
        invariant 0 <= i <= |es|
        invariant CopyFrom(State(), es, srcPath, dest, i) == CopyFrom(old(State()), es, srcPath, dest, 0)
      {
        var e := es[i];
        match e.node {
          case Dir(cs) =>
            err := CopyDir(Some(e.node), srcPath + [e.name], dest + [e.name]);
            if err.Some? {
              return;
            }
          case File(c) =>
            Write(dest + [e.name], c);
          case Special =>
            return Some(Unreadable(srcPath + [e.name]));
        }
        i := i + 1;
      }
      return None;
    }

    /** `buildHtmlUnderLang(lang, shared)`. */
    method BuildLang(src: Node, lang: string, shared: Partials) returns (err: Option<BuildError>)
      modifies this
      ensures Run(State(), err) == BuildLangRun(old(State()), src, lang, shared)
    {
      var langSrc := Lookup(src, [lang]);
      if langSrc.None? {
        return None;
      }
      var own := LoadPartialsAt(src, LangPartialsDir(lang), MissingLangPartials(lang, LangPartialsDir(lang)));
      if own.Failure? {
        return Some(own.error);
      }
      var partials := Merge(shared, own.value);
      match langSrc.value {
        case Dir(es) =>
          err := Walk(es, [lang], lang, partials);
        case _ =>
          err := Some(NotADirectory([lang]));
      }
    }

    /** `main()`: clean, load the shared partials, build `en` then `pt`, copy the assets. */
    method BuildSite(src: Node) returns (err: Option<BuildError>)
      modifies this
      ensures Run(State(), err) == MainRun(src)
    {
      CleanDist();
      var shared := LoadPartialsAt(src, SharedPartialsDir, MissingSharedPartials(SharedPartialsDir));
      if shared.Failure? {
        return Some(shared.error);
      }
      var i := 0;
      while i < |Langs|
        invariant 0 <= i <= |Langs|
        invariant LangsFrom(State(), src, shared.value, i) == LangsFrom(Empty, src, shared.value, 0)
      {
        err := BuildLang(src, Langs[i], shared.value);
        if err.Some? {
          return;
        }
        i := i + 1;
      }
      err := CopyDir(Lookup(src, SharedAssetsDir), SharedAssetsDir, AssetsOut);
    }
  }
}
