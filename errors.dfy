/** The fatal errors of the build and the messages the build script gives them. */
module Errors {

  /** A path as its segments, relative to the source root or to the output root. */
  type Path = seq<string>

  datatype BuildError =
    | MissingSharedPartials(dir: Path)          // the shared partials folder does not exist
    | MissingLangPartials(lang: string, dir: Path)  // a language's partials folder does not exist
    | NotADirectory(path: Path)                 // a directory was expected, something else exists
    | IsADirectory(path: Path)                  // a file was expected, a directory exists
    | Unreadable(path: Path)                    // neither a file nor a directory
    | PartialNotFound(name: string)             // a token names no (or an empty) partial

  /** `path.join(root, ...segments)` for plain segments. */
  function JoinPath(root: string, p: Path): (r: string)
    ensures p == [] ==> r == root
    decreases |p|
  {
    if p == [] then root else JoinPath(root, p[..|p| - 1]) + "/" + p[|p| - 1]
  }

  /**
   * The text of the errors the build script raises itself, given the absolute
   * path of the source root (file-system errors carry Node.js's own messages).
   */
  function Message(e: BuildError, srcRoot: string): string
    requires e.MissingSharedPartials? || e.MissingLangPartials? || e.PartialNotFound?
  {
    match e
    case MissingSharedPartials(dir) => "Shared partials folder not found: " + JoinPath(srcRoot, dir)
    case MissingLangPartials(lang, dir) =>
      "Missing partials folder for lang=\"" + lang + "\". Expected: " + JoinPath(srcRoot, dir)
    case PartialNotFound(name) => "Partial not found: " + name
  }
}
