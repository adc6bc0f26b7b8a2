# discretemathsforengineers.com — a Dafny model of the site build and its page scripts

The site is a small static-site generator plus a few browser scripts.

**The build, `scripts/build.js`.** It empties `dist`, reads the shared and the per-language HTML partials, and mirrors each language's source tree (`src/en`, `src/pt`) into `dist`. Every regular file is handled one of three ways:

- a non-HTML file is copied unchanged;
- a full HTML document has its `{{> name}}` tokens replaced by partials;
- an HTML fragment is rendered, then wrapped in a fixed page skeleton that is rendered once more.

Last, the build copies `src/shared/assets` to `dist/assets`.

**The page scripts.**

- `app` builds the language-toggle links: the same page in the other language.
- `lang-toggle` translates the `[data-i18n]` texts.
- `series-nav` enables and disables a series' previous and next buttons.
- Two versions of the sidebar accordion keep one menu open and remember it.

**The model.**

- The source tree is an in-memory value: `SourceTree.Node` is a file, a directory with an ordered listing, or something else.
- The output is a map from path to content plus the set of created directories (`Build.Out`).
- Every operation is a function from the state before it to the state after it, and to the error that stopped it. Writes made before an error are kept, as the script keeps them.
- The class `Site.Dist` runs the same steps in place. Each method is proved to leave `dist` as its function in `Build` says.
- The page scripts are, per file:
  - a class holding the page state they change (`Accordion.Page`, `AccordionLegacy.Page`);
  - or methods over arrays of elements (`LangLinks.SetActiveLang`, `LangToggle.ApplyI18n`, `SeriesNav.Init`).
- The rules behind them are functions with their properties proved as lemmas.

Modules:

- `Wrappers` holds `Option` and `Result`.
- `Text` holds ASCII `trim`, `toLowerCase`, `startsWith`, `endsWith` and first-occurrence `replace`.
- `Errors` holds the build's fatal errors.
- `Templates`: the classifier, the overlay, the renderer and the skeleton.
- `SourceTree`: the tree and the two loaders.
- `Build` (functions) and `Site` (the in-place build).
- `LangLinks` is `app`.
- `LangToggle`, `SeriesNav`, `Accordion` (2026-02-12) and `AccordionLegacy` (2026-02-05).

Decisions the proofs make visible:

- **The renderer is single-pass and aborts.** The first token whose partial is missing or empty aborts the whole page with `Partial not found: <name>`. The text of an inserted partial is never scanned again.
- **The classifier looks only at leading whitespace.** Trimming the end of the page never changes its class, so any non-space text before the `<!doctype html` or `<html` marker (a comment, say) makes the page a fragment.
- **The loaders key on the first `.html`.** They remove the first `.html` of the name, wherever it is: `a.html.html` is stored as `a.html`. When two entries give the same key, the later one wins.
- **The two scripts pick different language segments.** The translator takes the FIRST `/en` or `/pt` segment of the path, and the toggle-link code takes the LAST `/en/` or `/pt/` segment. So on `/en/pt/` they disagree (`LangToggle.DetectAndSplitDisagree`).
- **The walk also renders the partials folder.** It renders `src/<lang>/partials/*.html` as pages, since nothing in `walk` skips that folder.
- **No root redirect is written.** `main` writes no root redirect (scripts/build.js:168-180), and the model follows the code.

## Model

| member | source | states |
|---|---|---|
| Errors.Message | scripts/build.js:47-89 | Definition: the three texts the script throws itself. They are `Shared partials folder not found: <dir>` (line 49), `Missing partials folder for lang="<lang>". Expected: <dir>` (lines 66-68) and `Partial not found: <name>` (line 85). |
| Templates.LooksLikeFullHtml | scripts/build.js:40-43 | Definition: the trimmed, lower-cased text starts with `<!doctype html` or `<html`. Its properties are the lemmas below. |
| Templates.FullHtmlIffMarkerAfterLeadingSpace | scripts/build.js:40-43 | A page counts as full HTML iff, after its leading whitespace and lower-casing, it starts with `<!doctype html` or `<html`. Trimming the end never matters. |
| Templates.MarkerSurvivesTrimEnd | scripts/build.js:41-42 | A marker ending in a non-space character is a prefix of the end-trimmed text iff it is a prefix of the untrimmed text. |
| Templates.LeadingSpaceAndCaseIgnored | scripts/build.js:40-43 | Any whitespace, then a marker in any letter case, then anything: the page is full HTML. |
| Templates.LeadingCommentIsFragment | scripts/build.js:40-43 | A page whose first non-space text is `<!--` is a fragment, even when a doctype follows. |
| Templates.Merge | scripts/build.js:120-125 | The merged store has exactly the names of both maps. A language partial wins over a shared one of the same name. A shared-only name keeps its shared content. |
| Templates.OverlayExample | scripts/build.js:120-125 | With a language `head`, pages get it; without one, they get the shared `head`. |
| Templates.EmptyOverrideFails | scripts/build.js:84-86 | An empty language partial shadows a non-empty shared one, and rendering then fails naming it. |
| Templates.MatchAt | scripts/build.js:83 | A match starts with `{{>`, ends with `}`, is at least six characters long and lies within the text. Its name is a non-empty run of letters, digits, `-` and `_`. |
| Templates.MatchAtShape | scripts/build.js:83 | Conversely, a match covers exactly `{{>`, whitespace, the matched name, whitespace and `}}`. |
| Templates.TokenMatch | scripts/build.js:83 | `{{>` + whitespace + name + whitespace + `}}` matches with exactly that name and length, whatever follows. |
| Templates.MatchExtend | scripts/build.js:83 | A match does not depend on the text after it. |
| Templates.MatchRestrict | scripts/build.js:83 | A match that ends within a prefix is a match of that prefix. |
| Templates.NoTokenInside | scripts/build.js:83 | No token starts strictly inside another, so tokens never overlap. |
| Templates.Render | scripts/build.js:82-89 | Rendering fails only with `PartialNotFound`, naming a partial that is missing or empty. |
| Templates.RenderNoTokens | scripts/build.js:82-89 | Text in which no token starts anywhere comes back unchanged. |
| Templates.RenderToken | scripts/build.js:82-89 | A token is replaced verbatim by its partial, and rendering continues after the token without rescanning the inserted text. A missing or empty partial fails with `PartialNotFound(name)`. |
| Templates.RenderLoneToken | scripts/build.js:82-89 | A text that is a single token renders to its partial, or fails naming it. |
| Templates.SinglePassExample | scripts/build.js:82-89 | A partial whose text is itself a token is inserted as is, even when that token would not resolve. |
| Templates.RenderSuccessResolvesAll | scripts/build.js:82-89 | A successful rendering implies that no unresolved token starts anywhere in the text. |
| Templates.RenderFailureIsLeftmost | scripts/build.js:84-86 | A failed rendering names the leftmost unresolved token. |
| Templates.RenderFailsIff | scripts/build.js:82-89 | Rendering fails iff some token is unresolved. The error then names the leftmost one. |
| Templates.RenderPlainPrefix | scripts/build.js:82-89 | Literal text without `{` is copied through, and the rest renders on its own. |
| Templates.RenderPlainSuffix | scripts/build.js:82-89 | Literal text without braces at the end is appended unchanged. |
| Templates.SlotsAreTokens | scripts/build.js:98-103 | The skeleton's `{{> head}}`, `{{> header}}` and `{{> sidebar}}` are tokens with those names. |
| Templates.Wrap | scripts/build.js:91-110 | Wrapping fails only with `PartialNotFound`, naming a partial that is missing or empty. |
| Templates.WrapLayout | scripts/build.js:91-110 | The wrapped page contains, in order: `lang="pt-BR"` for `pt` (`en` otherwise), the title, the head, header and sidebar partials, the body rendered again, then the closing of the `app` div, body and html. A missing slot partial fails with the first such slot. |
| SourceTree.CollectFrom | scripts/build.js:71-75 | The loader loop fails only with `IsADirectory` or `Unreadable`. On success it keeps every key held before. |
| SourceTree.LoadFrom | scripts/build.js:47-78 | A missing folder fails with the loader's own error. A success means the folder is a directory. Any other failure is `NotADirectory` of the folder or a read error of an entry. |
| SourceTree.LoadSharedPartials | scripts/build.js:47-59 | A missing shared partials folder fails with `MissingSharedPartials`. |
| SourceTree.LoadLangPartials | scripts/build.js:61-78 | A missing language partials folder fails with `MissingLangPartials(lang, dir)`. |
| SourceTree.LoadPartialsAt | scripts/build.js:47-59 | The loader checks existence, then runs its loop, and equals the loader function. |
| SourceTree.LoadListing | scripts/build.js:53-57 | The `for` loop over a listing, proved equal to its specification: it skips non-`.html` names, stores file contents under their key, and stops at the first unreadable `.html` entry. |
| SourceTree.CollectFailsIff | scripts/build.js:71-75 | The loop fails iff some `.html` entry is not a regular file. The error is the first such entry's. |
| SourceTree.CollectKeys | scripts/build.js:71-75 | On success the keys are the keys held before plus one key per `.html` file entry. |
| SourceTree.CollectLastWins | scripts/build.js:73-74 | A key holds the content of the last entry giving it. |
| SourceTree.CollectKeepsAcc | scripts/build.js:71-75 | A key no later entry gives keeps its value. |
| SourceTree.LoadListingKeys | scripts/build.js:53-57 | A listing with no unreadable partial loads, with exactly the keys of its `.html` files. |
| SourceTree.KeyOf | scripts/build.js:55 | A name ending in `.html` loses exactly five characters. A name with no `.html` anywhere is its own key. |
| SourceTree.KeyOfRemovesFirstOnly | scripts/build.js:55 | `a.html.html` is stored as `a.html`: only the first `.html` is removed. |
| SourceTree.KeyOfPlainName | scripts/build.js:73 | A name with no dot before `.html` is keyed by the name without the extension. |
| Build.EnsureDirOut | scripts/build.js:16-18 | Creating a directory writes no file. |
| Build.EnsureDirCreatesAncestors | scripts/build.js:16-18 | Afterwards the directory and all its ancestors exist, and no other new directory does. |
| Build.Emit | scripts/build.js:142-159 | Only a `.html` file can fail, and only with `PartialNotFound`, naming a partial that is missing or empty. |
| Build.EmitCases | scripts/build.js:142-159 | A non-`.html` file is copied unchanged. A full HTML page is rendered. A fragment succeeds iff it renders and its wrapping renders, and then it is the wrapped text. |
| Build.WalkFrom | scripts/build.js:127-161 | The walk fails only with `PartialNotFound` of an unresolved name. It never removes a file or directory from `dist`. |
| Build.WalkFailsIff | scripts/build.js:127-161 | The walk fails iff some regular file in the listing or below it cannot be emitted. |
| Build.FilesOfUnder | scripts/build.js:127-161 | Every file found below a directory has a path extending that directory's path. |
| Build.MirroredCompose | scripts/build.js:127-161 | Two mirroring steps in a row mirror the union of their files, and the later step wins. |
| Build.WalkMirrors | scripts/build.js:127-161 | A successful walk writes every regular file below the directory to the same relative path in `dist`, with what `Emit` makes of it. No other file changes. |
| Build.CopyDirRun | scripts/build.js:27-38 | A missing source directory changes nothing. |
| Build.CopyFrom | scripts/build.js:31-37 | The copy loop fails only with `Unreadable`. It never removes a file or directory from `dist`. |
| Build.CopyFailsIff | scripts/build.js:31-37 | The copy loop fails iff some entry in the listing or below it is neither a file nor a directory. |
| Build.CopyDirFailsIff | scripts/build.js:27-38 | `copyDir` fails iff its source exists and either is not a directory or holds such an entry. |
| Build.CopyMirrors | scripts/build.js:31-37 | A successful copy of a listing adds exactly its regular files below the destination, byte for byte. |
| Build.CopyDirMirrors | scripts/build.js:27-38 | A successful `copyDir` adds exactly the source tree's files below the destination. |
| Build.BuildLangRun | scripts/build.js:114-125 | A language without a source directory is skipped with no effect. One without a partials folder fails with `MissingLangPartials` before anything is written. No step removes an output file. |
| Build.BuildLangFailsIff | scripts/build.js:114-164 | A language step fails iff its source directory exists and one of these holds: its partials do not load, it is not a directory, or some file below it cannot be emitted with the overlaid partials. |
| Build.BuildLangMirrors | scripts/build.js:114-164 | A successful language step mirrors that language's tree with the overlaid partials, and nothing else. |
| Build.TreeFilesUnder | scripts/build.js:138-139 | Every mirrored path lies below the directory it was placed under. |
| Build.MainRun | scripts/build.js:168-180 | A failure to load the shared partials leaves `dist` empty and reports that error. |
| Build.LangsFrom | scripts/build.js:173-175 | The language loop never removes an output file. |
| Build.LangsInOrder | scripts/build.js:173-175 | `en` runs before `pt`, and an error in `en` stops the loop. |
| Build.MainFailsIff | scripts/build.js:168-180 | `main` fails iff one of these holds: the shared partials do not load, `en` fails, `pt` fails, or the shared assets cannot be copied. |
| Build.MainSteps | scripts/build.js:168-180 | A successful build loads the shared partials, builds `en`, then `pt`, then copies the assets into `dist/assets`. |
| Build.MainOutputIsExact | scripts/build.js:168-180 | After a successful build, `dist` holds exactly the files of the two language trees and of the shared assets. |
| Build.MainWritesPages | scripts/build.js:138-159 | After a successful build, every regular file of `src/<lang>` is at the same path in `dist`, with what `Emit` makes of it with that language's partials. |
| Build.MainCopiesAssets | scripts/build.js:177 | After a successful build, every shared asset is in `dist/assets` unchanged. |
| Site.Dist.EnsureDir | scripts/build.js:16-18 | `ensureDir` changes `dist` as `EnsureDirOut` says. |
| Site.Dist.Write | scripts/build.js:147 | A write replaces the one file at that path. |
| Site.Dist.CleanDist | scripts/build.js:20-25 | Afterwards `dist` is an empty directory, whatever was there. |
| Site.Dist.Walk | scripts/build.js:127-161 | The in-place walk leaves `dist`, and returns the error, exactly as `WalkFrom` says. |
| Site.Dist.CopyDir | scripts/build.js:27-38 | The in-place `copyDir` matches `CopyDirRun`. |
| Site.Dist.CopyListing | scripts/build.js:31-37 | The loop of `copyDir` matches `CopyFrom`. |
| Site.Dist.BuildLang | scripts/build.js:114-164 | The in-place `buildHtmlUnderLang` matches `BuildLangRun`. |
| Site.Dist.BuildSite | scripts/build.js:168-180 | The in-place `main` matches `MainRun`. |
| LangLinks.NormPath | src/shared/assets/js/app-20260205-1.js:8-10 | A missing path is empty. Every backslash becomes `/` and every other character is kept. |
| LangLinks.NormPathIdempotent | src/shared/assets/js/app-20260205-1.js:8-10 | Normalising twice is normalising once. |
| LangLinks.LastSegmentBefore | src/shared/assets/js/app-20260205-1.js:14 | The last language segment before a position, or none. |
| LangLinks.SplitByLangSegment | src/shared/assets/js/app-20260205-1.js:12-21 | No match iff the path has no `/en/` or `/pt/` segment (any case) or holds a line terminator. Otherwise the split is at the LAST segment, the prefix and suffix are what is around it, and the language is lower-cased. |
| LangLinks.SplitReassembles | src/shared/assets/js/app-20260205-1.js:14-20 | Prefix + `/` + code + `/` + suffix is the normalised path, and the code lower-cased is the language. |
| LangLinks.LangFromHtml | src/shared/assets/js/app-20260205-1.js:23-28 | `pt` iff the lower-cased `lang` attribute starts with `pt`, and `en` otherwise. |
| LangLinks.GetSitePrefixAndLang | src/shared/assets/js/app-20260205-1.js:30-35 | The language is `en` or `pt`. Without a segment, prefix and suffix are empty and the language is the document's. |
| LangLinks.Collapse | src/shared/assets/js/app-20260205-1.js:39 | Collapsing never lengthens the string and keeps its first character. |
| LangLinks.CollapseHasNoDoubleSlash | src/shared/assets/js/app-20260205-1.js:39 | The result never has two slashes in a row. |
| LangLinks.CollapseKeepsClean | src/shared/assets/js/app-20260205-1.js:41 | A string without a double slash is left alone. |
| LangLinks.CollapseAbsorbs | src/shared/assets/js/app-20260205-1.js:39-41 | Collapsing a prefix first changes nothing once the whole is collapsed. |
| LangLinks.JoinUrl | src/shared/assets/js/app-20260205-1.js:37-42 | Definition: `prefix/lang` with slash runs collapsed, then `/rel` when `rel` is non-empty, collapsed again. Its properties are the two lemmas below. |
| LangLinks.JoinUrlCollapsesOnce | src/shared/assets/js/app-20260205-1.js:37-42 | `joinUrl` is `prefix/lang`, plus `/rel` when `rel` is non-empty, with every run of slashes collapsed once. The result has no double slash. |
| LangLinks.JoinUrlOfSegments | src/shared/assets/js/app-20260205-1.js:37-42 | Clean segments join as `/lang/rel`. |
| LangLinks.EnPageMatches | src/shared/assets/js/app-20260205-1.js:48-49 | `pages/graphs/foundations/part-<n>.html` matches the English pattern with capture `n`. It does not match the Portuguese one, and it is not `index.html`. |
| LangLinks.PtPageMatches | src/shared/assets/js/app-20260205-1.js:48-49 | The same for `pages/grafos/fundamentos/parte-<n>.html`. |
| LangLinks.PrefixesAreLowerCase | src/shared/assets/js/app-20260205-1.js:48-49 | The pattern texts are already lower case. |
| LangLinks.FoundationsRoundTrip | src/shared/assets/js/app-20260205-1.js:53-67 | Part `n` maps to part `n` of the other series for the other language, and is kept for its own. Both round trips give the suffix back. |
| LangLinks.MapSuffixToOtherLang | src/shared/assets/js/app-20260205-1.js:44-70 | Definition: `index.html` for an empty or index suffix, the other series' page with the same number for a page of one series, the suffix itself when the target is its own language, and `index.html` otherwise. Its properties are the lemmas below. |
| LangLinks.MapSuffixResult | src/shared/assets/js/app-20260205-1.js:51-69 | The result is `index.html` or a page of one of the series. A suffix matching neither pattern, including the empty one, gives `index.html`. |
| LangLinks.SetActiveLang | src/shared/assets/js/app-20260205-1.js:72-76 | An element is `active` iff its `data-lang` equals the language. Its other classes and attributes are kept. |
| LangLinks.FirstWithLang | src/shared/assets/js/app-20260205-1.js:81-82 | The first button with the given `data-lang`, or none. |
| LangLinks.FindButton | src/shared/assets/js/app-20260205-1.js:81-82 | The search loop finds the first button with that `data-lang`, or reports that none has it. |
| LangLinks.SetToggleHrefs | src/shared/assets/js/app-20260205-1.js:84-85 | Only the first `en` button and the first `pt` button get their `href`. Nothing else changes. |
| LangLinks.ApplyLangToggleLinks | src/shared/assets/js/app-20260205-1.js:78-86 | Each first button gets `joinUrl(prefix, L, mapSuffixToOtherLang(suffix, L))`. Nothing else changes. |
| LangLinks.TogglesWithoutSegment | src/shared/assets/js/app-20260205-1.js:30-35 | Off both language trees, the toggles lead to `/en/index.html` and `/pt/index.html`. |
| LangToggle.DictionariesAgree | src/shared/assets/js/lang-toggle-20260205-1.js:2-19 | Both dictionaries define the same five keys, none with an empty text. |
| LangToggle.Table | src/shared/assets/js/lang-toggle-20260205-1.js:27 | Any language other than `pt` uses the English dictionary. |
| LangToggle.FirstLangFrom | src/shared/assets/js/lang-toggle-20260205-1.js:22 | The first `/en` or `/pt` (any case) followed by `/` or by the end, or none. |
| LangToggle.DetectLang | src/shared/assets/js/lang-toggle-20260205-1.js:21-24 | Always `en` or `pt`. `en` when nothing matches. Otherwise the FIRST match, lower-cased. |
| LangToggle.EnglishWordIsNoSegment | src/shared/assets/js/lang-toggle-20260205-1.js:22 | `/english/x` and `/pt-english` read as `en`. |
| LangToggle.FirstSegmentWins | src/shared/assets/js/lang-toggle-20260205-1.js:22-23 | `/PT/x/en/y` reads as `pt`. |
| LangToggle.DetectAndSplitDisagree | src/shared/assets/js/lang-toggle-20260205-1.js:22-23 | On `/en/pt/` the translator says `en` and the toggle-link code says `pt`. |
| LangToggle.Translate | src/shared/assets/js/lang-toggle-20260205-1.js:29-30 | An element changes only when its key has a non-empty translation, and then takes that text. |
| LangToggle.Translated | src/shared/assets/js/lang-toggle-20260205-1.js:28-31 | Every element is translated with the table for the language. |
| LangToggle.TranslateIdempotent | src/shared/assets/js/lang-toggle-20260205-1.js:30 | Translating an element twice is translating it once. |
| LangToggle.TranslatedIdempotent | src/shared/assets/js/lang-toggle-20260205-1.js:46-50 | Re-running the translation on `pageshow` leaves the page as the first run did. |
| LangToggle.ApplyI18n | src/shared/assets/js/lang-toggle-20260205-1.js:26-32 | The loop leaves the elements as `Translated` says. |
| LangToggle.OnPageLoad | src/shared/assets/js/lang-toggle-20260205-1.js:39-43 | The load handler translates with the detected language. |
| SeriesNav.SetDisabled | src/shared/assets/js/series-nav-20260205-1.js:2-15 | A missing link stays missing. Disabling sets `aria-disabled="true"`, `tabindex="-1"` and `is-disabled`. Enabling removes all three. No other attribute or class of the link changes. |
| SeriesNav.SetDisabledIdempotent | src/shared/assets/js/series-nav-20260205-1.js:5-14 | Setting the same state twice is setting it once. |
| SeriesNav.EnableUndoesDisable | src/shared/assets/js/series-nav-20260205-1.js:5-14 | Enabling a disabled link that had none of the marks restores its attributes and classes. |
| SeriesNav.FirstActive | src/shared/assets/js/series-nav-20260205-1.js:21-22 | The first active pill, or none. |
| SeriesNav.InferFromPills | src/shared/assets/js/series-nav-20260205-1.js:17-26 | None iff there are no pills. Otherwise the total is the pill count and the current position is one past the first active pill, or 1 when none is active. |
| SeriesNav.Settle | src/shared/assets/js/series-nav-20260205-1.js:34-45 | The attributes win when both are non-zero. Otherwise the pills decide. A zero that survives leaves the buttons alone. |
| SeriesNav.InitBar | src/shared/assets/js/series-nav-20260205-1.js:30-49 | The numbers and pills are kept. An unsettled bar is unchanged. |
| SeriesNav.InitBarButtons | src/shared/assets/js/series-nav-20260205-1.js:47-48 | Previous is disabled iff current <= 1. Next is disabled iff current >= total. Missing buttons stay missing. |
| SeriesNav.PillsDecide | src/shared/assets/js/series-nav-20260205-1.js:37-48 | Without attributes, the first active pill's position decides: first means no previous, last means no next. |
| SeriesNav.NoPillsNoChange | src/shared/assets/js/series-nav-20260205-1.js:37-45 | Without numbers and without pills, the bar is untouched. |
| SeriesNav.Init | src/shared/assets/js/series-nav-20260205-1.js:28-50 | `init` changes every bar as `InitBar` says. |
| Accordion.NormPath | src/shared/assets/js/accordion-20260212-1.js:7-9 | A missing path is empty. At most one trailing `/` is removed. |
| Accordion.NormPathDropsOneSlash | src/shared/assets/js/accordion-20260212-1.js:8 | `a//` becomes `a/`, not `a`. |
| Accordion.TrailingSlashIgnored | src/shared/assets/js/accordion-20260212-1.js:7-9 | `p` and `p/` normalise alike. |
| Accordion.ClosedOthers | src/shared/assets/js/accordion-20260212-1.js:15-19 | Every menu other than the given one is closed. The given one is unchanged, and names and links are kept. |
| Accordion.ClosedOthersIdempotent | src/shared/assets/js/accordion-20260212-1.js:15-19 | Closing the others twice is closing them once. |
| Accordion.FirstMatchFrom | src/shared/assets/js/accordion-20260212-1.js:32-42 | The first menu with a submenu link to the current path, or none. |
| Accordion.FirstNamedFrom | src/shared/assets/js/accordion-20260212-1.js:45-47 | The first menu whose `data-menu` is the saved name, or none. |
| Accordion.Saved | src/shared/assets/js/accordion-20260212-1.js:44 | The stored value under `nav.activeMenu`, if any. |
| Accordion.Choose | src/shared/assets/js/accordion-20260212-1.js:29-49 | The chosen menu is the first one linking to the current page. Failing that, it is the first one named as a non-empty saved value, and there is such a menu iff one has that name. Failing that, there is none. |
| Accordion.Restored | src/shared/assets/js/accordion-20260212-1.js:21-55 | `restoreOpenState` keeps the number of menus. |
| Accordion.RestoreOpensChosen | src/shared/assets/js/accordion-20260212-1.js:51-54 | The chosen menu is then the only open one. Names and links are kept. |
| Accordion.RestoreWithoutChoice | src/shared/assets/js/accordion-20260212-1.js:49-54 | Without a choice, no menu changes. |
| Accordion.CurrentPageBeatsSaved | src/shared/assets/js/accordion-20260212-1.js:29-54 | The menu linking to the current page is opened, whatever is saved, and every other menu is closed. |
| Accordion.SamePageGuard | src/shared/assets/js/accordion-20260212-1.js:92-112 | Definition: the conjunction of the guard's conditions, one per early return of the listener. `PreventsDefault` is proved equal to it. |
| Accordion.PreventsDefault | src/shared/assets/js/accordion-20260212-1.js:89-142 | Default is prevented iff all hold: a link exists, it is not `_blank`, no modifier is held, `href` is non-empty and starts with none of `#`, `mailto:` or `tel:`, it is same-origin, the normalised paths and the searches are equal, and the hash is empty or the current one. |
| Accordion.OtherHashNavigates | src/shared/assets/js/accordion-20260212-1.js:109 | A link to another hash of the same page is followed. |
| Accordion.PlainLinkToSelfIsStopped | src/shared/assets/js/accordion-20260212-1.js:102-111 | A plain press on a link to the current page, with a trailing slash added, is stopped. |
| Accordion.Page.CloseOthers | src/shared/assets/js/accordion-20260212-1.js:15-19 | The loop leaves the menus as `ClosedOthers` says, and the rest of the page as it was. |
| Accordion.Page.FindMatched | src/shared/assets/js/accordion-20260212-1.js:32-42 | The nested search with `break` finds `FirstMatchFrom`. |
| Accordion.Page.RestoreOpenState | src/shared/assets/js/accordion-20260212-1.js:21-55 | The menus become `Restored`. `nav-preload` is removed only when there are no menus, and nothing else changes. |
| Accordion.Page.OnToggle | src/shared/assets/js/accordion-20260212-1.js:61-75 | The listener acts only when a menu became open: it closes the others and saves that menu's name. Otherwise it changes nothing. |
| Accordion.Page.OnSubmenuPointerDown | src/shared/assets/js/accordion-20260212-1.js:77-87 | A press on a submenu link saves that menu's name, and nothing else changes. |
| Accordion.Page.InstallOnce | src/shared/assets/js/accordion-20260212-1.js:57-59 | The page becomes `InstallAll` of what it was. |
| Accordion.Page.Load | src/shared/assets/js/accordion-20260212-1.js:145-152 | The page becomes `AfterLoad` of what it was. |
| Accordion.InstallAll | src/shared/assets/js/accordion-20260212-1.js:57-143 | The flag ends up set. With the flag already set, nothing changes. Otherwise exactly the four listeners are added. |
| Accordion.AfterLoad | src/shared/assets/js/accordion-20260212-1.js:145-152 | Running the script sets the flag and changes no menu, storage or `nav-preload`. |
| Accordion.LoadTwiceInstallsOnce | src/shared/assets/js/accordion-20260212-1.js:57-59 | However often the script runs, each guarded listener is registered exactly once. |
| AccordionLegacy.AfterToggle | src/shared/assets/js/accordion-20260205-1.js:8-10 | Every captured menu other than the opened one is closed. Uncaptured menus and the opened one are unchanged. |
| AccordionLegacy.OneOpenCaptured | src/shared/assets/js/accordion-20260205-1.js:6-11 | Among the captured menus, the opened one alone is open afterwards. |
| AccordionLegacy.Page.Capture | src/shared/assets/js/accordion-20260205-1.js:3 | Every menu present at load, in order, is captured once. |
| AccordionLegacy.Page.OnToggle | src/shared/assets/js/accordion-20260205-1.js:6-11 | A toggle that leaves its menu closed changes nothing. Otherwise the menus become `AfterToggle`, whether or not they have `data-menu`. |

## Left out

**File system**

- File-system I/O is modelled as values:
  - the source tree is an input value;
  - directory listings keep whatever order the file system gives, taken as part of that input;
  - UTF-8 decoding and byte-level copying are not modelled; contents are strings.
- Symbolic links and other entries that are neither files nor directories become `Special`:
  - the walk skips them, as `isFile()` is false for a link (scripts/build.js:136);
  - the loaders and `copyDir` report `Unreadable` for them. Node would follow a link to a regular file and read it (scripts/build.js:56, 74) or copy it (scripts/build.js:36). Links are not modelled.
- Node.js's own error messages and absolute paths are not modelled. `Errors.Message` gives only the texts the script writes itself.
- A `dist` path that already exists as a file is not modelled, nor i/o failures of `mkdirSync`, `rmSync` or `writeFileSync`.
- `console.log` is not modelled: the build's completion message, and the accordion's two log lines.

**Strings and lookups**

- `trim`, `toLowerCase` and the regular-expression class `\s` are ASCII only. Unicode whitespace is not modelled, including the byte order mark U+FEFF that `trim()` strips, and neither is case folding.
- Lookups that reach `Object.prototype` are not modelled. A token named `constructor` would resolve to an inherited value in the script; in the model only loaded partials resolve.

**Browser**

- DOM events are not modelled:
  - dispatch, capture and passive options, and bubbling;
  - the `DOMContentLoaded` and `pageshow` timing;
  - the asynchronous `toggle` event that `toOpen.open = true` fires.
- Browser values are inputs:
  - URL parsing (`new URL`) and `closest` are taken as a given anchor and location;
  - `localStorage` is a map.
- In `series-nav`, `Number()` parsing is taken as an integer input, 0 standing for missing or not-a-number. Fractional values are not modelled.
- The click listener that `setDisabled` adds on every disable (series-nav-20260205-1.js:9) is not modelled. Enabling (series-nav-20260205-1.js:10-14) never removes it, so in the script a link once disabled keeps swallowing its clicks.
- `CSS.escape` in the accordion's saved-menu query is not modelled: names are compared exactly.
- The footer year (`new Date()`), in `app` and in `lang-toggle`, is not modelled.

**Weaker contracts**

- LangLinks.GetSitePrefixAndLang: its contract states the language range and the no-segment case. The case with a segment is the split itself, and `LangLinks.SplitByLangSegment` states it.
- SeriesNav.EnableUndoesDisable: the round trip covers only the three marks, `aria-disabled`, `tabindex` and `is-disabled`. The `preventDefault` click listener added at series-nav-20260205-1.js:9 stays on the re-enabled link. The script itself never re-enables a link: `init` calls `setDisabled` once per button on each page load.
- SeriesNav.SetDisabled: "no other attribute or class changes" is about the modelled marks. Disabling also adds a click listener, which `Link` does not hold.
- Accordion.Restored: its own contract states only that the number of menus is kept. What it opens is stated by `RestoreOpensChosen`, `RestoreWithoutChoice` and `CurrentPageBeatsSaved`.
