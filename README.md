# metalsmith-nunjucks in Dafny

A model of the Metalsmith plugin that renders pages through nunjucks
templates. It covers three parts of the plugin.

**The plugin (`layouts.dfy`, module `Layouts`).**
- It builds the layout registry from the layout files the glob patterns
  match (`getLayouts`). The registry is keyed by `layoutName` or the file's
  base name without extension. A `default-layout` alias is added.
- It selects the pages (`getPages`).
- It checks the configured default and static layout names
  (`validateLayouts`).
- It composes each page with its layout into the source text the engine
  receives (`addLayoutToFile`). That text is an `{% extends '…' %}`
  directive followed by the page's front-matter-free text.
- A page takes one of two render paths (`renderTemplate`). An ordinary page
  is rendered once (`renderFile`). A static page is rendered on its own, and
  its output then becomes `contents` for a render of the static layout
  (`renderStaticFile`).
- It renders every page in turn with an empty context. The first failure
  ends the loop, whether it is an engine error or a missing layout.
- Two helpers edit in place: one moves a file to a new key (`editFileName`),
  one rewrites a file's contents (`editFileContents`).

Glob matching (`multimatch`) is a parameter. It must return an ordered
subsequence of the keys it is given. The template engine (`renderString`) is
also a parameter: a function that renders a text in a context relative to a
directory, or fails with a message. File objects and the file map are classes,
because the source edits them in place and registry entries alias the very
same file objects.

**The template loader (`loader.dfy`, module `Loader`).** The `NodeLoader`
class holds the loader's search paths, its reporter, the `pathsToNames` map
and the `noCache` flag. `GetSource` looks a template name up in this order:
1. under each search path in turn;
2. then with Node's module resolution under `<cwd>/node_modules`;
3. then, in a Lerna monorepo, under `<cwd>/../../node_modules`.

A path found by a fallback step is reported to the reporter. Every found
path is recorded in `pathsToNames` before the file is read. `Resolve` finds
a template referenced from another one. It tries the empty prefix and then
each search path, in order. For each prefix it first tries the referencing
template's directory and then the referencing path itself. The file system,
module resolution, `path.resolve`/`path.join` and `process.cwd()` are
oracles gathered in a `Host` value. The Lerna check is a boolean in it.

**Front-matter stripping (`front_matter.dfy`, module `FrontMatter`).** The
source removes the first match of a fixed multiline regular expression. The
model restates it as a scan over line starts and closing lines. It also
restates it as a declarative predicate over the expression's backtracking
paths. It proves that the scan removes exactly the match JavaScript's
`replace` removes.

`paths.dfy` (module `Paths`) models the parts of Node's POSIX `path` that are
used: `parse(p).name`, `parse(p).dir` and `dirname`. `wrappers.dfy` holds
`Option` and `Result`.

Where the code and its description differ, the model follows the code:
- pages are not filtered against the layouts;
- no page text is inspected to decide on a block wrapper;
- `defaultLayout` has no `"none"` value;
- rendered texts are never written back. The model returns them so the loop
  has an observable result; the source drops them and never calls `done`;
- the loader reads `process.cwd()` rather than taking the working directory
  and workspace root as parameters.

The model departs from the code on purpose in one place: the message of the
static-layout check in `validateLayouts` (see "## Findings"). `Plugin` runs
the corrected check `ValidateLayouts`. `ValidateLayoutsAsWritten` keeps the
code's version, and `CorrectedCheckAgrees` proves the two differ only in that
message.

## Model

| member | source | states |
|---|---|---|
| Paths.ParseName | metalsmith.js:11 | `path.parse(p).name`: the base name without the extension from its last non-leading '.', ".." kept whole; `ParseNameIsBasePrefix`, `ParseNameDropsExtension` and `ParseNameDropsWhenDotted` state its contract |
| Paths.ParseDir | metalsmith/nodeLoader.js:15-16 | `path.parse(p).dir`: the text before the last '/', "/" for a top-level path, "" without a '/'; `ParseDirEdges` and `DirAndBase` state its contract |
| Paths.DirName | metalsmith.js:49 | `path.dirname(p)`: as `ParseDir`, but "." without a '/' and "//" for "//x"; `RenderFileResult` and `InnerRenderFirst` use it as the render path |
| Paths.ParseNameIsBasePrefix | metalsmith.js:11 | the registry name taken from a path is a prefix of its base name and never contains '/' |
| Paths.ParseNameDropsExtension | metalsmith.js:11 | the base name is the registry name followed by the extension; the extension is empty or starts with its only '.', and the name is then non-empty |
| Paths.ParseNameDropsWhenDotted | metalsmith.js:11 | the name is the whole base name exactly when the base name is ".." or has no '.' after its first character; otherwise an extension is dropped |
| Paths.ParseDirEdges | metalsmith/nodeLoader.js:15-16 | the parsed directory is "" for a path without '/' and "/" for a path whose only '/' is its first character |
| Paths.DirAndBase | metalsmith/nodeLoader.js:15-16 | for a path with a non-leading '/', the parsed directory, a '/' and the base name give back the path |
| FrontMatter.OpeningAt | metalsmith/ignoreFrontMatter.js:2-6 | the opening line at a line start, the optional BOM taken when present, the body starting within the text; `OpeningAtShape` states its contract |
| FrontMatter.ClosingAt | metalsmith/ignoreFrontMatter.js:7-8 | the closing line tried at an offset, the back-reference before "...", ending after the offset and within the text; `ClosingAtShape` states its contract |
| FrontMatter.MatchAt | metalsmith/ignoreFrontMatter.js:2-10 | the backtracking engine's match from one start, its close and end after the start and within the text; `MatchAtIsRegexMatch`, `RegexMatchIsFound` and `MatchAtShape` state its contract |
| FrontMatter.FirstClosing | metalsmith/ignoreFrontMatter.js:6-8 | the offset found for the closing line is at or after the body start and a closing line is accepted there |
| FrontMatter.FirstClosingIsFirst | metalsmith/ignoreFrontMatter.js:6-8 | the lazy body: no closing line is accepted before the one found, and none is found only when no line from the body start on closes the block |
| FrontMatter.FirstMatch | metalsmith/ignoreFrontMatter.js:3-13 | the block found is the scan's match at its start, and the scan matches at no earlier start; none is found only when the scan matches at no start at all |
| FrontMatter.NoMatchBetweenAt | metalsmith/ignoreFrontMatter.js:3-13 | a range of starts reported free of matches has no match at any start inside it |
| FrontMatter.IgnoreFrontMatter | metalsmith/ignoreFrontMatter.js:15-17 | the output is the input with one contiguous span removed, a prefix followed by a suffix |
| FrontMatter.OpeningAtShape | metalsmith/ignoreFrontMatter.js:2-6 | an accepted opening sits at a line start, takes the BOM when present, and spells "= yaml =" when that text is there and "---" otherwise, followed by a line end |
| FrontMatter.ClosingAtShape | metalsmith/ignoreFrontMatter.js:7-8 | an accepted closing line starts a line, holds the opening delimiter or "...", and ends a line |
| FrontMatter.PathIsRegexMatch | metalsmith/ignoreFrontMatter.js:2-10 | each backtracking path (BOM or not, either delimiter, either closing text) is a match of the whole expression |
| FrontMatter.MatchAtIsRegexMatch | metalsmith/ignoreFrontMatter.js:2-10 | whatever the scan finds at an offset is a match of the expression: an optional BOM, a delimiter line, a closing line with the same delimiter or "...", at most one '\n' |
| FrontMatter.RegexMatchIsFound | metalsmith/ignoreFrontMatter.js:2-10 | every match of the expression at an offset is seen by the scan there, and the scan's match closes no later and, with the same close, ends no earlier |
| FrontMatter.NoMatchAt | metalsmith/ignoreFrontMatter.js:2-10 | where the scan finds nothing, the expression has no match |
| FrontMatter.NothingFound | metalsmith/ignoreFrontMatter.js:15-17 | with no block found the text is unchanged and the expression matches nowhere |
| FrontMatter.FoundIsLeftmost | metalsmith/ignoreFrontMatter.js:11-16 | the removed block is a match and no match starts before it |
| FrontMatter.FoundIsPreferred | metalsmith/ignoreFrontMatter.js:6-10 | among the matches at the block's start the removed one has the earliest closing line (lazy body) and the longest trailer (greedy '\n') |
| FrontMatter.IgnoreFrontMatterIsFirstMatch | metalsmith/ignoreFrontMatter.js:2-17 | the output is the input with exactly the leftmost, lazily closed, greedily trailed match removed, or the input itself when the expression matches nowhere |
| FrontMatter.IdentityIffNoMatch | metalsmith/ignoreFrontMatter.js:16 | the text is returned unchanged if and only if the expression matches nowhere in it |
| FrontMatter.NoOpeningIsIdentity | metalsmith/ignoreFrontMatter.js:3-5 | a text with no opening delimiter line at any line start is left as it is |
| FrontMatter.MatchAtShape | metalsmith/ignoreFrontMatter.js:2-10 | any match the scan finds has the block shape: a line start, an optional BOM, a delimiter line, a closing line with that delimiter or "...", at most one '\n' |
| FrontMatter.RemovedSpanShape | metalsmith/ignoreFrontMatter.js:2-10 | the removed span starts at a line start with an optional BOM and a delimiter line, and its closing line holds that delimiter or "...", followed by at most one '\n' |
| FrontMatter.OnlyFirstBlockRemoved | metalsmith/ignoreFrontMatter.js:11-16 | in the example text with two consecutive blocks, only the first is removed |
| FrontMatter.OpensAtLaterLine | metalsmith/ignoreFrontMatter.js:3-13 | a block whose opening line is not the first line, closed by "...", is removed along with its trailing '\n' |
| Layouts.FileMap.EditFileName | metalsmith.js:36-41 | the file moves to the new key, the old key is deleted and every other entry is unchanged; a new key goes last in key order; with equal names the entry is deleted |
| Layouts.EditFileContents | metalsmith.js:43-46 | the same file object is returned, with the new contents and every other field unchanged |
| Layouts.SubsequenceElements | metalsmith.js:9 | an ordered subsequence of the keys lists only keys and repeats none |
| Layouts.MatchKeys | metalsmith.js:9 | the matched paths are keys of the file map, each listed once |
| Layouts.LayoutName | metalsmith.js:11 | a layout's registry name: its truthy `layoutName`, else `ParseName` of its path; `RegistrationAt` and `ParseNameIsBasePrefix` state its contract |
| Layouts.RegistrationAt | metalsmith.js:9-12 | each matched path, in match order, contributes its registry name (`layoutName` when truthy, else its base name without extension) and an entry holding the path and the same file object |
| Layouts.Register | metalsmith.js:12-15 | one `reduce` callback: the entry under its name, and under `default-layout` for the default layout under another name; `RegisterSets` states its contract |
| Layouts.RegisterAll | metalsmith.js:9-17 | the `reduce` from `{}` over the registrations in match order; `RegistryKeys`, `LastWriterWins`, `EntriesAreRegistered` and `DefaultAliasAgrees` state its contract |
| Layouts.GetLayouts | metalsmith.js:8-18 | `getLayouts`: the fold over the matched layouts' registrations; `RegistrationAt` and the lemmas on `RegisterAll` state its contract |
| Layouts.RegisterSets | metalsmith.js:12-15 | one registration writes its name, and `default-layout` when it is the default layout under another name, to its entry, and leaves every other key alone |
| Layouts.RegistryKeys | metalsmith.js:8-18 | a key is in the registry if and only if some matched layout writes it: its name, or `default-layout` for a layout named `defaultLayout` |
| Layouts.LastWriterWins | metalsmith.js:9-12 | a key holds the entry of the last matched layout, in match order, that wrote it |
| Layouts.EntriesAreRegistered | metalsmith.js:12-14 | every registry entry is the entry of a matched layout that wrote that key |
| Layouts.DefaultAliasAgrees | metalsmith.js:13-15 | when no layout is itself named `default-layout`, the alias is present exactly when `defaultLayout` is, and both hold the same entry |
| Layouts.GetPages | metalsmith.js:20-25 | `getPages`: the matched paths mapped to their file objects; `PagesAreMatches` states its contract |
| Layouts.PagesOf | metalsmith.js:20-25 | the pages are exactly the matched paths, each mapped to the file map's own file object |
| Layouts.PagesAreMatches | metalsmith.js:20-25 | no layout is excluded from the pages; their keys are exactly the matched paths, which are distinct. The map has no key order: `Plugin` takes the order from `MatchKeys`, the match order |
| Layouts.ValidateLayoutsAsWritten | metalsmith.js:27-34 | the check fails if and only if `defaultLayout` is neither registered nor `default-layout` or `staticLayout` is neither registered nor `static-layout`; both messages name `defaultLayout` |
| Layouts.StaticMessageNamesDefault | metalsmith.js:31-32 | with only the static layout missing, the message names the default layout, not the missing one |
| Layouts.ValidateLayouts | metalsmith.js:27-34 | the same failure condition, with the message naming the first unacceptable name |
| Layouts.CorrectedCheckAgrees | metalsmith.js:27-34 | the corrected and the as-written check fail on the same inputs, agree when `defaultLayout` is rejected, and differ only in the name the static-layout message gives |
| Layouts.SplitExtendsRoundTrip | metalsmith.js:92 | the extends directive for a quote-free layout path followed by a text reads back as that path and that text |
| Layouts.PlainTextHasNoDirective | metalsmith.js:87 | a non-empty text that does not start with '{' does not read as a directive; `ComposedSource` applies it to the `layout: 'none'` branch |
| Layouts.AddLayoutToFile | metalsmith.js:85-96 | `addLayoutToFile`: the text alone for `layout: 'none'`, else the extends directive for the page's registered layout or the default layout, then the text; `ComposedSource` states its contract |
| Layouts.ComposedSource | metalsmith.js:85-96 | `layout: 'none'` gives the front-matter-free text alone, which for a non-empty text not starting with '{' reads as no directive; otherwise the page's own registered layout, else the default layout (also for an unknown explicit layout), is extended; a missing default layout is the only failure; for a quote-free layout path the result reads back as that path and the text |
| Layouts.UnregisteredDefaultAliasPasses | metalsmith.js:85-96 | the check of metalsmith.js:28, as written and corrected, accepts `default-layout` with nothing registered under it, and composing a page without a layout of its own then fails |
| Layouts.RenderFile | metalsmith.js:48-50 | `renderFile`: one `renderString` relative to the page's directory; `RenderFileResult` states its contract |
| Layouts.RenderStaticFile | metalsmith.js:52-61 | `renderStaticFile`: the page rendered inside the static layout; `InnerRenderFirst` states its contract |
| Layouts.RenderTemplate | metalsmith.js:63-83 | `renderTemplate`: the static path or composition then one render; `StaticBypassesComposition`, `PageRendersComposedSource` and `ValidatedMissingOnlySentinels` state its contract |
| Layouts.RenderFileResult | metalsmith.js:48-50 | a render fails exactly when the engine fails, relative to the page's directory, with the engine's message |
| Layouts.InnerRenderFirst | metalsmith.js:52-61 | the page is rendered first; its failure is the result; otherwise the static layout is rendered with the page's output as `contents` beside the caller's context, relative to the layout's directory |
| Layouts.StaticBypassesComposition | metalsmith.js:63-73 | a static page ignores the default layout and its own `layout`, and is rendered through the static layout's front-matter-free text; a missing static layout is the failure |
| Layouts.PageRendersComposedSource | metalsmith.js:75-82 | any other page is rendered once from the composed source, and a composition failure is the result |
| Layouts.ValidatedMissingOnlySentinels | metalsmith.js:27-96 | after the as-written check passes, a missing-layout failure can only come from a sentinel name with nothing registered under it |
| Layouts.OutcomeAt | metalsmith.js:174-186 | the outcome at each position is the result of rendering the page at that position with an empty context |
| Layouts.Collect | metalsmith.js:174-186 | all texts when every page renders, otherwise the first failure, every earlier page having rendered |
| Layouts.CollectFailed | metalsmith.js:174-186 | once a prefix of the pages has failed, the later pages do not change the result |
| Layouts.RenderPages | metalsmith.js:174-186 | the loop returns what `Collect` gives for the page outcomes in page order |
| Layouts.Plugin | metalsmith.js:161-186 | registry, then check, then pages: a failing check is the result, and the plugin fails with a configuration error exactly when the source's check throws, with the source's error when `defaultLayout` is rejected; otherwise every page is rendered in key order, stopping at the first failure |
| Loader.Locate | metalsmith/nodeLoader.js:28-56 | where `getSource` finds a name: the first search path holding it, else node_modules, else the Lerna root; `SearchPathWins`, `NodeModulesOnlyOnMiss`, `LernaOnlyWhenBothFail` and `AllStepsFail` state its contract |
| Loader.FirstExisting | metalsmith/nodeLoader.js:28-35 | the search path found is the first, in order, under which the name exists; none is found only when no path holds it |
| Loader.SearchPathWins | metalsmith/nodeLoader.js:28-35 | a search path wins if and only if it is the first that holds the name, and the found path is its candidate |
| Loader.NodeModulesOnlyOnMiss | metalsmith/nodeLoader.js:37-43 | the `node_modules` fallback answers if and only if no search path holds the name and the module resolves |
| Loader.LernaOnlyWhenBothFail | metalsmith/nodeLoader.js:45-52 | the Lerna fallback answers if and only if both earlier steps fail, the project is a Lerna one and the module resolves there |
| Loader.AllStepsFail | metalsmith/nodeLoader.js:54-56 | nothing is found if and only if every step fails |
| Loader.SearchPathsBeforeFallbacks | metalsmith/nodeLoader.js:28-43 | a name held by a search path is found there, whatever module resolution would answer |
| Loader.FirstExistingAgrees | metalsmith/nodeLoader.js:28-35 | the search-path scan depends only on the existing paths and `path.resolve` |
| Loader.TryPrefix | metalsmith/nodeLoader.js:15-21 | one `reduce` callback: the sibling of `from` under the prefix when it exists, else the nested path; `ResolveFoldIsFirstHit` states its contract |
| Loader.ResolveFold | metalsmith/nodeLoader.js:13-22 | the `reduce` with its `if (found)` guard; `ResolveFoldIsFirstHit` and `ResolveShortCircuits` state its contract |
| Loader.FirstHit | metalsmith/nodeLoader.js:13-22 | the reference search takes the answer of the first prefix that has one, and has none only when no prefix answers |
| Loader.FirstHitSnoc | metalsmith/nodeLoader.js:13-22 | searching one more prefix keeps an earlier answer and otherwise takes the new prefix's |
| Loader.ResolveFoldIsFirstHit | metalsmith/nodeLoader.js:13-22 | the `reduce` with its `if (found)` guard is the first-hit search over the prefixes |
| Loader.ResolveShortCircuits | metalsmith/nodeLoader.js:14 | once a prefix has answered, later prefixes cannot change the result |
| Loader.NodeLoader.Resolve | metalsmith/nodeLoader.js:12-23 | `resolve` is the first-hit search over the empty prefix followed by the search paths |
| Loader.NodeLoader.constructor | metalsmith/nodeLoader.js:8-11 | with `opts` the reporter is `opts.reporter`, possibly missing; without, it is a fresh empty object; `pathsToNames` starts empty |
| Loader.NodeLoader.GetSource | metalsmith/nodeLoader.js:24-65 | the result follows the lookup order; a found path is mapped to the name in `pathsToNames` and nothing else changes there; the source is the front-matter-free file text; the reporter gains an entry only for a fallback hit; when nothing is found `pathsToNames` is unchanged |

## Left out

- `configureNunjucks` and `addCustomFilters` (metalsmith.js:98-133): they build the nunjucks environment and register filters through dynamic `require`. The engine they produce is the `Renderer` parameter.
- The nunjucks engine itself: `renderString` is an uninterpreted parameter. Template inheritance, autoescaping and the engine's calls back into the loader are not modelled.
- `multimatch` glob semantics: the matcher is any function that returns an ordered subsequence of the keys.
- The build script at metalsmith.js:193-210: it does pipeline I/O.
- The option spread in `twigPlugin` (metalsmith.js:136-159): `Config` holds the four options the plugin reads, already merged. Their defaults (`index.twig` and `pages/**.twig`, `layouts/*.twig`, `default-layout`, `static-layout`) and the merge are not modelled.
- Exceptions: a throw is a `Failure` value. Validation errors, reads of a field of an undefined registry entry, engine errors and read errors each get their own case.
- The nunjucks `FileSystemLoader` initialisation is not part of this model. The constructor assumes it starts `pathsToNames` empty and takes `noCache` from `opts`. Normalising the search paths and watching them are left out.
- `isLernaProject` (metalsmith/isLernaProject.js) is a boolean in `Host`.
- `fs.existsSync`, `fs.readFileSync`, `require.resolve`, `path.resolve`, `path.join` and `process.cwd()` are oracles in `Host`.
- Paths that `path.resolve` and `require.resolve` return are assumed non-empty: they are absolute. So the truthiness tests on `fullPath` and `found` become `Some`/`None`.
- A reporter is a `Reporter` object or missing (null). Other non-object values of `opts.reporter` are not modelled.
- The win32 variant of the front-matter expression (`\r?` before the trailing newline) is not modelled. Only the non-win32 expression is.
- File contents are strings. The `Buffer` and its `toString()` decoding are not modelled.
- `file.static` is reduced to its truthiness. `file.layout` and `file.layoutName` are optional strings, and other value types are not modelled.
- JavaScript plain-object keys: inherited prototype keys such as `constructor` are not modelled. Neither is the reordering of integer-like keys in `Object.keys`: key order is insertion order.
- `Paths` models POSIX paths without a trailing '/'. For a root-level ".." (`"/.."`), Node's `parse` gives the name "." where `ParseName` gives "..". Metalsmith file keys are relative, so they never take that form.
- Layouts.Plugin: runs the corrected check `ValidateLayouts`. So when only `staticLayout` is rejected, its error names `staticLayout`, where metalsmith.js:32 names `defaultLayout`. Its contract still states that the plugin fails exactly when the source's check throws, and with the source's error whenever `defaultLayout` is the name rejected.
- Loader.ResolveFold: a miss is `None`. The source's `reduce` returns `undefined` for a miss, because the callback falls off its end; its initial `null` never comes back, since the prefix list always holds `''`. The model does not tell the two falsy values apart.
- Layouts.FileMap.EditFileName: requires `oldName` to be a key. For a missing key the source would store `undefined` under `newName`, and the model has no undefined file.

## Findings

| source | as written | input that shows it | evidently intended | confidence | as-written member | corrected member |
|---|---|---|---|---|---|---|
| metalsmith.js:31-32 | the static layout check's message interpolates `defaultLayout` | registry `{}`, `defaultLayout` `'default-layout'`, `staticLayout` `'wrapper'`: the error says layout `default-layout` does not exist | the message names the missing `staticLayout` | not executed | Layouts.StaticMessageNamesDefault | Layouts.ValidateLayouts |
