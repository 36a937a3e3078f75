/**
  The layout plugin of metalsmith.js: the layout registry built from the
  layout files, the page selection, the configuration check, the composition
  of a page with its layout, the two render paths and the loop over pages.

  Glob matching (`multimatch`) and the template engine (`renderString`) are
  parameters: a `Matcher` that returns an ordered subsequence of the keys it
  is given, and a `Renderer` that renders a source text in a context or fails.
*/
module Layouts {
  import opened Wrappers
  import Paths
  import FrontMatter

  /** A Metalsmith file object. `isStatic` is the truthiness of `file.static`. */
  class File {
    var contents: string
    var layout: Option<string>
    var layoutName: Option<string>
    var isStatic: bool

    constructor (contents: string, layout: Option<string>, layoutName: Option<string>, isStatic: bool)
      ensures this.contents == contents && this.layout == layout
      ensures this.layoutName == layoutName && this.isStatic == isStatic
    {
      this.contents := contents;
      this.layout := layout;
      this.layoutName := layoutName;
      this.isStatic := isStatic;
    }
  }

  /** Pairwise distinct elements. */
  predicate Distinct(s: seq<string>) {
    forall i, j :: 0 <= i < j < |s| ==> s[i] != s[j]
  }

  /** `s` without any occurrence of `x`, the other elements in their order. */
  function Without(s: seq<string>, x: string): (r: seq<string>)
    ensures x !in r
    ensures forall y :: y in r <==> y in s && y != x
    ensures Distinct(s) ==> Distinct(r)
  {
    if s == [] then []
    else
      var rest := Without(s[1..], x);
      if s[0] == x then rest
      else
        assert Distinct(s) ==> s[0] !in s[1..];
        [s[0]] + rest
  }

  /**
    The file map handed to the plugin: its entries and the order in which
    `Object.keys` lists them (insertion order).
  */
  class FileMap {
    var keys: seq<string>
    var entries: map<string, File>

    ghost predicate Valid()
      reads this
    {
      Distinct(keys) && forall k :: k in entries <==> k in keys
    }

    constructor (keys: seq<string>, entries: map<string, File>)
      requires Distinct(keys) && forall k :: k in entries <==> k in keys
      ensures Valid() && this.keys == keys && this.entries == entries
    {
      this.keys := keys;
      this.entries := entries;
    }

    /**
      `editFileName(files, oldName, newName)`: the file moves to `newName`
      (appended to the key order when that key is new) and `oldName` is
      deleted; when the two names are equal the entry is simply deleted.
    */
    method EditFileName(oldName: string, newName: string)
      requires Valid() && oldName in entries
      modifies this
      ensures Valid()
      ensures entries == old(entries)[newName := old(entries)[oldName]] - {oldName}
      ensures keys == Without(if newName in old(entries) then old(keys) else old(keys) + [newName], oldName)
    {
      var moved := entries[oldName];
      if newName !in entries {
        keys := keys + [newName];
      }
      entries := entries[newName := moved];
      entries := entries - {oldName};
      keys := Without(keys, oldName);
    }
  }

  /** `editFileContents(file, newContents)`: the contents change in place; every holder of `file` sees them. */
  method EditFileContents(file: File, newContents: string) returns (r: File)
    modifies file
    ensures r == file && file.contents == newContents
    ensures file.layout == old(file.layout) && file.layoutName == old(file.layoutName)
    ensures file.isStatic == old(file.isStatic)
  {
    file.contents := newContents;
    r := file;
  }

  // ---------------------------------------------------------------------------
  // Glob matching
  // ---------------------------------------------------------------------------

  /** A glob pattern or a list of them. */
  type Patterns = seq<string>

  /** `multimatch(paths, patterns)`. */
  type Matcher = (seq<string>, Patterns) -> seq<string>

  /** `sub` lists some of the elements of `s`, in the order of `s`. */
  predicate IsSubsequence(sub: seq<string>, s: seq<string>)
    decreases |s|
  {
    if sub == [] then true
    else if s == [] then false
    else if sub[0] == s[0] then IsSubsequence(sub[1..], s[1..])
    else IsSubsequence(sub, s[1..])
  }

  /** What a subsequence lists is listed by the sequence, and it repeats nothing the sequence does not. */
  lemma {:induction false} SubsequenceElements(sub: seq<string>, s: seq<string>)
    requires IsSubsequence(sub, s)
    ensures forall x :: x in sub ==> x in s
    ensures Distinct(s) ==> Distinct(sub)
    decreases |s|
  {
    if sub != [] && s != [] {
      if sub[0] == s[0] {
        SubsequenceElements(sub[1..], s[1..]);
        assert sub == [sub[0]] + sub[1..];
        if Distinct(s) {
          assert sub[0] !in s[1..];
        }
      } else {
        SubsequenceElements(sub, s[1..]);
      }
    }
  }

  /** Every matched path is a key of `files`. */
  predicate Matched(m: seq<string>, files: map<string, File>) {
    forall i :: 0 <= i < |m| ==> m[i] in files
  }

  /** `multimatch(Object.keys(files), pattern)`: distinct keys of the file map, in key order. */
  function MatchKeys(files: FileMap, pattern: Patterns, multimatch: Matcher): (m: seq<string>)
    requires files.Valid()
    requires IsSubsequence(multimatch(files.keys, pattern), files.keys)
    reads files
    ensures Matched(m, files.entries) && Distinct(m)
  {
    SubsequenceElements(multimatch(files.keys, pattern), files.keys);
    multimatch(files.keys, pattern)
  }

  // ---------------------------------------------------------------------------
  // The layout registry (getLayouts)
  // ---------------------------------------------------------------------------

  /** A registry entry: the layout file's path and the file object itself. */
  datatype Entry = Entry(fileName: string, file: File)

  /** The name under which the default layout is also registered, and the default `defaultLayout`. */
  const DefaultAlias: string := "default-layout"
  /** The default `staticLayout`, accepted by the check even when nothing is registered under it. */
  const StaticSentinel: string := "static-layout"
  /** The `layout` value of a page that wants no layout. */
  const NoLayout: string := "none"

  /** JavaScript truthiness of an optional string. */
  predicate Truthy(o: Option<string>) {
    o.Some? && o.value != ""
  }

  /** The name a layout file registers under: `file.layoutName || path.parse(path).name`. */
  function LayoutName(file: File, path: string): string
    reads file
  {
    if Truthy(file.layoutName) then file.layoutName.value else Paths.ParseName(path)
  }

  /** What one matched layout file contributes to the `reduce`: its registry name and its entry. */
  datatype Registration = Registration(name: string, entry: Entry)

  /** The callback's first half for each matched path, in match order. */
  function Registrations(files: map<string, File>, m: seq<string>): (r: seq<Registration>)
    requires Matched(m, files)
    reads files.Values
    ensures |r| == |m|
    decreases |m|
  {
    if m == [] then []
    else
      var n := |m| - 1;
      assert Matched(m[..n], files);
      Registrations(files, m[..n]) + [Registration(LayoutName(files[m[n]], m[n]), Entry(m[n], files[m[n]]))]
  }

  /** The `i`-th registration comes from the `i`-th matched path: its registry name, its path and its file. */
  lemma {:induction false} RegistrationAt(files: map<string, File>, m: seq<string>, i: nat)
    requires Matched(m, files) && i < |m|
    ensures Registrations(files, m)[i] == Registration(LayoutName(files[m[i]], m[i]), Entry(m[i], files[m[i]]))
    decreases |m|
  {
    var n := |m| - 1;
    assert Matched(m[..n], files);
    if i < n {
      RegistrationAt(files, m[..n], i);
      assert m[..n][i] == m[i];
    }
  }

  /** Applying the registration writes the registry key `k`: its name, or the alias when it is the default layout. */
  predicate Writes(reg: Registration, defaultLayout: string, k: string) {
    k == reg.name || (k == DefaultAlias && reg.name == defaultLayout && defaultLayout != DefaultAlias)
  }

  /** The callback's second half: the entry under its name, and under "default-layout" for the default layout. */
  function Register(acc: map<string, Entry>, reg: Registration, defaultLayout: string): map<string, Entry> {
    var acc' := acc[reg.name := reg.entry];
    if defaultLayout == reg.name && defaultLayout != DefaultAlias then acc'[DefaultAlias := acc'[reg.name]] else acc'
  }

  /** The `reduce` from `{}` over the registrations, in order. */
  function RegisterAll(regs: seq<Registration>, defaultLayout: string): map<string, Entry>
    decreases |regs|
  {
    if regs == [] then map[]
    else Register(RegisterAll(regs[..|regs| - 1], defaultLayout), regs[|regs| - 1], defaultLayout)
  }

  /** `getLayouts(files, pattern, defaultLayout)`. */
  function GetLayouts(files: FileMap, pattern: Patterns, defaultLayout: string, multimatch: Matcher): map<string, Entry>
    requires files.Valid()
    requires IsSubsequence(multimatch(files.keys, pattern), files.keys)
    reads files, files.entries.Values
  {
    RegisterAll(Registrations(files.entries, MatchKeys(files, pattern, multimatch)), defaultLayout)
  }

  /** One registration sets exactly the keys it writes, to its entry, and leaves the others alone. */
  lemma RegisterSets(acc: map<string, Entry>, reg: Registration, defaultLayout: string, k: string)
    ensures Writes(reg, defaultLayout, k) ==>
      k in Register(acc, reg, defaultLayout) && Register(acc, reg, defaultLayout)[k] == reg.entry
    ensures !Writes(reg, defaultLayout, k) ==>
      && (k in Register(acc, reg, defaultLayout) <==> k in acc)
      && (k in acc ==> Register(acc, reg, defaultLayout)[k] == acc[k])
  {
  }

  /**
    The registry holds exactly the keys some registration writes (a matched
    layout's name, and "default-layout" for a layout named `defaultLayout`):
    no other key is ever added.
  */
  lemma {:induction false} RegistryKeys(regs: seq<Registration>, defaultLayout: string, k: string)
    ensures k in RegisterAll(regs, defaultLayout) <==> exists i :: 0 <= i < |regs| && Writes(regs[i], defaultLayout, k)
    decreases |regs|
  {
    if regs != [] {
      var n := |regs| - 1;
      var init := regs[..n];
      RegisterSets(RegisterAll(init, defaultLayout), regs[n], defaultLayout, k);
      RegistryKeys(init, defaultLayout, k);
      assert forall i :: 0 <= i < n ==> init[i] == regs[i];
    }
  }

  /**
    Name collisions are won by the last writer in match order: a key holds the
    entry of the last registration that wrote it, that layout's path and the
    very same file object.
  */
  lemma {:induction false} LastWriterWins(regs: seq<Registration>, defaultLayout: string, k: string, i: nat)
    requires i < |regs| && Writes(regs[i], defaultLayout, k)
    requires forall j :: i < j < |regs| ==> !Writes(regs[j], defaultLayout, k)
    ensures k in RegisterAll(regs, defaultLayout)
    ensures RegisterAll(regs, defaultLayout)[k] == regs[i].entry
    decreases |regs|
  {
    var n := |regs| - 1;
    var init := regs[..n];
    RegisterSets(RegisterAll(init, defaultLayout), regs[n], defaultLayout, k);
    if i < n {
      assert init[i] == regs[i];
      forall j | i < j < n ensures !Writes(init[j], defaultLayout, k) {
        assert init[j] == regs[j];
      }
      LastWriterWins(init, defaultLayout, k, i);
    }
  }

  /** Every registered entry is the entry of a registration that wrote its key. */
  lemma {:induction false} EntriesAreRegistered(regs: seq<Registration>, defaultLayout: string, k: string)
    requires k in RegisterAll(regs, defaultLayout)
    ensures exists i :: 0 <= i < |regs| && Writes(regs[i], defaultLayout, k) && RegisterAll(regs, defaultLayout)[k] == regs[i].entry
    decreases |regs|
  {
    var n := |regs| - 1;
    var init := regs[..n];
    RegisterSets(RegisterAll(init, defaultLayout), regs[n], defaultLayout, k);
    if !Writes(regs[n], defaultLayout, k) {
      EntriesAreRegistered(init, defaultLayout, k);
      var i :| 0 <= i < n && Writes(init[i], defaultLayout, k) && RegisterAll(init, defaultLayout)[k] == init[i].entry;
      assert init[i] == regs[i];
    }
  }

  /**
    When no layout is itself named "default-layout", the alias is registered
    exactly when `defaultLayout` is, and then both hold the same entry.
  */
  lemma {:induction false} DefaultAliasAgrees(regs: seq<Registration>, defaultLayout: string)
    requires defaultLayout != DefaultAlias
    requires forall i :: 0 <= i < |regs| ==> regs[i].name != DefaultAlias
    ensures DefaultAlias in RegisterAll(regs, defaultLayout) <==> defaultLayout in RegisterAll(regs, defaultLayout)
    ensures defaultLayout in RegisterAll(regs, defaultLayout) ==>
      RegisterAll(regs, defaultLayout)[DefaultAlias] == RegisterAll(regs, defaultLayout)[defaultLayout]
    decreases |regs|
  {
    if regs != [] {
      var init := regs[..|regs| - 1];
      assert forall i :: 0 <= i < |init| ==> init[i] == regs[i];
      DefaultAliasAgrees(init, defaultLayout);
    }
  }

  // ---------------------------------------------------------------------------
  // The page set (getPages)
  // ---------------------------------------------------------------------------

  /** The `reduce` of getPages: every matched path mapped to its own file object, none excluded. */
  function PagesOf(files: map<string, File>, m: seq<string>): (r: map<string, File>)
    requires Matched(m, files)
    ensures forall p :: p in r <==> p in m
    ensures forall p :: p in r ==> r[p] == files[p]
    decreases |m|
  {
    if m == [] then map[]
    else
      var init := m[..|m| - 1];
      assert Matched(init, files);
      assert forall p :: p in m <==> p in init || p == m[|m| - 1];
      PagesOf(files, init)[m[|m| - 1] := files[m[|m| - 1]]]
  }

  /** `getPages(files, pattern)`. */
  function GetPages(files: FileMap, pattern: Patterns, multimatch: Matcher): map<string, File>
    requires files.Valid()
    requires IsSubsequence(multimatch(files.keys, pattern), files.keys)
    reads files
  {
    PagesOf(files.entries, MatchKeys(files, pattern, multimatch))
  }

  /**
    The pages are exactly the matched paths, each with the file object the
    file map holds, and they are listed once each in match order, so
    `Object.keys(pages)` is the matched sequence itself. A page that also
    matches the layout patterns stays a page.
  */
  lemma PagesAreMatches(files: FileMap, pattern: Patterns, multimatch: Matcher)
    requires files.Valid()
    requires IsSubsequence(multimatch(files.keys, pattern), files.keys)
    ensures var m := MatchKeys(files, pattern, multimatch);
      && Distinct(m)
      && (forall p :: p in GetPages(files, pattern, multimatch) <==> p in m)
      && (forall p :: p in GetPages(files, pattern, multimatch) ==> GetPages(files, pattern, multimatch)[p] == files.entries[p])
  {
  }

  // ---------------------------------------------------------------------------
  // The configuration check (validateLayouts)
  // ---------------------------------------------------------------------------

  datatype Error =
    | ConfigError(message: string)  // thrown by validateLayouts
    | MissingLayout(name: string)   // the TypeError of reading a field of `layouts[name]` when it is undefined
    | RenderError(message: string)  // thrown by the template engine

  function ConfigMessage(name: string): string {
    "Configuration error: layout with the name " + name + " does not exist"
  }

  /** A configured name is acceptable: registered, or the name's own sentinel. */
  predicate Acceptable(layouts: map<string, Entry>, name: string, sentinel: string) {
    name in layouts || name == sentinel
  }

  /**
    `validateLayouts` as written: the second check's message interpolates
    `defaultLayout`, not the rejected `staticLayout`.
  */
  function ValidateLayoutsAsWritten(layouts: map<string, Entry>, defaultLayout: string, staticLayout: string): (r: Result<(), Error>)
    ensures r.Failure? <==> !Acceptable(layouts, defaultLayout, DefaultAlias) || !Acceptable(layouts, staticLayout, StaticSentinel)
    ensures r.Failure? ==> r.error == ConfigError(ConfigMessage(defaultLayout))
  {
    if defaultLayout !in layouts && defaultLayout != DefaultAlias then Failure(ConfigError(ConfigMessage(defaultLayout)))
    else if staticLayout !in layouts && staticLayout != StaticSentinel then Failure(ConfigError(ConfigMessage(defaultLayout)))
    else Success(())
  }

  /** The message of the as-written check names a layout that exists when only the static layout is missing. */
  lemma StaticMessageNamesDefault()
    ensures var r := ValidateLayoutsAsWritten(map[], DefaultAlias, "wrapper");
      r == Failure(ConfigError(ConfigMessage(DefaultAlias))) && r != Failure(ConfigError(ConfigMessage("wrapper")))
  {
    assert ConfigMessage(DefaultAlias)[42] != ConfigMessage("wrapper")[42];
  }

  /**
    `validateLayouts`, with the static layout's message naming the static
    layout: it fails exactly when one configured name is neither registered
    nor its sentinel, and the message names the first such name.
  */
  function ValidateLayouts(layouts: map<string, Entry>, defaultLayout: string, staticLayout: string): (r: Result<(), Error>)
    ensures r.Failure? <==> !Acceptable(layouts, defaultLayout, DefaultAlias) || !Acceptable(layouts, staticLayout, StaticSentinel)
    ensures r.Failure? ==> r.error == ConfigError(ConfigMessage(
      if !Acceptable(layouts, defaultLayout, DefaultAlias) then defaultLayout else staticLayout))
  {
    if defaultLayout !in layouts && defaultLayout != DefaultAlias then Failure(ConfigError(ConfigMessage(defaultLayout)))
    else if staticLayout !in layouts && staticLayout != StaticSentinel then Failure(ConfigError(ConfigMessage(staticLayout)))
    else Success(())
  }

  /**
    The corrected check fails on exactly the inputs the as-written one fails
    on, with the same error when `defaultLayout` is rejected; only when the
    static layout alone is rejected do the messages differ, in the name.
  */
  lemma CorrectedCheckAgrees(layouts: map<string, Entry>, defaultLayout: string, staticLayout: string)
    ensures ValidateLayouts(layouts, defaultLayout, staticLayout).Failure? <==>
      ValidateLayoutsAsWritten(layouts, defaultLayout, staticLayout).Failure?
    ensures !Acceptable(layouts, defaultLayout, DefaultAlias) ==>
      ValidateLayouts(layouts, defaultLayout, staticLayout) == ValidateLayoutsAsWritten(layouts, defaultLayout, staticLayout)
    ensures Acceptable(layouts, defaultLayout, DefaultAlias) && !Acceptable(layouts, staticLayout, StaticSentinel) ==>
      && ValidateLayouts(layouts, defaultLayout, staticLayout) == Failure(ConfigError(ConfigMessage(staticLayout)))
      && ValidateLayoutsAsWritten(layouts, defaultLayout, staticLayout) == Failure(ConfigError(ConfigMessage(defaultLayout)))
  {
  }

  // ---------------------------------------------------------------------------
  // Composition (addLayoutToFile)
  // ---------------------------------------------------------------------------

  const ExtendsOpen: string := "{% extends '"
  const ExtendsClose: string := "' %} \n "

  /** The directive that makes a page extend the layout file `fileName`. */
  function Extends(fileName: string): string {
    ExtendsOpen + fileName + ExtendsClose
  }

  /** Index of the first `c` in `s`, or -1. */
  function IndexOf(s: string, c: char): (k: int)
    ensures -1 <= k < |s|
    ensures k == -1 <==> c !in s
    ensures k >= 0 ==> s[k] == c && c !in s[..k]
  {
    if s == [] then -1
    else if s[0] == c then 0
    else
      var k := IndexOf(s[1..], c);
      if k < 0 then -1 else k + 1
  }

  /** Reads a composed source back: the extended layout file and the page text after the directive. */
  function SplitExtends(src: string): Option<(string, string)> {
    if |src| < |ExtendsOpen| || src[..|ExtendsOpen|] != ExtendsOpen then None
    else
      var rest := src[|ExtendsOpen|..];
      var k := IndexOf(rest, '\'');
      if k < 0 || |rest| - k < |ExtendsClose| || rest[k..k + |ExtendsClose|] != ExtendsClose then None
      else Some((rest[..k], rest[k + |ExtendsClose|..]))
  }

  /** The directive is read back exactly, for a layout path without a quote. */
  lemma SplitExtendsRoundTrip(fileName: string, body: string)
    requires '\'' !in fileName
    ensures SplitExtends(Extends(fileName) + body) == Some((fileName, body))
  {
    var src := Extends(fileName) + body;
    assert src[..|ExtendsOpen|] == ExtendsOpen;
    var rest := src[|ExtendsOpen|..];
    assert rest == fileName + ExtendsClose + body;
    assert rest[|fileName|] == '\'';
    assert rest[..|fileName|] == fileName;
    assert IndexOf(rest, '\'') == |fileName|;
  }

  /** A source that is not a page preceded by a directive is read back as nothing. */
  lemma PlainTextHasNoDirective(body: string)
    requires |body| > 0 && body[0] != '{'
    ensures SplitExtends(body) == None
  {
    if |body| >= |ExtendsOpen| {
      assert body[..|ExtendsOpen|][0] != ExtendsOpen[0];
    }
  }

  /**
    `addLayoutToFile(file, layouts, defaultLayout)`: the page's front-matter
    free text, unchanged for `layout: 'none'`, else preceded by a directive
    extending the page's own registered layout or the default layout; when the
    default layout is not registered the source reads a field of undefined.
  */
  function AddLayoutToFile(file: File, layouts: map<string, Entry>, defaultLayout: string): (r: Result<string, Error>)
    reads file
  {
    var body := FrontMatter.IgnoreFrontMatter(file.contents);
    if file.layout == Some(NoLayout) then Success(body)
    else if Truthy(file.layout) && file.layout.value in layouts then
      Success(Extends(layouts[file.layout.value].fileName) + body)
    else if defaultLayout in layouts then Success(Extends(layouts[defaultLayout].fileName) + body)
    else Failure(MissingLayout(defaultLayout))
  }

  /** The layout file a page is composed with, if any; None for `layout: 'none'`. */
  function ChosenLayout(file: File, layouts: map<string, Entry>, defaultLayout: string): Option<string>
    reads file
  {
    if file.layout == Some(NoLayout) then None
    else if Truthy(file.layout) && file.layout.value in layouts then Some(file.layout.value)
    else Some(defaultLayout)
  }

  /**
    What the renderer receives, read back from the composed source: for
    `layout: 'none'` the front-matter-free page text itself; otherwise a
    directive naming the path of the page's own layout when it is registered,
    else that of the default layout (an unknown explicit layout falls back to
    it), followed by the page text; a missing default layout is the only error.
  */
  lemma ComposedSource(file: File, layouts: map<string, Entry>, defaultLayout: string)
    ensures var r := AddLayoutToFile(file, layouts, defaultLayout);
      var body := FrontMatter.IgnoreFrontMatter(file.contents);
      match ChosenLayout(file, layouts, defaultLayout)
      case None => r == Success(body) && (|body| > 0 && body[0] != '{' ==> SplitExtends(r.value) == None)
      case Some(name) =>
        && (r.Failure? <==> name !in layouts)
        && (r.Failure? ==> r.error == MissingLayout(name))
        && (r.Success? && '\'' !in layouts[name].fileName ==> SplitExtends(r.value) == Some((layouts[name].fileName, body)))
  {
    var body := FrontMatter.IgnoreFrontMatter(file.contents);
    match ChosenLayout(file, layouts, defaultLayout)
    case None =>
      if |body| > 0 && body[0] != '{' {
        PlainTextHasNoDirective(body);
      }
    case Some(name) =>
      if name in layouts && '\'' !in layouts[name].fileName {
        SplitExtendsRoundTrip(layouts[name].fileName, body);
      }
  }

  /** Validation lets through a `defaultLayout` of "default-layout" with nothing registered under it; composing a page without its own layout then fails. */
  lemma UnregisteredDefaultAliasPasses(file: File, layouts: map<string, Entry>)
    requires DefaultAlias !in layouts
    requires !Truthy(file.layout)
    ensures ValidateLayoutsAsWritten(layouts, DefaultAlias, StaticSentinel).Success?
    ensures ValidateLayouts(layouts, DefaultAlias, StaticSentinel).Success?
    ensures AddLayoutToFile(file, layouts, DefaultAlias) == Failure(MissingLayout(DefaultAlias))
  {
  }

  // ---------------------------------------------------------------------------
  // Rendering (renderFile, renderStaticFile, renderTemplate)
  // ---------------------------------------------------------------------------

  /** The render context: the plugin's `{}`, or the static wrapper's `{context, contents}`. */
  datatype Context = EmptyContext | StaticContext(context: Context, contents: string)

  /** `engine.renderString(source, context, {path})`; a thrown error is a Failure with its message. */
  type Renderer = (string, Context, string) -> Result<string, string>

  /** `renderFile`: one render, relative to the page's directory. */
  function RenderFile(engine: Renderer, fileName: string, fileString: string, context: Context): Result<string, Error> {
    match engine(fileString, context, Paths.DirName(fileName))
    case Success(text) => Success(text)
    case Failure(e) => Failure(RenderError(e))
  }

  /**
    `renderStaticFile`: the page is rendered first, on its own, relative to
    its directory; its output is then the `contents` of the wrapper's context,
    beside the original `context`, for a render of the wrapper relative to the
    wrapper's directory.
  */
  function RenderStaticFile(engine: Renderer, staticFileName: string, staticFileString: string,
                            fileName: string, fileString: string, context: Context): Result<string, Error> {
    match engine(fileString, context, Paths.DirName(fileName))
    case Failure(e) => Failure(RenderError(e))
    case Success(inner) =>
      match engine(staticFileString, StaticContext(context, inner), Paths.DirName(staticFileName))
      case Failure(e) => Failure(RenderError(e))
      case Success(text) => Success(text)
  }

  /** A render fails exactly when the engine throws, with the engine's message. */
  lemma RenderFileResult(engine: Renderer, fileName: string, fileString: string, context: Context)
    ensures var r := RenderFile(engine, fileName, fileString, context);
      var e := engine(fileString, context, Paths.DirName(fileName));
      && (r.Success? <==> e.Success?)
      && (r.Success? ==> r.value == e.value)
      && (r.Failure? ==> r.error == RenderError(e.error))
  {
  }

  /**
    The inner render comes first: when it throws, that error is the result,
    whatever the wrapper would do; otherwise the wrapper is rendered with the
    page's output as `contents` and the caller's context beside it, and its
    outcome is the result.
  */
  lemma InnerRenderFirst(engine: Renderer, staticFileName: string, staticFileString: string,
                         fileName: string, fileString: string, context: Context)
    ensures var r := RenderStaticFile(engine, staticFileName, staticFileString, fileName, fileString, context);
      var inner := engine(fileString, context, Paths.DirName(fileName));
      && (inner.Failure? ==> r == Failure(RenderError(inner.error)))
      && (inner.Success? ==>
            var outer := engine(staticFileString, StaticContext(context, inner.value), Paths.DirName(staticFileName));
            && (r.Success? <==> outer.Success?)
            && (r.Success? ==> r.value == outer.value)
            && (r.Failure? ==> r.error == RenderError(outer.error)))
  {
  }

  /** The file objects of the registry. */
  function LayoutFiles(layouts: map<string, Entry>): set<File> {
    set k | k in layouts :: layouts[k].file
  }

  /** `renderTemplate`: a static page takes the two-render path, any other page is composed and rendered once. */
  function RenderTemplate(engine: Renderer, file: File, fileName: string, layouts: map<string, Entry>,
                          defaultLayout: string, staticLayout: string, context: Context): Result<string, Error>
    reads file, LayoutFiles(layouts)
  {
    if file.isStatic then
      if staticLayout !in layouts then Failure(MissingLayout(staticLayout))
      else
        var wrapper := layouts[staticLayout];
        RenderStaticFile(engine, wrapper.fileName, FrontMatter.IgnoreFrontMatter(wrapper.file.contents),
                         fileName, FrontMatter.IgnoreFrontMatter(file.contents), context)
    else
      match AddLayoutToFile(file, layouts, defaultLayout)
      case Failure(e) => Failure(e)
      case Success(source) => RenderFile(engine, fileName, source, context)
  }

  /**
    A static page bypasses composition: its `layout` and the configured
    default layout play no part, and the renderer sees the page's own
    front-matter-free text and, in a second render, the static layout's.
  */
  lemma StaticBypassesComposition(engine: Renderer, file: File, fileName: string, layouts: map<string, Entry>,
                                  defaultLayout: string, otherDefault: string, staticLayout: string, context: Context)
    requires file.isStatic
    ensures RenderTemplate(engine, file, fileName, layouts, defaultLayout, staticLayout, context) ==
            RenderTemplate(engine, file, fileName, layouts, otherDefault, staticLayout, context)
    ensures staticLayout in layouts ==>
      RenderTemplate(engine, file, fileName, layouts, defaultLayout, staticLayout, context) ==
      RenderStaticFile(engine, layouts[staticLayout].fileName,
                       FrontMatter.IgnoreFrontMatter(layouts[staticLayout].file.contents),
                       fileName, FrontMatter.IgnoreFrontMatter(file.contents), context)
    ensures staticLayout !in layouts ==>
      RenderTemplate(engine, file, fileName, layouts, defaultLayout, staticLayout, context) == Failure(MissingLayout(staticLayout))
  {
  }

  /** A page that is not static is rendered once, from the composed source, relative to its directory. */
  lemma PageRendersComposedSource(engine: Renderer, file: File, fileName: string, layouts: map<string, Entry>,
                                  defaultLayout: string, staticLayout: string, context: Context)
    requires !file.isStatic
    ensures var composed := AddLayoutToFile(file, layouts, defaultLayout);
      var r := RenderTemplate(engine, file, fileName, layouts, defaultLayout, staticLayout, context);
      && (composed.Failure? ==> r == Failure(composed.error))
      && (composed.Success? ==> r == RenderFile(engine, fileName, composed.value, context))
  {
  }

  /**
    After a passing configuration check, the only missing-layout failures
    left are the two sentinels with nothing registered under them: the default
    alias for a page without a usable layout of its own, and the static
    sentinel for a static page.
  */
  lemma ValidatedMissingOnlySentinels(engine: Renderer, file: File, fileName: string, layouts: map<string, Entry>,
                                      defaultLayout: string, staticLayout: string, context: Context)
    requires ValidateLayoutsAsWritten(layouts, defaultLayout, staticLayout).Success?
    ensures var r := RenderTemplate(engine, file, fileName, layouts, defaultLayout, staticLayout, context);
      r.Failure? && r.error.MissingLayout? ==>
        if file.isStatic then staticLayout == StaticSentinel && StaticSentinel !in layouts && r.error.name == StaticSentinel
        else defaultLayout == DefaultAlias && DefaultAlias !in layouts && r.error.name == DefaultAlias
  {
  }

  // ---------------------------------------------------------------------------
  // The plugin
  // ---------------------------------------------------------------------------

  /** The options the plugin reads; the engine options are not part of this model. */
  datatype Config = Config(pages: Patterns, layouts: Patterns, defaultLayout: string, staticLayout: string)

  /** The outcome of `renderTemplate` for each page, with the context `{}`, in page order. */
  function Outcomes(files: map<string, File>, pages: seq<string>, layouts: map<string, Entry>,
                    defaultLayout: string, staticLayout: string, engine: Renderer): (r: seq<Result<string, Error>>)
    requires Matched(pages, files)
    reads files.Values, LayoutFiles(layouts)
    ensures |r| == |pages|
    decreases |pages|
  {
    if pages == [] then []
    else
      var n := |pages| - 1;
      assert Matched(pages[..n], files);
      Outcomes(files, pages[..n], layouts, defaultLayout, staticLayout, engine)
        + [RenderTemplate(engine, files[pages[n]], pages[n], layouts, defaultLayout, staticLayout, EmptyContext)]
  }

  /** The outcome at position `i` is that of rendering the page at position `i`. */
  lemma {:induction false} OutcomeAt(files: map<string, File>, pages: seq<string>, layouts: map<string, Entry>,
                                     defaultLayout: string, staticLayout: string, engine: Renderer, i: nat)
    requires Matched(pages, files) && i < |pages|
    ensures Outcomes(files, pages, layouts, defaultLayout, staticLayout, engine)[i] ==
      RenderTemplate(engine, files[pages[i]], pages[i], layouts, defaultLayout, staticLayout, EmptyContext)
    decreases |pages|
  {
    var n := |pages| - 1;
    assert Matched(pages[..n], files);
    if i < n {
      OutcomeAt(files, pages[..n], layouts, defaultLayout, staticLayout, engine, i);
      assert pages[..n][i] == pages[i];
    }
  }

  /**
    A `forEach` whose callback may throw: the texts when every outcome is a
    text; otherwise the first error, all outcomes before it being texts.
  */
  function Collect(outcomes: seq<Result<string, Error>>): (r: Result<seq<string>, Error>)
    ensures r.Success? ==> |r.value| == |outcomes| && forall i :: 0 <= i < |outcomes| ==> outcomes[i] == Success(r.value[i])
    ensures r.Failure? ==>
      exists i :: 0 <= i < |outcomes| && outcomes[i] == Failure(r.error) && forall j :: 0 <= j < i ==> outcomes[j].Success?
    decreases |outcomes|
  {
    if outcomes == [] then Success([])
    else
      var n := |outcomes| - 1;
      var init := outcomes[..n];
      assert forall i :: 0 <= i < n ==> init[i] == outcomes[i];
      match Collect(init)
      case Failure(e) => Failure(e)
      case Success(texts) =>
        match outcomes[n]
        case Failure(e) => Failure(e)
        case Success(text) => Success(texts + [text])
  }

  /** The loop step: collecting one more outcome. */
  lemma CollectStep(outcomes: seq<Result<string, Error>>, i: nat, texts: seq<string>, text: string)
    requires i < |outcomes| && Collect(outcomes[..i]) == Success(texts) && outcomes[i] == Success(text)
    ensures Collect(outcomes[..i + 1]) == Success(texts + [text])
  {
    assert outcomes[..i + 1][..i] == outcomes[..i];
  }

  /** The loop exit on a throw: the first error is the result. */
  lemma CollectStops(outcomes: seq<Result<string, Error>>, i: nat, texts: seq<string>)
    requires i < |outcomes| && Collect(outcomes[..i]) == Success(texts) && outcomes[i].Failure?
    ensures Collect(outcomes) == Failure(outcomes[i].error)
    decreases |outcomes| - i
  {
    assert outcomes[..i + 1][..i] == outcomes[..i];
    if i + 1 < |outcomes| {
      CollectFailed(outcomes, i + 1, outcomes[i].error);
    } else {
      assert outcomes[..i + 1] == outcomes;
    }
  }

  /** A prefix that failed fixes the result of the whole sequence. */
  lemma {:induction false} CollectFailed(outcomes: seq<Result<string, Error>>, i: nat, e: Error)
    requires i <= |outcomes| && Collect(outcomes[..i]) == Failure(e)
    ensures Collect(outcomes) == Failure(e)
    decreases |outcomes| - i
  {
    if i == |outcomes| {
      assert outcomes[..i] == outcomes;
    } else {
      assert outcomes[..i + 1][..i] == outcomes[..i];
      CollectFailed(outcomes, i + 1, e);
    }
  }

  /** The `forEach` over the pages: each page rendered in turn with the context `{}`; a throw ends the loop. */
  method RenderPages(files: map<string, File>, order: seq<string>, layouts: map<string, Entry>,
                     defaultLayout: string, staticLayout: string, engine: Renderer) returns (r: Result<seq<string>, Error>)
    requires Matched(order, files)
    ensures r == Collect(Outcomes(files, order, layouts, defaultLayout, staticLayout, engine))
  {
    ghost var outcomes := Outcomes(files, order, layouts, defaultLayout, staticLayout, engine);
    var texts := [];
    var i := 0;
    while i < |order|
      invariant 0 <= i <= |order|
      invariant outcomes == Outcomes(files, order, layouts, defaultLayout, staticLayout, engine)
      invariant Collect(outcomes[..i]) == Success(texts)
    {
      var text := RenderTemplate(engine, files[order[i]], order[i], layouts, defaultLayout, staticLayout, EmptyContext);
      OutcomeAt(files, order, layouts, defaultLayout, staticLayout, engine, i);
      if text.Failure? {
        CollectStops(outcomes, i, texts);
        return Failure(text.error);
      }
      CollectStep(outcomes, i, texts, text.value);
      texts := texts + [text.value];
      i := i + 1;
    }
    assert outcomes[..i] == outcomes;
    r := Success(texts);
  }

  /**
    The function `twigPlugin(config)` returns, applied to a file map: build
    the registry, check the configuration, select the pages and render each
    one. The rendered texts are returned here; the source drops them, never
    changes the file map and never calls `done`, which the model reflects by
    changing nothing.
  */
  method Plugin(files: FileMap, config: Config, multimatch: Matcher, engine: Renderer) returns (r: Result<seq<string>, Error>)
    requires files.Valid()
    requires IsSubsequence(multimatch(files.keys, config.layouts), files.keys)
    requires IsSubsequence(multimatch(files.keys, config.pages), files.keys)
    ensures var layouts := GetLayouts(files, config.layouts, config.defaultLayout, multimatch);
      var check := ValidateLayouts(layouts, config.defaultLayout, config.staticLayout);
      var source := ValidateLayoutsAsWritten(layouts, config.defaultLayout, config.staticLayout);
      && (check.Failure? ==> r == Failure(check.error))
      && (source.Failure? ==> r.Failure? && r.error.ConfigError?)
      && (source.Failure? && !Acceptable(layouts, config.defaultLayout, DefaultAlias) ==> r == Failure(source.error))
      && (check.Success? ==> r == Collect(Outcomes(files.entries, MatchKeys(files, config.pages, multimatch), layouts,
                                                   config.defaultLayout, config.staticLayout, engine)))
  {
    var layouts := GetLayouts(files, config.layouts, config.defaultLayout, multimatch);
    var check := ValidateLayouts(layouts, config.defaultLayout, config.staticLayout);
    CorrectedCheckAgrees(layouts, config.defaultLayout, config.staticLayout);
    if check.Failure? {
      return Failure(check.error);
    }
    ghost var pages := GetPages(files, config.pages, multimatch);
    PagesAreMatches(files, config.pages, multimatch);
    // Object.keys(pages): the matched paths, once each, in match order.
    var order := MatchKeys(files, config.pages, multimatch);
    assert forall p :: p in pages <==> p in order;
    r := RenderPages(files.entries, order, layouts, config.defaultLayout, config.staticLayout, engine);
  }
}
