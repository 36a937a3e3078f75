/**
  The template loader of metalsmith/nodeLoader.js: a nunjucks file-system
  loader that looks a template name up under its search paths, then among the
  packages installed in the working directory's `node_modules`, then, in a
  Lerna monorepo, among those installed two directories up; and that resolves
  a template referenced from another one against the search paths.

  The file system, Node's module resolution and path arithmetic are oracles
  gathered in a `Host`.
*/
module Loader {
  import opened Wrappers
  import Paths
  import FrontMatter

  /**
    The environment the loader consults.
    - `present`: the paths `fs.existsSync` accepts.
    - `readable`: what `fs.readFileSync(path, 'utf-8')` returns; a path that
      is not a key makes it throw.
    - `modules`: what `require.resolve(request)` returns; a request that is
      not a key makes it throw.
    - `cwd`: `process.cwd()`; `lerna`: the result of `isLernaProject()`.
    - `resolveIn(dir, name)`: `path.resolve(dir, name)`.
    - `join(parts)`: `path.join(...parts)`; `resolveJoin(parts)`:
      `path.resolve(path.join(...parts))`.
  */
  datatype Host = Host(
    present: set<string>,
    readable: map<string, string>,
    modules: map<string, string>,
    cwd: string,
    lerna: bool,
    resolveIn: (string, string) -> string,
    join: seq<string> -> string,
    resolveJoin: seq<string> -> string)

  /** The user-supplied object that collects the paths found outside the search paths, by template name. */
  class Reporter {
    var entries: map<string, string>

    constructor ()
      ensures entries == map[]
    {
      entries := map[];
    }
  }

  /** A given `opts` object: its `reporter` (null when it has none) and its `noCache` truthiness. */
  datatype LoaderOptions = LoaderOptions(reporter: Reporter?, noCache: bool)

  /** The step of the lookup that found a template. */
  datatype Hit = SearchPathHit(index: nat) | NodeModulesHit | LernaHit

  /** Where a template was found, and by which step. */
  datatype Location = Location(path: string, hit: Hit)

  /** What `getSource` returns: the loaded template, `null`, or the exception of a read that fails. */
  datatype Source = Source(src: string, path: string, noCache: bool)
  datatype Lookup = NotFound | Found(source: Source) | ReadFailed(path: string)

  /** The module request of the `node_modules` fallback. */
  function NodeModulesRequest(host: Host, name: string): string {
    host.join([host.cwd, "node_modules", name])
  }

  /** The module request of the Lerna fallback: the `node_modules` two directories up. */
  function LernaRequest(host: Host, name: string): string {
    host.join([host.cwd, "..", "..", "node_modules", name])
  }

  /** The candidate for `name` under the search path `dir`. */
  function Candidate(host: Host, dir: string, name: string): string {
    host.resolveIn(dir, name)
  }

  /** The first search path at or after `from` under which `name` exists. */
  function FirstExisting(host: Host, paths: seq<string>, name: string, from: nat): (r: Option<nat>)
    requires from <= |paths|
    ensures r.Some? ==> from <= r.value < |paths| && Candidate(host, paths[r.value], name) in host.present
    ensures r.Some? ==> forall j :: from <= j < r.value ==> Candidate(host, paths[j], name) !in host.present
    ensures r.None? ==> forall j :: from <= j < |paths| ==> Candidate(host, paths[j], name) !in host.present
    decreases |paths| - from
  {
    if from == |paths| then None
    else if Candidate(host, paths[from], name) in host.present then Some(from)
    else FirstExisting(host, paths, name, from + 1)
  }

  /** The lookup of `getSource`: the search paths in order, then `node_modules`, then the Lerna root. */
  function Locate(host: Host, paths: seq<string>, name: string): Option<Location> {
    match FirstExisting(host, paths, name, 0)
    case Some(i) => Some(Location(Candidate(host, paths[i], name), SearchPathHit(i)))
    case None =>
      if NodeModulesRequest(host, name) in host.modules then
        Some(Location(host.modules[NodeModulesRequest(host, name)], NodeModulesHit))
      else if host.lerna && LernaRequest(host, name) in host.modules then
        Some(Location(host.modules[LernaRequest(host, name)], LernaHit))
      else None
  }

  /** No search path holds `name`. */
  predicate MissesSearchPaths(host: Host, paths: seq<string>, name: string) {
    forall j :: 0 <= j < |paths| ==> Candidate(host, paths[j], name) !in host.present
  }

  /**
    A search path wins exactly when it is the first, in order, under which
    the name exists; the paths after it are not consulted.
  */
  lemma SearchPathWins(host: Host, paths: seq<string>, name: string, i: nat)
    ensures (Locate(host, paths, name).Some? && Locate(host, paths, name).value.hit == SearchPathHit(i)) <==>
      && i < |paths|
      && Candidate(host, paths[i], name) in host.present
      && forall j :: 0 <= j < i ==> Candidate(host, paths[j], name) !in host.present
    ensures Locate(host, paths, name).Some? && Locate(host, paths, name).value.hit == SearchPathHit(i) ==>
      Locate(host, paths, name).value.path == Candidate(host, paths[i], name)
  {
    var f := FirstExisting(host, paths, name, 0);
    if i < |paths| && Candidate(host, paths[i], name) in host.present {
      assert f.Some? && f.value <= i;
    }
  }

  /** The `node_modules` fallback answers exactly when no search path holds the name and the module resolves. */
  lemma NodeModulesOnlyOnMiss(host: Host, paths: seq<string>, name: string)
    ensures (Locate(host, paths, name).Some? && Locate(host, paths, name).value.hit == NodeModulesHit) <==>
      MissesSearchPaths(host, paths, name) && NodeModulesRequest(host, name) in host.modules
  {
    if MissesSearchPaths(host, paths, name) {
      assert FirstExisting(host, paths, name, 0).None?;
    }
  }

  /** The Lerna fallback answers exactly when both earlier steps fail, the project is a Lerna one and the module resolves there. */
  lemma LernaOnlyWhenBothFail(host: Host, paths: seq<string>, name: string)
    ensures (Locate(host, paths, name).Some? && Locate(host, paths, name).value.hit == LernaHit) <==>
      && MissesSearchPaths(host, paths, name)
      && NodeModulesRequest(host, name) !in host.modules
      && host.lerna && LernaRequest(host, name) in host.modules
  {
    if MissesSearchPaths(host, paths, name) {
      assert FirstExisting(host, paths, name, 0).None?;
    }
  }

  /** Nothing is found exactly when every step fails. */
  lemma AllStepsFail(host: Host, paths: seq<string>, name: string)
    ensures Locate(host, paths, name).None? <==>
      && MissesSearchPaths(host, paths, name)
      && NodeModulesRequest(host, name) !in host.modules
      && !(host.lerna && LernaRequest(host, name) in host.modules)
  {
    if MissesSearchPaths(host, paths, name) {
      assert FirstExisting(host, paths, name, 0).None?;
    }
  }

  /** A template under a search path is found there whatever the fallbacks would answer. */
  lemma SearchPathsBeforeFallbacks(host: Host, other: Host, paths: seq<string>, name: string)
    requires other.present == host.present && other.resolveIn == host.resolveIn
    requires !MissesSearchPaths(host, paths, name)
    ensures Locate(host, paths, name) == Locate(other, paths, name)
    ensures Locate(host, paths, name).Some? && Locate(host, paths, name).value.hit.SearchPathHit?
  {
    FirstExistingAgrees(host, other, paths, name, 0);
    var j :| 0 <= j < |paths| && Candidate(host, paths[j], name) in host.present;
    assert FirstExisting(host, paths, name, 0).Some?;
  }

  /** The search-path scan consults only `present` and `resolveIn`. */
  lemma {:induction false} FirstExistingAgrees(host: Host, other: Host, paths: seq<string>, name: string, from: nat)
    requires other.present == host.present && other.resolveIn == host.resolveIn
    requires from <= |paths|
    ensures FirstExisting(host, paths, name, from) == FirstExisting(other, paths, name, from)
    decreases |paths| - from
  {
    if from < |paths| {
      FirstExistingAgrees(host, other, paths, name, from + 1);
    }
  }

  /** One prefix of `resolve`: the directory of `from` joined with `to` first, then `from` itself as a directory. */
  function TryPrefix(host: Host, next: string, from: string, to: string): Option<string> {
    var sibling := host.resolveJoin([next, Paths.ParseDir(from), to]);
    var nested := host.resolveJoin([next, from, to]);
    if sibling in host.present then Some(sibling)
    else if nested in host.present then Some(nested)
    else None
  }

  /** The `reduce` callback of `resolve`: a found path is passed on, otherwise the next prefix is tried. */
  function ResolveStep(host: Host, from: string, to: string, found: Option<string>, next: string): Option<string> {
    if found.Some? then found else TryPrefix(host, next, from, to)
  }

  /** The `reduce` of `resolve` from `null` over `prefixes`, left to right. */
  function ResolveFold(host: Host, from: string, to: string, prefixes: seq<string>): Option<string>
    decreases |prefixes|
  {
    if prefixes == [] then None
    else ResolveStep(host, from, to, ResolveFold(host, from, to, prefixes[..|prefixes| - 1]), prefixes[|prefixes| - 1])
  }

  /** The reference search: the answer of the first prefix that has one. */
  function FirstHit(host: Host, from: string, to: string, prefixes: seq<string>): (r: Option<string>)
    ensures r.Some? ==>
      exists i :: 0 <= i < |prefixes| && TryPrefix(host, prefixes[i], from, to) == r && forall j :: 0 <= j < i ==> TryPrefix(host, prefixes[j], from, to).None?
    ensures r.None? ==> forall i :: 0 <= i < |prefixes| ==> TryPrefix(host, prefixes[i], from, to).None?
    decreases |prefixes|
  {
    if prefixes == [] then None
    else if TryPrefix(host, prefixes[0], from, to).Some? then TryPrefix(host, prefixes[0], from, to)
    else
      var r := FirstHit(host, from, to, prefixes[1..]);
      assert forall i :: 0 <= i < |prefixes| - 1 ==> prefixes[1..][i] == prefixes[i + 1];
      r
  }

  /** Searching a sequence extended by one prefix: the earlier answer if there is one, else the new prefix's. */
  lemma {:induction false} FirstHitSnoc(host: Host, from: string, to: string, prefixes: seq<string>, next: string)
    ensures FirstHit(host, from, to, prefixes + [next]) ==
      if FirstHit(host, from, to, prefixes).Some? then FirstHit(host, from, to, prefixes) else TryPrefix(host, next, from, to)
    decreases |prefixes|
  {
    if prefixes != [] {
      assert (prefixes + [next])[1..] == prefixes[1..] + [next];
      FirstHitSnoc(host, from, to, prefixes[1..], next);
    }
  }

  /** The short-circuiting fold is the first-hit search. */
  lemma {:induction false} ResolveFoldIsFirstHit(host: Host, from: string, to: string, prefixes: seq<string>)
    ensures ResolveFold(host, from, to, prefixes) == FirstHit(host, from, to, prefixes)
    decreases |prefixes|
  {
    if prefixes != [] {
      var n := |prefixes| - 1;
      ResolveFoldIsFirstHit(host, from, to, prefixes[..n]);
      FirstHitSnoc(host, from, to, prefixes[..n], prefixes[n]);
      assert prefixes[..n] + [prefixes[n]] == prefixes;
    }
  }

  /** Once a prefix has answered, the prefixes after it cannot change the result. */
  lemma {:induction false} ResolveShortCircuits(host: Host, from: string, to: string, prefixes: seq<string>, k: nat)
    requires k <= |prefixes| && ResolveFold(host, from, to, prefixes[..k]).Some?
    ensures ResolveFold(host, from, to, prefixes) == ResolveFold(host, from, to, prefixes[..k])
    decreases |prefixes| - k
  {
    if k == |prefixes| {
      assert prefixes[..k] == prefixes;
    } else {
      assert prefixes[..k + 1][..k] == prefixes[..k];
      ResolveShortCircuits(host, from, to, prefixes, k + 1);
    }
  }

  /** The loader: its search paths, its reporter, the names of the paths it has found, and its caching flag. */
  class NodeLoader {
    var searchPaths: seq<string>
    var reporter: Reporter?
    var pathsToNames: map<string, string>
    var noCache: bool

    /**
      `init(searchPaths, opts)`: with no `opts` the reporter is a fresh empty
      object; with `opts` it is `opts.reporter`, which may be missing. The
      file-system loader's own initialisation starts `pathsToNames` empty and
      takes `noCache` from `opts`.
    */
    constructor (searchPaths: seq<string>, opts: Option<LoaderOptions>)
      ensures this.searchPaths == searchPaths && pathsToNames == map[]
      ensures noCache == (opts.Some? && opts.value.noCache)
      ensures opts.Some? ==> reporter == opts.value.reporter
      ensures opts.None? ==> reporter != null && fresh(reporter) && reporter.entries == map[]
    {
      this.searchPaths := searchPaths;
      this.pathsToNames := map[];
      this.noCache := opts.Some? && opts.value.noCache;
      if opts.Some? {
        this.reporter := opts.value.reporter;
      } else {
        this.reporter := new Reporter();
      }
    }

    /** `resolve(from, to)`: the first hit over the empty prefix and then the search paths. */
    function Resolve(host: Host, from: string, to: string): (r: Option<string>)
      reads this
      ensures r == FirstHit(host, from, to, [""] + searchPaths)
    {
      ResolveFoldIsFirstHit(host, from, to, [""] + searchPaths);
      ResolveFold(host, from, to, [""] + searchPaths)
    }

    /**
      `getSource(name)`: the first search path that holds the name; failing
      that the `node_modules` fallback, and failing both the Lerna fallback,
      each recorded in the reporter when there is one. A found path is
      recorded in `pathsToNames` before the file is read.
    */
    method GetSource(host: Host, name: string) returns (r: Lookup)
      modifies this, reporter
      ensures searchPaths == old(searchPaths) && reporter == old(reporter) && noCache == old(noCache)
      ensures var loc := Locate(host, searchPaths, name);
        && (loc.None? ==> r == NotFound && pathsToNames == old(pathsToNames))
        && (loc.Some? ==> pathsToNames == old(pathsToNames)[loc.value.path := name])
        && (loc.Some? && loc.value.path in host.readable ==>
              r == Found(Source(FrontMatter.IgnoreFrontMatter(host.readable[loc.value.path]), loc.value.path, noCache)))
        && (loc.Some? && loc.value.path !in host.readable ==> r == ReadFailed(loc.value.path))
      ensures var loc := Locate(host, searchPaths, name);
        reporter != null ==>
          reporter.entries == if loc.Some? && !loc.value.hit.SearchPathHit? then old(reporter.entries)[name := loc.value.path]
                              else old(reporter.entries)
    {
      var fullPath: Option<string> := None;
      var paths := searchPaths;
      var i := 0;
      while i < |paths|
        invariant 0 <= i <= |paths|
        invariant fullPath.None?
        invariant forall j :: 0 <= j < i ==> Candidate(host, paths[j], name) !in host.present
      {
        var p := host.resolveIn(paths[i], name);
        if p in host.present {
          fullPath := Some(p);
          break;
        }
        i := i + 1;
      }
      ghost var f := FirstExisting(host, paths, name, 0);
      assert fullPath.Some? ==> f == Some(i) && fullPath.value == Candidate(host, paths[i], name);
      assert fullPath.None? ==> f.None?;
      if fullPath.None? {
        var request := host.join([host.cwd, "node_modules", name]);
        if request in host.modules {
          fullPath := Some(host.modules[request]);
          if reporter != null {
            reporter.entries := reporter.entries[name := fullPath.value];
          }
        }
      }
      if fullPath.None? && host.lerna {
        var request := host.join([host.cwd, "..", "..", "node_modules", name]);
        if request in host.modules {
          fullPath := Some(host.modules[request]);
          if reporter != null {
            reporter.entries := reporter.entries[name := fullPath.value];
          }
        }
      }
      if fullPath.None? {
        return NotFound;
      }
      pathsToNames := pathsToNames[fullPath.value := name];
      if fullPath.value !in host.readable {
        return ReadFailed(fullPath.value);
      }
      r := Found(Source(FrontMatter.IgnoreFrontMatter(host.readable[fullPath.value]), fullPath.value, noCache));
    }
  }
}
