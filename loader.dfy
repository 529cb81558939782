/** Loading a package by import path, with the optional cache of the
    importer (impast.go:25-27, 51-81). */
module Loader {
  import opened Ast
  import opened Errors

  predicate HasSuffix(s: string, suffix: string) {
    |suffix| <= |s| && s[|s| - |suffix|..] == suffix
  }

  /** `ignoreTestFile`: the file filter given to the parser, which keeps
      every file but the `_test.go` ones. */
  predicate IgnoreTestFile(fileName: string) {
    !HasSuffix(fileName, "_test.go")
  }

  /** A Go source file `base.go` is parsed exactly when `base` does not end
      in `_test`. */
  lemma IgnoreTestFileOnGoFiles(base: string)
    ensures IgnoreTestFile(base + ".go") <==> !HasSuffix(base, "_test")
  {
    var s := base + ".go";
    if |base| >= 5 {
      assert s[|s| - 8..] == base[|base| - 5..] + ".go";
      if s[|s| - 8..] == "_test.go" {
        assert base[|base| - 5..] == s[|s| - 8..][..5];
      }
    }
  }

  /** What the model asks of the world outside: the build system
      (`build.Import` with `FindOnly`, giving the package directory), the
      parser (`parser.ParseDir` with a file filter, giving the packages of a
      directory by name) and `strconv.Unquote`. */
  datatype Host = Host(
    locate: string -> Result<string>,
    parseDir: (string, string -> bool) -> Result<map<string, Package>>,
    unquote: string -> Result<string>)

  /** The importer's settings: the host it loads through and `EnableCache`. */
  datatype Config = Config(host: Host, enableCache: bool)

  /** The importer's cache, keyed by import path. */
  type Cache = map<string, Package>

  /** A result together with the cache after the call. */
  datatype Outcome<T> = Outcome(result: Result<T>, cache: Cache)

  /** The packages a directory yields once `main` is dropped from several. */
  function Candidates(pkgs: map<string, Package>): map<string, Package> {
    if |pkgs| > 1 then pkgs - {"main"} else pkgs
  }

  lemma CandidatesCount(pkgs: map<string, Package>)
    ensures |Candidates(pkgs)| == if |pkgs| > 1 && "main" in pkgs then |pkgs| - 1 else |pkgs|
  {
    if |pkgs| > 1 && "main" in pkgs {
      assert Candidates(pkgs).Keys == pkgs.Keys - {"main"};
    } else if |pkgs| > 1 {
      assert Candidates(pkgs) == pkgs;
    }
  }

  lemma SingleKey(m: map<string, Package>, k: string, k': string)
    requires |m| == 1 && k in m && k' in m
    ensures k == k'
  {
    var others := m.Keys - {k};
    assert m.Keys == others + {k};
    assert |others| == 0;
    assert k' !in others;
  }

  /** The package `ImportPackage` picks among those of a directory: the only
      one, or the only one besides `main`; any other count is ambiguous. */
  function SelectPackage(pkgs: map<string, Package>): (r: Result<Package>)
    ensures r.Ok? <==> |pkgs| == 1 || (|pkgs| == 2 && "main" in pkgs)
    ensures r.Err? ==> r.error == AmbiguousPackages(if |pkgs| > 1 && "main" in pkgs then |pkgs| - 1 else |pkgs|)
    ensures r.Ok? ==> exists k :: k in pkgs && pkgs[k] == r.value && (|pkgs| > 1 ==> k != "main")
  {
    var rest := Candidates(pkgs);
    CandidatesCount(pkgs);
    if |rest| != 1 then Err(AmbiguousPackages(|rest|))
    else
      assert forall k, k' :: k in rest && k' in rest ==> k == k' by {
        forall k, k' | k in rest && k' in rest ensures k == k' { SingleKey(rest, k, k'); }
      }
      var k :| k in rest; Ok(rest[k])
  }

  /** `parser.ParseDir` files each package under its own name. `Host` does
      not demand this of `parseDir`; the lemma below assumes it. */
  predicate FiledByPackageName(pkgs: map<string, Package>) {
    forall k :: k in pkgs ==> pkgs[k].name == k
  }

  /** On packages filed by name, the pick is the package under its own
      name, and never the `main` package when there were several. */
  lemma SelectPackageName(pkgs: map<string, Package>)
    requires FiledByPackageName(pkgs)
    ensures var r := SelectPackage(pkgs);
      r.Ok? ==> r.value.name in pkgs && pkgs[r.value.name] == r.value && (|pkgs| > 1 ==> r.value.name != "main")
  {
    var r := SelectPackage(pkgs);
    if r.Ok? {
      var k :| k in pkgs && pkgs[k] == r.value && (|pkgs| > 1 ==> k != "main");
      assert r.value.name == k;
    }
  }

  /** `ImportPackage` without the cache: locate the directory, parse it
      without its test files, pick the package. */
  function LoadPackage(host: Host, path: string): (r: Result<Package>)
    ensures host.locate(path).Err? ==> r == Err(Wrapped(FailedToImport, host.locate(path).error))
    ensures host.locate(path).Ok? && host.parseDir(host.locate(path).value, IgnoreTestFile).Err? ==>
      r == Err(Wrapped(BrokenPackage(host.locate(path).value), host.parseDir(host.locate(path).value, IgnoreTestFile).error))
    ensures r.Ok? ==>
      && host.locate(path).Ok?
      && host.parseDir(host.locate(path).value, IgnoreTestFile).Ok?
      && r.value in host.parseDir(host.locate(path).value, IgnoreTestFile).value.Values
  {
    match host.locate(path)
    case Err(e) => Err(Wrapped(FailedToImport, e))
    case Ok(dir) =>
      match host.parseDir(dir, IgnoreTestFile)
      case Err(e) => Err(Wrapped(BrokenPackage(dir), e))
      case Ok(pkgs) => SelectPackage(pkgs)
  }

  /** `ImportPackage`: a cached package when caching is on and the path is
      cached; otherwise a fresh load, stored when caching is on and it
      succeeded. */
  function ImportPackage(conf: Config, cache: Cache, path: string): (o: Outcome<Package>)
    ensures conf.enableCache && path in cache ==> o == Outcome(Ok(cache[path]), cache)
    ensures !(conf.enableCache && path in cache) ==> o.result == LoadPackage(conf.host, path)
  {
    if conf.enableCache && path in cache then Outcome(Ok(cache[path]), cache)
    else
      var r := LoadPackage(conf.host, path);
      Outcome(r, if conf.enableCache && r.Ok? then cache[path := r.value] else cache)
  }

  /** `cache'` keeps every entry of `cache` and adds only paths of `paths`. */
  predicate Extends(cache: Cache, cache': Cache, paths: set<string>) {
    (forall p :: p in cache ==> p in cache' && cache'[p] == cache[p]) &&
    (forall p :: p in cache' ==> p in cache || p in paths)
  }

  lemma ExtendsTransitive(c0: Cache, c1: Cache, c2: Cache, p1: set<string>, p2: set<string>)
    requires Extends(c0, c1, p1) && Extends(c1, c2, p2)
    ensures Extends(c0, c2, p1 + p2)
  {
  }

  /** With caching off the cache is never touched; with it on, an import
      only adds its own path and only when it succeeds, and a successful
      import leaves its package cached. */
  lemma ImportCache(conf: Config, cache: Cache, path: string)
    ensures var o := ImportPackage(conf, cache, path);
      && (!conf.enableCache ==> o.cache == cache)
      && (o.result.Err? ==> o.cache == cache)
      && Extends(cache, o.cache, {path})
      && (conf.enableCache && o.result.Ok? ==> path in o.cache && o.cache[path] == o.result.value)
  {
  }

  /** With caching on, importing a path a second time gives the same
      package and loads nothing. */
  lemma ImportTwice(conf: Config, cache: Cache, path: string)
    requires conf.enableCache
    requires ImportPackage(conf, cache, path).result.Ok?
    ensures var o := ImportPackage(conf, cache, path);
      ImportPackage(conf, o.cache, path) == Outcome(o.result, o.cache)
  {
  }

  /** What importing `path` gives on `cache`: the cached package when
      caching is on and the path is cached, a fresh load otherwise. Unlike
      `Coherent`, this describes every cache, one filled by `Load` too. */
  function Bound(conf: Config, cache: Cache, path: string): Result<Package> {
    if conf.enableCache && path in cache then Ok(cache[path]) else LoadPackage(conf.host, path)
  }

  /** An import gives what its path is bound to and leaves every path bound
      as it was: a package it stores is the one a later load would give. */
  lemma ImportBound(conf: Config, cache: Cache, path: string)
    ensures ImportPackage(conf, cache, path).result == Bound(conf, cache, path)
    ensures forall q :: Bound(conf, ImportPackage(conf, cache, path).cache, q) == Bound(conf, cache, q)
  {
  }

  /** On a coherent cache a path is bound to what loading it gives. */
  lemma CoherentBound(conf: Config, cache: Cache, path: string)
    requires Coherent(conf.host, cache)
    ensures Bound(conf, cache, path) == LoadPackage(conf.host, path)
  {
  }

  /** Every cached package is the one loading its path gives: true of the
      entries `ImportPackage` stores, not necessarily of those `Load` is handed. */
  predicate Coherent(host: Host, cache: Cache) {
    forall p :: p in cache ==> LoadPackage(host, p) == Ok(cache[p])
  }

  /** On a coherent cache an import gives what loading gives, and the cache
      stays coherent. */
  lemma ImportCoherent(conf: Config, cache: Cache, path: string)
    requires Coherent(conf.host, cache)
    ensures ImportPackage(conf, cache, path).result == LoadPackage(conf.host, path)
    ensures Coherent(conf.host, ImportPackage(conf, cache, path).cache)
  {
  }
}
