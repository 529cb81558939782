/** The importer object: the cache it fills and the operations that go
    through it (impast.go:29-81, 165-317). */
module Importer {
  import opened Ast
  import opened Errors
  import opened Loader
  import opened Declarations
  import opened Resolution
  import opened Ordering
  import opened MethodSets

  /** The declaration scan once the current file's remaining declarations
      have given `r`: the files after it continue from its state. */
  ghost function ThenFiles(conf: Config, k: nat, pkg: Package, name: string, r: Run<Outcome<Scan>>, files: seq<File>): Run<Outcome<Scan>> {
    match r
    case Stuck => Stuck
    case Done(o) =>
      match o.result
      case Err(e) => Done(Outcome(Err(e), o.cache))
      case Ok(st) => ScanFiles(conf, k, o.cache, pkg, name, files, st)
  }

  /** The entries of `m` under the keys of `ks`. */
  function Restrict(m: map<string, Decl>, ks: set<string>): map<string, Decl> {
    map n | n in m.Keys && n in ks :: m[n]
  }

  lemma RestrictAdd(m: map<string, Decl>, done: set<string>, n: string)
    requires FiledByName(m) && n in m && n !in done
    ensures FiledByName(Restrict(m, done)) && n !in Restrict(m, done)
    ensures Restrict(m, done)[n := m[n]] == Restrict(m, done + {n})
  {
  }

  lemma RestrictBounds(m: map<string, Decl>)
    ensures Restrict(m, {}) == map[] && Restrict(m, m.Keys) == m
  {
  }

  /** The list `MethodList` has built once the names in `done` are in. */
  ghost function ListedSoFar(pkg: Package, m: map<string, Decl>, done: set<string>): seq<Decl> {
    ExportAll(pkg, SortedValues(Restrict(m, done)))
  }

  lemma MethodListStep(pkg: Package, m: map<string, Decl>, done: set<string>, n: string)
    requires FiledByName(m) && n in m && n !in done
    ensures ListedSoFar(pkg, m, done + {n}) == InsertByName(ListedSoFar(pkg, m, done), ExportMethod(pkg, m[n]))
  {
    RestrictAdd(m, done, n);
    var sub := Restrict(m, done);
    SortedValuesInsert(sub, n, m[n]);
    ExportAllInsert(pkg, SortedValues(sub), m[n]);
  }

  /** The end of `GetMethodsDeep`: each collected method, qualified, goes
      into the list at the place its name sorts to, which is appending them
      all and sorting by name. */
  method MethodList(pkg: Package, m: map<string, Decl>) returns (methods: seq<Decl>)
    requires FiledByName(m)
    ensures methods == ExportAll(pkg, SortedValues(m))
  {
    methods := [];
    var todo := m.Keys;
    ghost var done: set<string> := {};
    RestrictBounds(m);
    while todo != {}
      invariant todo <= m.Keys && done == m.Keys - todo
      invariant methods == ListedSoFar(pkg, m, done)
      decreases |todo|
    {
      var n :| n in todo;
      MethodListStep(pkg, m, done, n);
      methods := InsertByName(methods, ExportMethod(pkg, m[n]));
      todo := todo - {n};
      done := done + {n};
    }
    assert done == m.Keys;
  }

  /** `Importer`: the `EnableCache` switch and the cache of packages by
      import path. Parsing and locating go through `host`. The package-level
      functions of the same names use `DefaultImporter`, an importer with
      caching off. */
  class Importer {
    const host: Host
    var enableCache: bool
    var cache: Cache

    constructor (host: Host, enableCache: bool)
      ensures this.host == host && this.enableCache == enableCache && cache == map[]
    {
      this.host := host;
      this.enableCache := enableCache;
      cache := map[];
    }

    function Conf(): Config
      reads this`enableCache
    {
      Config(host, enableCache)
    }

    /** `Load`: every package handed in is cached under its path, replacing
      what was there; nothing else changes. */
    method Load(pkgs: map<string, Package>)
      modifies this`cache
      ensures cache == old(cache) + pkgs
    {
      var todo := pkgs.Keys;
      while todo != {}
        invariant todo <= pkgs.Keys
        invariant cache == old(cache) + (map p | p in pkgs.Keys - todo :: pkgs[p])
        decreases |todo|
      {
        var p :| p in todo;
        ghost var done := pkgs.Keys - todo;
        assert (map q | q in done :: pkgs[q])[p := pkgs[p]] == map q | q in pkgs.Keys - (todo - {p}) :: pkgs[q];
        cache := cache[p := pkgs[p]];
        todo := todo - {p};
      }
      assert (map p | p in pkgs.Keys - {} :: pkgs[p]) == pkgs;
    }

    /** `Loaded`: every cached path, each once, in no particular order. */
    method Loaded() returns (paths: seq<string>)
      ensures forall p :: p in paths <==> p in cache
      ensures forall i, j :: 0 <= i < j < |paths| ==> paths[i] != paths[j]
    {
      paths := [];
      var todo := cache.Keys;
      while todo != {}
        invariant todo <= cache.Keys
        invariant forall p :: p in paths <==> p in cache && p !in todo
        invariant forall i, j :: 0 <= i < j < |paths| ==> paths[i] != paths[j]
        decreases |todo|
      {
        var p :| p in todo;
        paths := paths + [p];
        todo := todo - {p};
      }
    }

    /** `ImportPackage`, as the method on the importer's cache. */
    method ImportPackage(path: string) returns (r: Result<Package>)
      modifies this`cache
      ensures var o := Loader.ImportPackage(Conf(), old(cache), path);
        r == o.result && cache == o.cache
    {
      if enableCache && path in cache {
        return Ok(cache[path]);
      }
      var dir := host.locate(path);
      if dir.Err? {
        return Err(Wrapped(FailedToImport, dir.error));
      }
      var parsed := host.parseDir(dir.value, IgnoreTestFile);
      if parsed.Err? {
        return Err(Wrapped(BrokenPackage(dir.value), parsed.error));
      }
      var pkgs := parsed.value;
      if |pkgs| > 1 {
        pkgs := pkgs - {"main"};
      }
      if |pkgs| != 1 {
        return Err(AmbiguousPackages(|pkgs|));
      }
      var p :| p in pkgs;
      assert SelectPackage(parsed.value) == Ok(pkgs[p]) by {
        forall q | q in pkgs ensures q == p { SingleKey(pkgs, p, q); }
      }
      if enableCache {
        cache := cache[path := pkgs[p]];
      }
      return Ok(pkgs[p]);
    }

    /** `ResolvePackage`, as the loop over the file's imports. */
    method ResolvePackage(f: File, name: string) returns (r: Result<Package>)
      modifies this`cache
      ensures var o := Resolution.ResolvePackage(Conf(), old(cache), f.imports, name);
        r == o.result && cache == o.cache
    {
      var i := 0;
      while i < |f.imports|
        invariant 0 <= i <= |f.imports|
        invariant Resolution.ResolvePackage(Conf(), old(cache), f.imports, name) ==
          Resolution.ResolvePackage(Conf(), cache, f.imports[i..], name)
      {
        var imp := f.imports[i];
        assert f.imports[i..][0] == imp && f.imports[i..][1..] == f.imports[i + 1..];
        var p := host.unquote(imp.path);
        if p.Err? {
          return Err(Wrapped(InvalidImportPath(imp.path), p.error));
        }
        if imp.alias.None? || imp.alias.value == name {
          var pkg := ImportPackage(p.value);
          if pkg.Err? {
            return Err(Wrapped(FailedToImportPath(p.value), pkg.error));
          }
          if imp.alias.Some? || pkg.value.name == name {
            return pkg;
          }
        }
        i := i + 1;
      }
      return Err(PackageNotFound);
    }

    /** `ResolveType`, as the method on the importer's cache. */
    method ResolveType(f: File, e: Expr) returns (r: Result<(Option<Package>, string)>)
      requires Embeddable(e)
      modifies this`cache
      ensures var o := Resolution.ResolveType(Conf(), old(cache), f, e);
        r == o.result && cache == o.cache
    {
      var t := e;
      if t.Star? {
        t := t.x;
      }
      if t.Selector? {
        var pkg := ResolvePackage(f, t.pkg);
        if pkg.Err? {
          return Err(Wrapped(FailedToResolvePackage(t.sel), pkg.error));
        }
        return Ok((Some(pkg.value), t.sel));
      } else if IsExported(t.name) {
        var pkg := ImportPackage(".");
        if pkg.Err? {
          return Err(Wrapped(FailedToImportSelf, pkg.error));
        }
        return Ok((Some(pkg.value), t.name));
      }
      return Ok((None, t.name));
    }

    /** `GetMethodsDeep`: the nested loops over files and declarations,
      then the method set, qualified and sorted by name. `fuel` bounds the
      nesting of the calls; the result is the one `Deep` describes. */
    method GetMethodsDeep(pkg: Package, name: string, ghost fuel: nat) returns (r: Result<seq<Decl>>)
      requires Deep(Conf(), fuel, cache, pkg, name).Done?
      modifies this`cache
      ensures var o := Deep(Conf(), fuel, old(cache), pkg, name).value;
        r == o.result && cache == o.cache
      decreases fuel, 0
    {
      ghost var k := fuel - 1;
      ghost var whole := ScanFiles(Conf(), k, cache, pkg, name, pkg.files, Scan(map[], false));
      var m: map<string, Decl> := map[];
      var found := false;
      var fi := 0;
      while fi < |pkg.files|
        invariant 0 <= fi <= |pkg.files|
        invariant whole == ScanFiles(Conf(), k, cache, pkg, name, pkg.files[fi..], Scan(m, found))
        invariant whole.Done?
      {
        var f := pkg.files[fi];
        assert pkg.files[fi..][0] == f && pkg.files[fi..][1..] == pkg.files[fi + 1..];
        var di := 0;
        while di < |f.decls|
          invariant 0 <= di <= |f.decls|
          invariant whole == ThenFiles(Conf(), k, pkg, name, ScanDecls(Conf(), k, cache, pkg, f, name, f.decls[di..], Scan(m, found)), pkg.files[fi + 1..])
        {
          var d := f.decls[di];
          assert f.decls[di..][0] == d && f.decls[di..][1..] == f.decls[di + 1..];
          match d {
          case FuncDecl(_, _, _) =>
            if IsOwnMethod(name, d) && IsExported(d.name) {
              m := m[d.name := d];
            }
          case BadDecl =>
          case GenDecl(_, _) =>
            if !found {
              var st := LookUpStruct(d, name);
              if st.Err? {
                return Err(Wrapped(FailedToFindStruct(d), st.error));
              }
              if st.value.Some? {
                found := true;
                var es := CollectEmbedded(st.value.value);
                var res := ResolveMethodsDeep(pkg, f, es, m, k);
                if res.Err? {
                  return Err(Wrapped(FailedToResolveMethods, res.error));
                }
                m := res.value;
              }
            }
          }
          di := di + 1;
        }
        fi := fi + 1;
      }
      if !found {
        return Err(TypeNotFound);
      }
      ScanFilesSound(Conf(), k, old(cache), pkg, name, pkg.files, Scan(map[], false));
      assert FiledByName(m);
      var methods := MethodList(pkg, m);
      return Ok(methods);
    }

    /** `getEmbeddedMethods`: the deep method set of an embedded type, in
      its own package or, unqualified and unexported, in `pkg`. */
    method GetEmbeddedMethods(pkg: Package, f: File, t: Expr, ghost k: nat) returns (r: Result<seq<Decl>>)
      requires EmbeddedMethods(Conf(), k, cache, pkg, f, t).Done?
      modifies this`cache
      ensures var o := EmbeddedMethods(Conf(), k, old(cache), pkg, f, t).value;
        r == o.result && cache == o.cache
      decreases k, 1
    {
      var res := ResolveType(f, t);
      if res.Err? {
        return Err(Wrapped(FailedToResolveType, res.error));
      }
      var p := if res.value.0.None? then pkg else res.value.0.value;
      r := GetMethodsDeep(p, res.value.1, k);
    }

    /** `resolveMethodsDeep`: for each embedded type in turn, its methods
      are added where the name is still free. The Go function fills the
      caller's map; this one returns the filled map. */
    method ResolveMethodsDeep(pkg: Package, f: File, embedded: seq<Expr>, dest: map<string, Decl>, ghost k: nat)
      returns (r: Result<map<string, Decl>>)
      requires ResolveMethods(Conf(), k, cache, pkg, f, embedded, dest).Done?
      modifies this`cache
      ensures var o := ResolveMethods(Conf(), k, old(cache), pkg, f, embedded, dest).value;
        r == o.result && cache == o.cache
      decreases k, 2
    {
      var d := dest;
      var i := 0;
      while i < |embedded|
        invariant 0 <= i <= |embedded|
        invariant ResolveMethods(Conf(), k, old(cache), pkg, f, embedded, dest) ==
          ResolveMethods(Conf(), k, cache, pkg, f, embedded[i..], d)
      {
        assert embedded[i..][0] == embedded[i] && embedded[i..][1..] == embedded[i + 1..];
        var ms := GetEmbeddedMethods(pkg, f, embedded[i], k);
        if ms.Err? {
          return Err(Wrapped(FailedToGetEmbeddedMethods(embedded[i]), ms.error));
        }
        ghost var d0 := d;
        var j := 0;
        while j < |ms.value|
          invariant 0 <= j <= |ms.value|
          invariant AddAbsent(d0, ms.value) == AddAbsent(d, ms.value[j..])
        {
          var fn := ms.value[j];
          assert ms.value[j..][0] == fn && ms.value[j..][1..] == ms.value[j + 1..];
          if NameOf(fn) !in d {
            d := d[NameOf(fn) := fn];
          }
          j := j + 1;
        }
        i := i + 1;
      }
      return Ok(d);
    }
  }
}
