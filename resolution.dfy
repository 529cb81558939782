/** Finding the package behind a package name and the package and name
    behind an embedded type (impast.go:270-317). */
module Resolution {
  import opened Ast
  import opened Errors
  import opened Loader

  /** `ResolvePackage`: the first import of the file that binds `name`:
      an import aliased `name`, or an unaliased import whose package is
      called `name`. Every unaliased import met on the way is imported. */
  function ResolvePackage(conf: Config, cache: Cache, imports: seq<ImportSpec>, name: string): Outcome<Package>
    decreases |imports|
  {
    if imports == [] then Outcome(Err(PackageNotFound), cache)
    else
      var imp := imports[0];
      match conf.host.unquote(imp.path)
      case Err(e) => Outcome(Err(Wrapped(InvalidImportPath(imp.path), e)), cache)
      case Ok(p) =>
        if imp.alias.None? || imp.alias.value == name then
          var o := ImportPackage(conf, cache, p);
          match o.result
          case Err(e) => Outcome(Err(Wrapped(FailedToImportPath(p), e)), o.cache)
          case Ok(pkg) =>
            if imp.alias.Some? || pkg.name == name then Outcome(Ok(pkg), o.cache)
            else ResolvePackage(conf, o.cache, imports[1..], name)
        else ResolvePackage(conf, cache, imports[1..], name)
  }

  /** An import that does not bind `name`: a different alias, or no alias
      and a package of another name. The package is the one the path is
      bound to on `cache`, cached or loaded. */
  predicate Skips(conf: Config, cache: Cache, imp: ImportSpec, name: string) {
    conf.host.unquote(imp.path).Ok? &&
    match imp.alias
    case Some(a) => a != name
    case None =>
      var r := Bound(conf, cache, conf.host.unquote(imp.path).value);
      r.Ok? && r.value.name != name
  }

  /** An import that binds `name` to `pkg`. */
  predicate Picks(conf: Config, cache: Cache, imp: ImportSpec, name: string, pkg: Package) {
    conf.host.unquote(imp.path).Ok? &&
    Bound(conf, cache, conf.host.unquote(imp.path).value) == Ok(pkg) &&
    (imp.alias == Some(name) || (imp.alias == None && pkg.name == name))
  }

  predicate SkipsAll(conf: Config, cache: Cache, imports: seq<ImportSpec>, name: string) {
    forall j :: 0 <= j < |imports| ==> Skips(conf, cache, imports[j], name)
  }

  /** The import paths of `imports` that are well-formed literals. */
  function ImportedPaths(host: Host, imports: seq<ImportSpec>): set<string> {
    set imp | imp in imports && host.unquote(imp.path).Ok? :: host.unquote(imp.path).value
  }

  lemma ImportedPathsTail(host: Host, imports: seq<ImportSpec>)
    requires imports != []
    ensures ImportedPaths(host, imports[1..]) <= ImportedPaths(host, imports)
    ensures host.unquote(imports[0].path).Ok? ==> host.unquote(imports[0].path).value in ImportedPaths(host, imports)
  {
    assert forall x :: x in imports[1..] ==> x in imports;
  }

  /** Resolving a package only caches packages of the file's imports, and
      nothing at all with caching off. */
  lemma {:induction false} ResolvePackageCache(conf: Config, cache: Cache, imports: seq<ImportSpec>, name: string)
    ensures var o := ResolvePackage(conf, cache, imports, name);
      Extends(cache, o.cache, ImportedPaths(conf.host, imports)) && (!conf.enableCache ==> o.cache == cache)
    decreases |imports|
  {
    if imports != [] {
      var imp := imports[0];
      var tail := imports[1..];
      ImportedPathsTail(conf.host, imports);
      if conf.host.unquote(imp.path).Ok? {
        var p := conf.host.unquote(imp.path).value;
        var o := ImportPackage(conf, cache, p);
        ImportCache(conf, cache, p);
        if imp.alias.None? || imp.alias.value == name {
          if o.result.Ok? && !(imp.alias.Some? || o.result.value.name == name) {
            assert ResolvePackage(conf, cache, imports, name) == ResolvePackage(conf, o.cache, tail, name);
            ResolvePackageCache(conf, o.cache, tail, name);
          }
        } else {
          assert ResolvePackage(conf, cache, imports, name) == ResolvePackage(conf, cache, tail, name);
          ResolvePackageCache(conf, cache, tail, name);
        }
      }
    }
  }

  /** The error an import stops the resolution with, if it does: a path
      literal that does not unquote, or a binding import whose package does
      not load. */
  function Failure(conf: Config, cache: Cache, imp: ImportSpec, name: string): Option<Error> {
    match conf.host.unquote(imp.path)
    case Err(e) => Some(Wrapped(InvalidImportPath(imp.path), e))
    case Ok(p) =>
      if (imp.alias.None? || imp.alias.value == name) && Bound(conf, cache, p).Err? then
        Some(Wrapped(FailedToImportPath(p), Bound(conf, cache, p).error))
      else None
  }

  /** The package an import binds `name` to, if it does. */
  function Picked(conf: Config, cache: Cache, imp: ImportSpec, name: string): (r: Option<Package>)
    ensures forall pkg :: Picks(conf, cache, imp, name, pkg) <==> r == Some(pkg)
  {
    match conf.host.unquote(imp.path)
    case Err(_) => None
    case Ok(p) =>
      var b := Bound(conf, cache, p);
      if b.Ok? && (imp.alias == Some(name) || (imp.alias == None && b.value.name == name))
      then Some(b.value)
      else None
  }

  /** The cache after an import that is passed over: an unaliased import has
      been imported, an import with another alias has not. */
  function Passed(conf: Config, cache: Cache, imp: ImportSpec): Cache {
    if imp.alias.None? && conf.host.unquote(imp.path).Ok? then ImportPackage(conf, cache, conf.host.unquote(imp.path).value).cache
    else cache
  }

  /** Every path is bound alike on the two caches. */
  ghost predicate SameBinding(conf: Config, c: Cache, c': Cache) {
    forall q :: Bound(conf, c, q) == Bound(conf, c', q)
  }

  lemma PassedBinding(conf: Config, cache: Cache, imp: ImportSpec)
    ensures SameBinding(conf, Passed(conf, cache, imp), cache)
  {
    if imp.alias.None? && conf.host.unquote(imp.path).Ok? {
      ImportBound(conf, cache, conf.host.unquote(imp.path).value);
    }
  }

  /** What an import does depends on the cache only through the binding. */
  lemma SameBindingImport(conf: Config, c: Cache, c': Cache, imp: ImportSpec, name: string)
    requires SameBinding(conf, c, c')
    ensures Skips(conf, c, imp, name) == Skips(conf, c', imp, name)
    ensures Failure(conf, c, imp, name) == Failure(conf, c', imp, name)
    ensures Picked(conf, c, imp, name) == Picked(conf, c', imp, name)
    ensures forall pkg :: Picks(conf, c, imp, name, pkg) == Picks(conf, c', imp, name, pkg)
  {
    if conf.host.unquote(imp.path).Ok? {
      var p := conf.host.unquote(imp.path).value;
      assert Bound(conf, c, p) == Bound(conf, c', p);
    }
  }

  lemma SameBindingAll(conf: Config, c: Cache, c': Cache, imports: seq<ImportSpec>, name: string)
    requires SameBinding(conf, c, c')
    ensures SkipsAll(conf, c, imports, name) == SkipsAll(conf, c', imports, name)
  {
    forall j | 0 <= j < |imports| ensures Skips(conf, c, imports[j], name) == Skips(conf, c', imports[j], name) {
      SameBindingImport(conf, c, c', imports[j], name);
    }
  }

  /** One step of the resolution: every import fails, picks or is skipped,
      each of the three does what it says, and passing over an import
      leaves every path bound as it was. */
  lemma ResolvePackageHead(conf: Config, cache: Cache, imports: seq<ImportSpec>, name: string)
    requires imports != []
    ensures var imp := imports[0];
      && (Failure(conf, cache, imp, name).Some? || Picked(conf, cache, imp, name).Some? || Skips(conf, cache, imp, name))
      && (Failure(conf, cache, imp, name).Some? ==>
            ResolvePackage(conf, cache, imports, name).result == Err(Failure(conf, cache, imp, name).value))
      && (Picked(conf, cache, imp, name).Some? ==>
            ResolvePackage(conf, cache, imports, name).result == Ok(Picked(conf, cache, imp, name).value))
      && (Skips(conf, cache, imp, name) ==>
            ResolvePackage(conf, cache, imports, name) == ResolvePackage(conf, Passed(conf, cache, imp), imports[1..], name))
      && SameBinding(conf, Passed(conf, cache, imp), cache)
  {
    var imp := imports[0];
    HeadCases(conf, cache, imp, name);
    if Failure(conf, cache, imp, name).Some? { HeadFailure(conf, cache, imports, name); }
    if Picked(conf, cache, imp, name).Some? { HeadPicked(conf, cache, imports, name); }
    if Skips(conf, cache, imp, name) { HeadSkips(conf, cache, imports, name); }
    PassedBinding(conf, cache, imp);
  }

  lemma HeadCases(conf: Config, cache: Cache, imp: ImportSpec, name: string)
    ensures Failure(conf, cache, imp, name).Some? || Picked(conf, cache, imp, name).Some? || Skips(conf, cache, imp, name)
  {
    if conf.host.unquote(imp.path).Ok? && imp.alias.None? {
      var r := Bound(conf, cache, conf.host.unquote(imp.path).value);
      if r.Ok? && r.value.name == name {
        assert Picked(conf, cache, imp, name) == Some(r.value);
      }
    }
  }

  lemma HeadFailure(conf: Config, cache: Cache, imports: seq<ImportSpec>, name: string)
    requires imports != [] && Failure(conf, cache, imports[0], name).Some?
    ensures ResolvePackage(conf, cache, imports, name).result == Err(Failure(conf, cache, imports[0], name).value)
  {
    var imp := imports[0];
    if conf.host.unquote(imp.path).Ok? {
      ImportBound(conf, cache, conf.host.unquote(imp.path).value);
    }
  }

  lemma HeadPicked(conf: Config, cache: Cache, imports: seq<ImportSpec>, name: string)
    requires imports != [] && Picked(conf, cache, imports[0], name).Some?
    ensures ResolvePackage(conf, cache, imports, name).result == Ok(Picked(conf, cache, imports[0], name).value)
  {
    var imp := imports[0];
    var p := conf.host.unquote(imp.path).value;
    ImportBound(conf, cache, p);
  }

  lemma HeadSkips(conf: Config, cache: Cache, imports: seq<ImportSpec>, name: string)
    requires imports != [] && Skips(conf, cache, imports[0], name)
    ensures ResolvePackage(conf, cache, imports, name) == ResolvePackage(conf, Passed(conf, cache, imports[0]), imports[1..], name)
  {
    var imp := imports[0];
    var p := conf.host.unquote(imp.path).value;
    if imp.alias.None? {
      ImportBound(conf, cache, p);
    }
  }

  lemma SkipsAllTail(conf: Config, cache: Cache, imports: seq<ImportSpec>, name: string, i: nat)
    requires 0 < i <= |imports|
    ensures SkipsAll(conf, cache, imports[..i], name) <==>
      Skips(conf, cache, imports[0], name) && SkipsAll(conf, cache, imports[1..][..i - 1], name)
  {
    var pre, tail := imports[..i], imports[1..][..i - 1];
    assert forall j :: 0 < j < i ==> pre[j] == tail[j - 1];
    assert forall j :: 0 <= j < i - 1 ==> tail[j] == pre[j + 1];
  }

  /** The result is the package of the first import that binds `name`,
      when every import before it is skipped. */
  lemma {:induction false} ResolvePackageFirstMatch(conf: Config, cache: Cache, imports: seq<ImportSpec>, name: string, i: nat, pkg: Package)
    requires i < |imports| && SkipsAll(conf, cache, imports[..i], name) && Picks(conf, cache, imports[i], name, pkg)
    ensures ResolvePackage(conf, cache, imports, name).result == Ok(pkg)
    decreases i
  {
    ResolvePackageHead(conf, cache, imports, name);
    if i > 0 {
      var c := Passed(conf, cache, imports[0]);
      var tail := imports[1..];
      SkipsAllTail(conf, cache, imports, name, i);
      assert tail[i - 1] == imports[i];
      SameBindingAll(conf, c, cache, tail[..i - 1], name);
      SameBindingImport(conf, c, cache, imports[i], name);
      ResolvePackageFirstMatch(conf, c, tail, name, i - 1, pkg);
    }
  }

  /** An import that fails, after imports that are all skipped, ends the
      resolution with its error. */
  lemma {:induction false} ResolvePackageLoadFailure(conf: Config, cache: Cache, imports: seq<ImportSpec>, name: string, i: nat)
    requires i < |imports| && SkipsAll(conf, cache, imports[..i], name) && Failure(conf, cache, imports[i], name).Some?
    ensures ResolvePackage(conf, cache, imports, name).result == Err(Failure(conf, cache, imports[i], name).value)
    decreases i
  {
    ResolvePackageHead(conf, cache, imports, name);
    if i > 0 {
      var c := Passed(conf, cache, imports[0]);
      var tail := imports[1..];
      SkipsAllTail(conf, cache, imports, name, i);
      assert tail[i - 1] == imports[i];
      SameBindingAll(conf, c, cache, tail[..i - 1], name);
      SameBindingImport(conf, c, cache, imports[i], name);
      ResolvePackageLoadFailure(conf, c, tail, name, i - 1);
    }
  }

  /** A package is found only through an import that binds `name` with all
      the imports before it skipped. */
  lemma {:induction false} ResolvePackageOk(conf: Config, cache: Cache, imports: seq<ImportSpec>, name: string)
    ensures var r := ResolvePackage(conf, cache, imports, name).result;
      r.Ok? ==> exists i :: 0 <= i < |imports| && SkipsAll(conf, cache, imports[..i], name) && Picks(conf, cache, imports[i], name, r.value)
    decreases |imports|
  {
    var r := ResolvePackage(conf, cache, imports, name).result;
    if imports != [] && r.Ok? {
      ResolvePackageHead(conf, cache, imports, name);
      if Picked(conf, cache, imports[0], name).Some? {
        assert SkipsAll(conf, cache, imports[..0], name);
        assert Picks(conf, cache, imports[0], name, r.value);
      } else {
        assert Failure(conf, cache, imports[0], name).None?;
        assert Skips(conf, cache, imports[0], name);
        var c := Passed(conf, cache, imports[0]);
        var tail := imports[1..];
        assert ResolvePackage(conf, c, tail, name).result == r;
        ResolvePackageOk(conf, c, tail, name);
        var i :| 0 <= i < |tail| && SkipsAll(conf, c, tail[..i], name) && Picks(conf, c, tail[i], name, r.value);
        SameBindingAll(conf, c, cache, tail[..i], name);
        SameBindingImport(conf, c, cache, tail[i], name);
        SkipsAllTail(conf, cache, imports, name, i + 1);
        assert imports[i + 1] == tail[i];
        assert SkipsAll(conf, cache, imports[..i + 1], name) && Picks(conf, cache, imports[i + 1], name, r.value);
      }
    }
  }

  /** The package is not found exactly when every import is skipped. */
  lemma {:induction false} ResolvePackageNotFound(conf: Config, cache: Cache, imports: seq<ImportSpec>, name: string)
    ensures ResolvePackage(conf, cache, imports, name).result == Err(PackageNotFound) <==> SkipsAll(conf, cache, imports, name)
    decreases |imports|
  {
    if imports != [] {
      var c := Passed(conf, cache, imports[0]);
      var tail := imports[1..];
      ResolvePackageHead(conf, cache, imports, name);
      ResolvePackageNotFound(conf, c, tail, name);
      SameBindingAll(conf, c, cache, tail, name);
      SkipsAllTail(conf, cache, imports, name, |imports|);
      assert imports[..|imports|] == imports && tail[..|imports| - 1] == tail;
    }
  }

  /** A host that locates nothing and unquotes a literal by dropping its
      quotes. */
  function OfflineHost(): Host {
    Host(
      p => Err(HostError("cannot find package")),
      (dir, keep) => Err(HostError("no such directory")),
      s => if |s| >= 2 then Ok(s[1..|s| - 1]) else Err(HostError("invalid syntax")))
  }

  lemma OfflineUnquote(path: string)
    ensures OfflineHost().unquote("\"" + path + "\"") == Ok(path)
  {
    var lit := "\"" + path + "\"";
    assert lit[1..|lit| - 1] == path;
  }

  /** An import resolves through a package handed to `Load` even when the
      host cannot load its path: such a cache is not coherent, and the
      binding lemmas above still apply to it. */
  lemma PreloadedPackageResolves(path: string)
    ensures var conf := Config(OfflineHost(), true);
      var pkg := Package("foobar", []);
      var cache := map[path := pkg];
      && !Coherent(conf.host, cache)
      && ResolvePackage(conf, cache, [ImportSpec(None, "\"" + path + "\"")], "foobar").result == Ok(pkg)
  {
    var conf := Config(OfflineHost(), true);
    var pkg := Package("foobar", []);
    var cache := map[path := pkg];
    var imports := [ImportSpec(None, "\"" + path + "\"")];
    OfflineUnquote(path);
    assert LoadPackage(conf.host, path).Err?;
    assert Picks(conf, cache, imports[0], "foobar", pkg);
    assert SkipsAll(conf, cache, imports[..0], "foobar");
    ResolvePackageFirstMatch(conf, cache, imports, "foobar", 0, pkg);
  }

  /** An embedded `foobar.Type`, `fb.Type` under `import fb "…"`, or
      `*foobar.Type`, resolves through a package handed to `Load` to that
      package and the name `Type`. */
  lemma PreloadedTypeResolves(path: string, alias: Option<string>, star: bool)
    ensures var conf := Config(OfflineHost(), true);
      var pkg := Package("foobar", []);
      var cache := map[path := pkg];
      var local := if alias.Some? then alias.value else "foobar";
      var e := if star then Star(Selector(local, "Type")) else Selector(local, "Type");
      ResolveType(conf, cache, File([ImportSpec(alias, "\"" + path + "\"")], []), e).result == Ok((Some(pkg), "Type"))
  {
    var conf := Config(OfflineHost(), true);
    var pkg := Package("foobar", []);
    var cache := map[path := pkg];
    var local := if alias.Some? then alias.value else "foobar";
    var imports := [ImportSpec(alias, "\"" + path + "\"")];
    OfflineUnquote(path);
    assert Picks(conf, cache, imports[0], local, pkg);
    assert SkipsAll(conf, cache, imports[..0], local);
    ResolvePackageFirstMatch(conf, cache, imports, local, 0, pkg);
  }

  // ---------------------------------------------------------------------
  // ResolveType

  function Unstar(e: Expr): Expr {
    if e.Star? then e.x else e
  }

  /** The types an embedded field can have without `ResolveType`
      panicking: `T`, `*T`, `p.T` or `*p.T`. */
  predicate Embeddable(e: Expr) {
    Unstar(e).Selector? || Unstar(e).Ident?
  }

  /** `ResolveType`: the package (none for the current one) and the name of
      an embedded type. A qualified name resolves its package through the
      file's imports; an exported bare name imports the package of the
      working directory; an unexported bare name loads nothing. */
  function ResolveType(conf: Config, cache: Cache, f: File, e: Expr): Outcome<(Option<Package>, string)>
    requires Embeddable(e)
  {
    var t := Unstar(e);
    if t.Selector? then
      var o := ResolvePackage(conf, cache, f.imports, t.pkg);
      match o.result
      case Err(err) => Outcome(Err(Wrapped(FailedToResolvePackage(t.sel), err)), o.cache)
      case Ok(pkg) => Outcome(Ok((Some(pkg), t.sel)), o.cache)
    else if IsExported(t.name) then
      var o := ImportPackage(conf, cache, ".");
      match o.result
      case Err(err) => Outcome(Err(Wrapped(FailedToImportSelf, err)), o.cache)
      case Ok(pkg) => Outcome(Ok((Some(pkg), t.name)), o.cache)
    else Outcome(Ok((None, t.name)), cache)
  }

  /** The name an embedded type is declared under in its package. */
  function TypeNameOf(e: Expr): string
    requires Embeddable(e)
  {
    if Unstar(e).Selector? then Unstar(e).sel else Unstar(e).name
  }

  /** What `ResolveType` promises: the pointer star makes no difference,
      the name is the declared one, the package is absent exactly for an
      unexported bare name (which loads nothing), a qualified name takes its
      package from the file's imports, and only those imports or the
      working directory's package are cached. */
  lemma ResolveTypeMeaning(conf: Config, cache: Cache, f: File, e: Expr)
    requires Embeddable(e)
    ensures ResolveType(conf, cache, f, e) == ResolveType(conf, cache, f, Unstar(e))
    ensures var o := ResolveType(conf, cache, f, e);
      && (o.result.Ok? ==> o.result.value.1 == TypeNameOf(e))
      && (o.result.Ok? ==> (o.result.value.0.None? <==> Unstar(e).Ident? && !IsExported(Unstar(e).name)))
      && (Unstar(e).Ident? && !IsExported(Unstar(e).name) ==> o.result.Ok? && o.cache == cache)
      && (Unstar(e).Selector? && o.result.Ok? ==>
            o.result.value.0 == Some(ResolvePackage(conf, cache, f.imports, Unstar(e).pkg).result.value))
      && Extends(cache, o.cache, ImportedPaths(conf.host, f.imports) + {"."})
      && (!conf.enableCache ==> o.cache == cache)
    ensures var o := ResolveType(conf, cache, f, e);
      Unstar(e).Selector? ==>
        var r := ResolvePackage(conf, cache, f.imports, Unstar(e).pkg).result;
        && (o.result.Ok? <==> r.Ok?)
        && (o.result.Err? ==> o.result.error == Wrapped(FailedToResolvePackage(Unstar(e).sel), r.error))
    ensures var o := ResolveType(conf, cache, f, e);
      var b := Bound(conf, cache, ".");
      Unstar(e).Ident? && IsExported(Unstar(e).name) ==>
        && (o.result.Ok? <==> b.Ok?)
        && (o.result.Ok? ==> o.result.value.0 == Some(b.value))
        && (o.result.Err? ==> o.result.error == Wrapped(FailedToImportSelf, b.error))
  {
    if Unstar(e).Selector? {
      ResolvePackageCache(conf, cache, f.imports, Unstar(e).pkg);
    } else {
      ImportCache(conf, cache, ".");
      ImportBound(conf, cache, ".");
    }
  }
}
