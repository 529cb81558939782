/** The deep method set of a struct type: its own exported methods and the
    ones promoted from the types it embeds, recursively
    (impast.go:169-264). */
module MethodSets {
  import opened Ast
  import opened Errors
  import opened Loader
  import opened Declarations
  import opened Qualifier
  import opened Resolution
  import opened Ordering

  /** A computation that may not come back. `GetMethodsDeep` has no guard
      against a type that embeds itself, directly or through other types,
      and panics on an embedded type of a shape `ResolveType` does not
      expect; the model follows its recursion to a given depth and is
      `Stuck` beyond it or on such a shape. */
  datatype Run<T> = Done(value: T) | Stuck

  /** The state of the declaration scan: the methods collected by name, and
      whether the struct declaration has been seen. */
  datatype Scan = Scan(methods: map<string, Decl>, found: bool)

  /** The receiver is dropped and the signature qualified (a `FuncDecl` is
      the only thing the scan ever stores). */
  function ExportMethod(pkg: Package, d: Decl): Decl {
    if d.FuncDecl? then ExportFunc(pkg, d) else d
  }

  function ExportAll(pkg: Package, ds: seq<Decl>): (r: seq<Decl>)
    ensures |r| == |ds|
  {
    if ds == [] then [] else [ExportMethod(pkg, ds[0])] + ExportAll(pkg, ds[1..])
  }

  /** Qualifying keeps names, so it commutes with inserting by name:
      exporting while sorting is sorting the exported methods. */
  lemma {:induction false} ExportAllInsert(pkg: Package, xs: seq<Decl>, d: Decl)
    ensures ExportAll(pkg, InsertByName(xs, d)) == InsertByName(ExportAll(pkg, xs), ExportMethod(pkg, d))
    decreases |xs|
  {
    var ys := ExportAll(pkg, xs);
    if xs != [] {
      assert ys[0] == ExportMethod(pkg, xs[0]) && ys[1..] == ExportAll(pkg, xs[1..]);
      if !Less(NameOf(d), NameOf(xs[0])) {
        ExportAllInsert(pkg, xs[1..], d);
        assert InsertByName(xs, d) == [xs[0]] + InsertByName(xs[1..], d);
      }
    }
  }

  /** Adds each method of `ms` whose name is not taken yet: the first
      method of a name wins, and what `dest` holds stays. */
  function AddAbsent(dest: map<string, Decl>, ms: seq<Decl>): map<string, Decl>
    decreases |ms|
  {
    if ms == [] then dest
    else AddAbsent(if NameOf(ms[0]) in dest then dest else dest[NameOf(ms[0]) := ms[0]], ms[1..])
  }

  /** `GetMethodsDeep` with at most `fuel` nested calls. */
  ghost function Deep(conf: Config, fuel: nat, cache: Cache, pkg: Package, name: string): Run<Outcome<seq<Decl>>>
    decreases fuel, 0, 0
  {
    if fuel == 0 then Stuck
    else
      match ScanFiles(conf, fuel - 1, cache, pkg, name, pkg.files, Scan(map[], false))
      case Stuck => Stuck
      case Done(o) =>
        Done(match o.result
          case Err(e) => Outcome(Err(e), o.cache)
          case Ok(st) =>
            if !st.found then Outcome(Err(TypeNotFound), o.cache)
            else Outcome(Ok(ExportAll(pkg, SortedValues(st.methods))), o.cache))
  }

  /** The outer loop of `GetMethodsDeep`, over the files. */
  ghost function ScanFiles(conf: Config, k: nat, cache: Cache, pkg: Package, name: string, files: seq<File>, st: Scan): Run<Outcome<Scan>>
    decreases k, 4, |files|
  {
    if files == [] then Done(Outcome(Ok(st), cache))
    else
      match ScanDecls(conf, k, cache, pkg, files[0], name, files[0].decls, st)
      case Stuck => Stuck
      case Done(o) =>
        match o.result
        case Err(e) => Done(Outcome(Err(e), o.cache))
        case Ok(st') => ScanFiles(conf, k, o.cache, pkg, name, files[1..], st')
  }

  /** The inner loop of `GetMethodsDeep`, over the declarations of file `f`:
      an own exported method is stored under its name, replacing what was
      there; the first struct declaration of the name brings in the methods
      of its embedded types. */
  ghost function ScanDecls(conf: Config, k: nat, cache: Cache, pkg: Package, f: File, name: string, decls: seq<Decl>, st: Scan): Run<Outcome<Scan>>
    decreases k, 3, |decls|
  {
    if decls == [] then Done(Outcome(Ok(st), cache))
    else
      var d := decls[0];
      match d
      case FuncDecl(_, _, _) =>
        var st' := if IsOwnMethod(name, d) && IsExported(d.name) then st.(methods := st.methods[d.name := d]) else st;
        ScanDecls(conf, k, cache, pkg, f, name, decls[1..], st')
      case BadDecl => ScanDecls(conf, k, cache, pkg, f, name, decls[1..], st)
      case GenDecl(_, _) =>
        if st.found then ScanDecls(conf, k, cache, pkg, f, name, decls[1..], st)
        else
          match FindStructIn(d, name)
          case Err(e) => Done(Outcome(Err(Wrapped(FailedToFindStruct(d), e)), cache))
          case Ok(None) => ScanDecls(conf, k, cache, pkg, f, name, decls[1..], st)
          case Ok(Some(fields)) =>
            match ResolveMethods(conf, k, cache, pkg, f, GetEmbeddedStruct(fields), st.methods)
            case Stuck => Stuck
            case Done(o) =>
              match o.result
              case Err(e) => Done(Outcome(Err(Wrapped(FailedToResolveMethods, e)), o.cache))
              case Ok(m) => ScanDecls(conf, k, o.cache, pkg, f, name, decls[1..], Scan(m, true))
  }

  /** `resolveMethodsDeep`: the methods of each embedded type in turn, added
      where their names are still free. */
  ghost function ResolveMethods(conf: Config, k: nat, cache: Cache, pkg: Package, f: File, embedded: seq<Expr>, dest: map<string, Decl>): Run<Outcome<map<string, Decl>>>
    decreases k, 2, |embedded|
  {
    if embedded == [] then Done(Outcome(Ok(dest), cache))
    else
      match EmbeddedMethods(conf, k, cache, pkg, f, embedded[0])
      case Stuck => Stuck
      case Done(o) =>
        match o.result
        case Err(e) => Done(Outcome(Err(Wrapped(FailedToGetEmbeddedMethods(embedded[0]), e)), o.cache))
        case Ok(ms) => ResolveMethods(conf, k, o.cache, pkg, f, embedded[1..], AddAbsent(dest, ms))
  }

  /** `getEmbeddedMethods`: the deep method set of an embedded type, looked
      up in the current package when the type is not qualified. */
  ghost function EmbeddedMethods(conf: Config, k: nat, cache: Cache, pkg: Package, f: File, t: Expr): Run<Outcome<seq<Decl>>>
    decreases k, 1, 0
  {
    if !Embeddable(t) then Stuck
    else
      var o := ResolveType(conf, cache, f, t);
      match o.result
      case Err(e) => Done(Outcome(Err(Wrapped(FailedToResolveType, e)), o.cache))
      case Ok(r) => Deep(conf, k, o.cache, if r.0.None? then pkg else r.0.value, r.1)
  }

  /** What `getEmbeddedMethods` looks up, case by case: a failed
      `ResolveType` is wrapped; an unexported bare name (`n` or `*n`) is
      looked up in the current package with nothing loaded; a qualified
      name in the package its import resolves to; an exported bare name in
      the package of the working directory. */
  lemma EmbeddedMethodsIs(conf: Config, k: nat, cache: Cache, pkg: Package, f: File, t: Expr)
    requires Embeddable(t)
    ensures var o := ResolveType(conf, cache, f, t);
      o.result.Err? ==>
        EmbeddedMethods(conf, k, cache, pkg, f, t) == Done(Outcome(Err(Wrapped(FailedToResolveType, o.result.error)), o.cache))
    ensures Unstar(t).Ident? && !IsExported(Unstar(t).name) ==>
      EmbeddedMethods(conf, k, cache, pkg, f, t) == Deep(conf, k, cache, pkg, Unstar(t).name)
    ensures Unstar(t).Selector? ==>
      var rp := ResolvePackage(conf, cache, f.imports, Unstar(t).pkg);
      rp.result.Ok? ==> EmbeddedMethods(conf, k, cache, pkg, f, t) == Deep(conf, k, rp.cache, rp.result.value, Unstar(t).sel)
    ensures Unstar(t).Ident? && IsExported(Unstar(t).name) ==>
      var b := Bound(conf, cache, ".");
      b.Ok? ==> EmbeddedMethods(conf, k, cache, pkg, f, t) == Deep(conf, k, ImportPackage(conf, cache, ".").cache, b.value, Unstar(t).name)
  {
    ResolveTypeMeaning(conf, cache, f, t);
    ImportBound(conf, cache, ".");
  }

  // ---------------------------------------------------------------------
  // The depth bound is only a bound

  /** A run that comes back within some depth comes back the same with any
      larger one: the result does not depend on the bound. */
  lemma {:induction false} DeepFuel(conf: Config, fuel: nat, fuel': nat, cache: Cache, pkg: Package, name: string)
    requires fuel <= fuel' && Deep(conf, fuel, cache, pkg, name).Done?
    ensures Deep(conf, fuel', cache, pkg, name) == Deep(conf, fuel, cache, pkg, name)
    decreases fuel, 0, 0
  {
    ScanFilesFuel(conf, fuel - 1, fuel' - 1, cache, pkg, name, pkg.files, Scan(map[], false));
  }

  lemma {:induction false} ScanFilesFuel(conf: Config, k: nat, k': nat, cache: Cache, pkg: Package, name: string, files: seq<File>, st: Scan)
    requires k <= k' && ScanFiles(conf, k, cache, pkg, name, files, st).Done?
    ensures ScanFiles(conf, k', cache, pkg, name, files, st) == ScanFiles(conf, k, cache, pkg, name, files, st)
    decreases k, 4, |files|
  {
    if files != [] {
      var r := ScanDecls(conf, k, cache, pkg, files[0], name, files[0].decls, st);
      ScanDeclsFuel(conf, k, k', cache, pkg, files[0], name, files[0].decls, st);
      if r.value.result.Ok? {
        ScanFilesFuel(conf, k, k', r.value.cache, pkg, name, files[1..], r.value.result.value);
      }
    }
  }

  lemma {:induction false} ScanDeclsFuel(conf: Config, k: nat, k': nat, cache: Cache, pkg: Package, f: File, name: string, decls: seq<Decl>, st: Scan)
    requires k <= k' && ScanDecls(conf, k, cache, pkg, f, name, decls, st).Done?
    ensures ScanDecls(conf, k', cache, pkg, f, name, decls, st) == ScanDecls(conf, k, cache, pkg, f, name, decls, st)
    decreases k, 3, |decls|
  {
    if decls != [] {
      var d := decls[0];
      match d
      case FuncDecl(_, _, _) =>
        var st' := if IsOwnMethod(name, d) && IsExported(d.name) then st.(methods := st.methods[d.name := d]) else st;
        ScanDeclsFuel(conf, k, k', cache, pkg, f, name, decls[1..], st');
      case BadDecl =>
        ScanDeclsFuel(conf, k, k', cache, pkg, f, name, decls[1..], st);
      case GenDecl(_, _) =>
        if st.found || FindStructIn(d, name) == Ok(None) {
          ScanDeclsFuel(conf, k, k', cache, pkg, f, name, decls[1..], st);
        } else if FindStructIn(d, name).Ok? {
          var fields := FindStructIn(d, name).value.value;
          var r := ResolveMethods(conf, k, cache, pkg, f, GetEmbeddedStruct(fields), st.methods);
          ResolveMethodsFuel(conf, k, k', cache, pkg, f, GetEmbeddedStruct(fields), st.methods);
          if r.value.result.Ok? {
            ScanDeclsFuel(conf, k, k', r.value.cache, pkg, f, name, decls[1..], Scan(r.value.result.value, true));
          }
        }
    }
  }

  lemma {:induction false} ResolveMethodsFuel(conf: Config, k: nat, k': nat, cache: Cache, pkg: Package, f: File, embedded: seq<Expr>, dest: map<string, Decl>)
    requires k <= k' && ResolveMethods(conf, k, cache, pkg, f, embedded, dest).Done?
    ensures ResolveMethods(conf, k', cache, pkg, f, embedded, dest) == ResolveMethods(conf, k, cache, pkg, f, embedded, dest)
    decreases k, 2, |embedded|
  {
    if embedded != [] {
      var r := EmbeddedMethods(conf, k, cache, pkg, f, embedded[0]);
      EmbeddedMethodsFuel(conf, k, k', cache, pkg, f, embedded[0]);
      if r.value.result.Ok? {
        ResolveMethodsFuel(conf, k, k', r.value.cache, pkg, f, embedded[1..], AddAbsent(dest, r.value.result.value));
      }
    }
  }

  lemma {:induction false} EmbeddedMethodsFuel(conf: Config, k: nat, k': nat, cache: Cache, pkg: Package, f: File, t: Expr)
    requires k <= k' && EmbeddedMethods(conf, k, cache, pkg, f, t).Done?
    ensures EmbeddedMethods(conf, k', cache, pkg, f, t) == EmbeddedMethods(conf, k, cache, pkg, f, t)
    decreases k, 1, 0
  {
    var o := ResolveType(conf, cache, f, t);
    if o.result.Ok? {
      var r := o.result.value;
      DeepFuel(conf, k, k', o.cache, if r.0.None? then pkg else r.0.value, r.1);
    }
  }

  // ---------------------------------------------------------------------
  // What a method set looks like, and what happens to the cache

  /** `c'` holds every entry of `c` unchanged. */
  predicate Grows(c: Cache, c': Cache) {
    forall p :: p in c ==> p in c' && c'[p] == c[p]
  }

  /** The cache only grows, and is left alone with caching off. */
  predicate CacheKept(conf: Config, c: Cache, c': Cache) {
    Grows(c, c') && (!conf.enableCache ==> c' == c)
  }

  /** Methods filed under their own exported names. */
  predicate MethodMap(m: map<string, Decl>) {
    forall n :: n in m ==> m[n].FuncDecl? && m[n].name == n && IsExported(n)
  }

  /** What `GetMethodsDeep` returns: exported methods without receivers
      and with qualified signatures, sorted by name, no name twice. */
  predicate MethodSet(ms: seq<Decl>) {
    SortedByName(ms) &&
    forall i :: 0 <= i < |ms| ==>
      ms[i].FuncDecl? && ms[i].recv.None? && IsExported(ms[i].name) && Qualified(Func(ms[i].typ))
  }

  lemma {:induction false} ExportAllAt(pkg: Package, ds: seq<Decl>, i: nat)
    requires i < |ds|
    ensures ExportAll(pkg, ds)[i] == ExportMethod(pkg, ds[i])
  {
    if i > 0 {
      ExportAllAt(pkg, ds[1..], i - 1);
    }
  }

  /** The final step of `GetMethodsDeep` turns a method map into a method
      set. */
  lemma ExportSortedIsMethodSet(pkg: Package, m: map<string, Decl>)
    requires MethodMap(m)
    ensures MethodSet(ExportAll(pkg, SortedValues(m)))
  {
    var vs := SortedValues(m);
    var r := ExportAll(pkg, vs);
    SortedValuesSorted(m);
    forall i | 0 <= i < |r| ensures r[i].FuncDecl? && r[i].recv.None? && IsExported(r[i].name) && Qualified(Func(r[i].typ)) {
      ExportSortedAt(pkg, m, i);
    }
    forall i, j | 0 <= i < j < |r| ensures Less(NameOf(r[i]), NameOf(r[j])) {
      ExportSortedAt(pkg, m, i);
      ExportSortedAt(pkg, m, j);
    }
  }

  /** One element of the exported sorted values of a method map. */
  lemma ExportSortedAt(pkg: Package, m: map<string, Decl>, i: nat)
    requires MethodMap(m) && i < |SortedValues(m)|
    ensures var d := ExportAll(pkg, SortedValues(m))[i];
      && NameOf(d) == NameOf(SortedValues(m)[i])
      && d.FuncDecl? && d.recv.None? && IsExported(d.name) && Qualified(Func(d.typ))
  {
    var vs := SortedValues(m);
    assert FiledByName(m);
    SortedValueEntry(m, i);
    ExportAllAt(pkg, vs, i);
    ExportQualifies(pkg, Func(vs[i].typ));
  }

  lemma {:induction false} AddAbsentMethodMap(dest: map<string, Decl>, ms: seq<Decl>)
    requires MethodMap(dest) && MethodSet(ms)
    ensures MethodMap(AddAbsent(dest, ms))
    decreases |ms|
  {
    if ms != [] {
      var dest' := if NameOf(ms[0]) in dest then dest else dest[NameOf(ms[0]) := ms[0]];
      assert MethodSet(ms[1..]) by {
        forall i, j | 0 <= i < j < |ms[1..]| ensures Less(NameOf(ms[1..][i]), NameOf(ms[1..][j])) {
          assert ms[1..][i] == ms[i + 1] && ms[1..][j] == ms[j + 1];
        }
        forall i | 0 <= i < |ms[1..]| ensures ms[1..][i] == ms[i + 1] { }
      }
      AddAbsentMethodMap(dest', ms[1..]);
    }
  }

  /** Every run that comes back yields a method set, and the cache only
      grows (not at all with caching off). */
  lemma {:induction false} DeepSound(conf: Config, fuel: nat, cache: Cache, pkg: Package, name: string)
    ensures var r := Deep(conf, fuel, cache, pkg, name);
      r.Done? ==> CacheKept(conf, cache, r.value.cache) && (r.value.result.Ok? ==> MethodSet(r.value.result.value))
    decreases fuel, 0, 0
  {
    if fuel > 0 {
      var r := ScanFiles(conf, fuel - 1, cache, pkg, name, pkg.files, Scan(map[], false));
      ScanFilesSound(conf, fuel - 1, cache, pkg, name, pkg.files, Scan(map[], false));
      if r.Done? && r.value.result.Ok? && r.value.result.value.found {
        ExportSortedIsMethodSet(pkg, r.value.result.value.methods);
      }
    }
  }

  lemma {:induction false} ScanFilesSound(conf: Config, k: nat, cache: Cache, pkg: Package, name: string, files: seq<File>, st: Scan)
    requires MethodMap(st.methods)
    ensures var r := ScanFiles(conf, k, cache, pkg, name, files, st);
      r.Done? ==> CacheKept(conf, cache, r.value.cache) && (r.value.result.Ok? ==> MethodMap(r.value.result.value.methods))
    decreases k, 4, |files|
  {
    if files != [] {
      var r := ScanDecls(conf, k, cache, pkg, files[0], name, files[0].decls, st);
      ScanDeclsSound(conf, k, cache, pkg, files[0], name, files[0].decls, st);
      if r.Done? && r.value.result.Ok? {
        ScanFilesSound(conf, k, r.value.cache, pkg, name, files[1..], r.value.result.value);
      }
    }
  }

  lemma {:induction false} ScanDeclsSound(conf: Config, k: nat, cache: Cache, pkg: Package, f: File, name: string, decls: seq<Decl>, st: Scan)
    requires MethodMap(st.methods)
    ensures var r := ScanDecls(conf, k, cache, pkg, f, name, decls, st);
      r.Done? ==> CacheKept(conf, cache, r.value.cache) && (r.value.result.Ok? ==> MethodMap(r.value.result.value.methods))
    decreases k, 3, |decls|
  {
    if decls != [] {
      var d := decls[0];
      match d
      case FuncDecl(_, _, _) =>
        var st' := if IsOwnMethod(name, d) && IsExported(d.name) then st.(methods := st.methods[d.name := d]) else st;
        ScanDeclsSound(conf, k, cache, pkg, f, name, decls[1..], st');
      case BadDecl =>
        ScanDeclsSound(conf, k, cache, pkg, f, name, decls[1..], st);
      case GenDecl(_, _) =>
        if st.found || FindStructIn(d, name) == Ok(None) {
          ScanDeclsSound(conf, k, cache, pkg, f, name, decls[1..], st);
        } else if FindStructIn(d, name).Ok? {
          var fields := FindStructIn(d, name).value.value;
          var r := ResolveMethods(conf, k, cache, pkg, f, GetEmbeddedStruct(fields), st.methods);
          ResolveMethodsSound(conf, k, cache, pkg, f, GetEmbeddedStruct(fields), st.methods);
          if r.Done? && r.value.result.Ok? {
            ScanDeclsSound(conf, k, r.value.cache, pkg, f, name, decls[1..], Scan(r.value.result.value, true));
          }
        }
    }
  }

  lemma {:induction false} ResolveMethodsSound(conf: Config, k: nat, cache: Cache, pkg: Package, f: File, embedded: seq<Expr>, dest: map<string, Decl>)
    requires MethodMap(dest)
    ensures var r := ResolveMethods(conf, k, cache, pkg, f, embedded, dest);
      r.Done? ==> CacheKept(conf, cache, r.value.cache) && (r.value.result.Ok? ==> MethodMap(r.value.result.value))
    decreases k, 2, |embedded|
  {
    if embedded != [] {
      var r := EmbeddedMethods(conf, k, cache, pkg, f, embedded[0]);
      EmbeddedMethodsSound(conf, k, cache, pkg, f, embedded[0]);
      if r.Done? && r.value.result.Ok? {
        AddAbsentMethodMap(dest, r.value.result.value);
        ResolveMethodsSound(conf, k, r.value.cache, pkg, f, embedded[1..], AddAbsent(dest, r.value.result.value));
      }
    }
  }

  lemma {:induction false} EmbeddedMethodsSound(conf: Config, k: nat, cache: Cache, pkg: Package, f: File, t: Expr)
    ensures var r := EmbeddedMethods(conf, k, cache, pkg, f, t);
      r.Done? ==> CacheKept(conf, cache, r.value.cache) && (r.value.result.Ok? ==> MethodSet(r.value.result.value))
    decreases k, 1, 0
  {
    if Embeddable(t) {
      var o := ResolveType(conf, cache, f, t);
      ResolveTypeMeaning(conf, cache, f, t);
      if o.result.Ok? {
        var r := o.result.value;
        DeepSound(conf, k, o.cache, if r.0.None? then pkg else r.0.value, r.1);
      }
    }
  }

  // ---------------------------------------------------------------------
  // The method set, declaratively

  /** The own exported methods of `name` among `ds`, by name; a later
      declaration replaces an earlier one of the same name. */
  function OwnMethods(ds: seq<Decl>, name: string): map<string, Decl>
    decreases |ds|
  {
    if ds == [] then map[]
    else (if OwnExported(ds[0], name) then map[ds[0].name := ds[0]] else map[]) + OwnMethods(ds[1..], name)
  }

  /** An exported method whose receiver is `name` or `*name`. */
  predicate OwnExported(d: Decl, name: string) {
    d.FuncDecl? && IsOwnMethod(name, d) && IsExported(d.name)
  }

  /** The index of the first declaration of `ds` that declares `name`;
      `|ds|` when none does. */
  function FirstDeclaring(ds: seq<Decl>, name: string): (i: nat)
    ensures i <= |ds|
    ensures i < |ds| ==> DeclaresType(ds[i], name)
    decreases |ds|
  {
    if ds == [] then 0
    else if DeclaresType(ds[0], name) then 0
    else 1 + FirstDeclaring(ds[1..], name)
  }

  /** The index of the first file with a declaration of `name`; `|files|`
      when there is none. */
  function FirstFileDeclaring(files: seq<File>, name: string): (j: nat)
    ensures j <= |files|
    ensures j < |files| ==> FirstDeclaring(files[j].decls, name) < |files[j].decls|
    decreases |files|
  {
    if files == [] then 0
    else if FirstDeclaring(files[0].decls, name) < |files[0].decls| then 0
    else 1 + FirstFileDeclaring(files[1..], name)
  }

  /** What the declaration `d` of the struct brings in: an error when the
      type is not a struct; otherwise the methods promoted from its
      embedded types, each embedded type's set added in field order. */
  ghost function AtStruct(conf: Config, k: nat, cache: Cache, pkg: Package, f: File, name: string, d: Decl): Run<Outcome<map<string, Decl>>>
    requires DeclaresType(d, name)
  {
    var t := FindSpec(d.specs, name).value;
    if !t.Struct? then Done(Outcome(Err(Wrapped(FailedToFindStruct(d), NotStruct(t))), cache))
    else
      match ResolveMethods(conf, k, cache, pkg, f, GetEmbeddedStruct(t.fields), map[])
      case Stuck => Stuck
      case Done(o) =>
        match o.result
        case Err(e) => Done(Outcome(Err(Wrapped(FailedToResolveMethods, e)), o.cache))
        case Ok(m) => Done(Outcome(Ok(m), o.cache))
  }

  /** A run of a map-producing step with `base` put over its map. */
  function WithBase(r: Run<Outcome<map<string, Decl>>>, base: map<string, Decl>): Run<Outcome<map<string, Decl>>> {
    match r
    case Stuck => Stuck
    case Done(o) => Done(Outcome(if o.result.Ok? then Ok(o.result.value + base) else o.result, o.cache))
  }

  /** Scan result once the struct, if any, has contributed `promoted` and
      the declarations `ds` have been passed. */
  function After(st: Scan, ds: seq<Decl>, name: string, r: Run<Outcome<map<string, Decl>>>): Run<Outcome<Scan>> {
    match r
    case Stuck => Stuck
    case Done(o) =>
      match o.result
      case Err(e) => Done(Outcome(Err(e), o.cache))
      case Ok(promoted) => Done(Outcome(Ok(Scan(promoted + st.methods + OwnMethods(ds, name), true)), o.cache))
  }

  lemma MapUnionAssoc(a: map<string, Decl>, b: map<string, Decl>, c: map<string, Decl>)
    ensures a + b + c == a + (b + c)
  {
  }

  lemma {:induction false} OwnMethodsAppend(a: seq<Decl>, b: seq<Decl>, name: string)
    ensures OwnMethods(a + b, name) == OwnMethods(a, name) + OwnMethods(b, name)
    decreases |a|
  {
    if a == [] {
      assert a + b == b;
    } else {
      var d := a[0];
      var own: map<string, Decl> := if OwnExported(d, name) then map[d.name := d] else map[];
      assert (a + b)[0] == d;
      assert (a + b)[1..] == a[1..] + b;
      assert OwnMethods(a + b, name) == own + OwnMethods(a[1..] + b, name);
      assert OwnMethods(a, name) == own + OwnMethods(a[1..], name);
      OwnMethodsAppend(a[1..], b, name);
      MapUnionAssoc(own, OwnMethods(a[1..], name), OwnMethods(b, name));
    }
  }

  /** Adding absent names on top of `x + y` is adding them on top of `x`
      and putting `y` over the result. */
  lemma {:induction false} AddAbsentUnder(x: map<string, Decl>, y: map<string, Decl>, ms: seq<Decl>)
    ensures AddAbsent(x + y, ms) == AddAbsent(x, ms) + y
    decreases |ms|
  {
    if ms != [] {
      var n := NameOf(ms[0]);
      var x' := if n in x then x else x[n := ms[0]];
      assert (if n in x + y then x + y else (x + y)[n := ms[0]]) == x' + y;
      AddAbsentUnder(x', y, ms[1..]);
    }
  }

  /** `resolveMethodsDeep` fills `dest` exactly as it fills an empty map,
      with the entries of `dest` kept over what it adds. */
  lemma {:induction false} ResolveMethodsFrom(conf: Config, k: nat, cache: Cache, pkg: Package, f: File, embedded: seq<Expr>, dest: map<string, Decl>)
    ensures ResolveMethods(conf, k, cache, pkg, f, embedded, dest) ==
      WithBase(ResolveMethods(conf, k, cache, pkg, f, embedded, map[]), dest)
    decreases |embedded|
  {
    if embedded == [] {
      assert map[] + dest == dest;
    } else {
      var r := EmbeddedMethods(conf, k, cache, pkg, f, embedded[0]);
      if r.Done? && r.value.result.Ok? {
        var ms := r.value.result.value;
        var c := r.value.cache;
        var empty: map<string, Decl> := map[];
        ResolveMethodsFrom(conf, k, c, pkg, f, embedded[1..], AddAbsent(dest, ms));
        ResolveMethodsFrom(conf, k, c, pkg, f, embedded[1..], AddAbsent(empty, ms));
        AddAbsentUnder(empty, dest, ms);
        assert empty + dest == dest;
        var rest := ResolveMethods(conf, k, c, pkg, f, embedded[1..], map[]);
        if rest.Done? && rest.value.result.Ok? {
          MapUnionAssoc(rest.value.result.value, AddAbsent(empty, ms), dest);
        }
      }
    }
  }

  /** The scan of one file's declarations: until the declaration of the
      struct only own methods are stored and nothing is loaded; that
      declaration brings in the promoted methods, which own methods replace
      wherever they are declared. */
  lemma {:induction false} ScanDeclsIs(conf: Config, k: nat, cache: Cache, pkg: Package, f: File, name: string, decls: seq<Decl>, st: Scan)
    ensures ScanDecls(conf, k, cache, pkg, f, name, decls, st) ==
      var i := FirstDeclaring(decls, name);
      if st.found || i == |decls| then Done(Outcome(Ok(Scan(st.methods + OwnMethods(decls, name), st.found)), cache))
      else After(st, decls, name, AtStruct(conf, k, cache, pkg, f, name, decls[i]))
    decreases |decls|, 1
  {
    if decls == [] {
      assert st.methods + map[] == st.methods;
    } else if decls[0].GenDecl? && !st.found && FindStructIn(decls[0], name) != Ok(None) {
      ScanDeclsIsAtStruct(conf, k, cache, pkg, f, name, decls, st);
    } else {
      ScanDeclsIsPast(conf, k, cache, pkg, f, name, decls, st);
    }
  }

  /** `ScanDeclsIs` when the first declaration declares the struct. */
  lemma {:induction false} ScanDeclsIsAtStruct(conf: Config, k: nat, cache: Cache, pkg: Package, f: File, name: string, decls: seq<Decl>, st: Scan)
    requires decls != [] && decls[0].GenDecl? && !st.found && FindStructIn(decls[0], name) != Ok(None)
    ensures ScanDecls(conf, k, cache, pkg, f, name, decls, st) ==
      After(st, decls, name, AtStruct(conf, k, cache, pkg, f, name, decls[0]))
    ensures FirstDeclaring(decls, name) == 0
    decreases |decls|, 0
  {
    var d := decls[0];
    var rest := decls[1..];
    assert DeclaresType(d, name);
    assert OwnMethods(decls, name) == OwnMethods(rest, name);
    var t := FindSpec(d.specs, name).value;
    if t.Struct? {
      var emb := GetEmbeddedStruct(t.fields);
      ResolveMethodsFrom(conf, k, cache, pkg, f, emb, st.methods);
      var r := ResolveMethods(conf, k, cache, pkg, f, emb, map[]);
      if r.Done? && r.value.result.Ok? {
        var m := r.value.result.value;
        ScanDeclsIs(conf, k, r.value.cache, pkg, f, name, rest, Scan(m + st.methods, true));
      }
    }
  }

  /** `ScanDeclsIs` when the first declaration is passed over (or only adds
      an own method). */
  lemma {:induction false} ScanDeclsIsPast(conf: Config, k: nat, cache: Cache, pkg: Package, f: File, name: string, decls: seq<Decl>, st: Scan)
    requires decls != [] && !(decls[0].GenDecl? && !st.found && FindStructIn(decls[0], name) != Ok(None))
    ensures ScanDecls(conf, k, cache, pkg, f, name, decls, st) ==
      var i := FirstDeclaring(decls, name);
      if st.found || i == |decls| then Done(Outcome(Ok(Scan(st.methods + OwnMethods(decls, name), st.found)), cache))
      else After(st, decls, name, AtStruct(conf, k, cache, pkg, f, name, decls[i]))
    decreases |decls|, 0
  {
    var d := decls[0];
    var rest := decls[1..];
    var own: map<string, Decl> := if OwnExported(d, name) then map[d.name := d] else map[];
    assert OwnMethods(decls, name) == own + OwnMethods(rest, name);
    var st' := if d.FuncDecl? && IsOwnMethod(name, d) && IsExported(d.name) then st.(methods := st.methods[d.name := d]) else st;
    assert st'.methods == st.methods + own;
    assert !st.found ==> !DeclaresType(d, name);
    assert ScanDecls(conf, k, cache, pkg, f, name, decls, st) == ScanDecls(conf, k, cache, pkg, f, name, rest, st');
    ScanDeclsIs(conf, k, cache, pkg, f, name, rest, st');
    MapUnionAssoc(st.methods, own, OwnMethods(rest, name));
    var i := FirstDeclaring(decls, name);
    if !st.found && i < |decls| {
      assert i == 1 + FirstDeclaring(rest, name);
      assert decls[i] == rest[i - 1];
      var r := AtStruct(conf, k, cache, pkg, f, name, decls[i]);
      if r.Done? && r.value.result.Ok? {
        MapUnionAssoc(r.value.result.value, st.methods, own);
        MapUnionAssoc(r.value.result.value + st.methods, own, OwnMethods(rest, name));
      }
    }
  }

  lemma ScanDeclsNoStruct(conf: Config, k: nat, cache: Cache, pkg: Package, f: File, name: string, decls: seq<Decl>, st: Scan)
    requires st.found || FirstDeclaring(decls, name) == |decls|
    ensures ScanDecls(conf, k, cache, pkg, f, name, decls, st) ==
      Done(Outcome(Ok(Scan(st.methods + OwnMethods(decls, name), st.found)), cache))
  {
    ScanDeclsIs(conf, k, cache, pkg, f, name, decls, st);
  }

  lemma ScanDeclsStruct(conf: Config, k: nat, cache: Cache, pkg: Package, f: File, name: string, decls: seq<Decl>, st: Scan)
    requires !st.found && FirstDeclaring(decls, name) < |decls|
    ensures ScanDecls(conf, k, cache, pkg, f, name, decls, st) ==
      After(st, decls, name, AtStruct(conf, k, cache, pkg, f, name, decls[FirstDeclaring(decls, name)]))
  {
    ScanDeclsIs(conf, k, cache, pkg, f, name, decls, st);
  }

  /** The scan of all files: as for one file, with the struct looked up in
      file-then-declaration order and the own methods of every file. */
  lemma ScanFilesIs(conf: Config, k: nat, cache: Cache, pkg: Package, name: string, files: seq<File>, st: Scan)
    ensures ScanFiles(conf, k, cache, pkg, name, files, st) ==
      var j := FirstFileDeclaring(files, name);
      if st.found || j == |files| then Done(Outcome(Ok(Scan(st.methods + OwnMethods(AllDecls(files), name), st.found)), cache))
      else
        var ds := files[j].decls;
        After(st, AllDecls(files), name, AtStruct(conf, k, cache, pkg, files[j], name, ds[FirstDeclaring(ds, name)]))
  {
    if st.found || FirstFileDeclaring(files, name) == |files| {
      ScanFilesNoStruct(conf, k, cache, pkg, name, files, st);
    } else {
      ScanFilesStruct(conf, k, cache, pkg, name, files, st);
    }
  }

  /** One file of the scan that ends without an error. */
  lemma ScanFilesStep(conf: Config, k: nat, cache: Cache, cache': Cache, pkg: Package, name: string, files: seq<File>, st: Scan, st': Scan)
    requires files != []
    requires ScanDecls(conf, k, cache, pkg, files[0], name, files[0].decls, st) == Done(Outcome(Ok(st'), cache'))
    ensures ScanFiles(conf, k, cache, pkg, name, files, st) == ScanFiles(conf, k, cache', pkg, name, files[1..], st')
  {
  }

  lemma {:induction false} ScanFilesNoStruct(conf: Config, k: nat, cache: Cache, pkg: Package, name: string, files: seq<File>, st: Scan)
    requires st.found || FirstFileDeclaring(files, name) == |files|
    ensures ScanFiles(conf, k, cache, pkg, name, files, st) ==
      Done(Outcome(Ok(Scan(st.methods + OwnMethods(AllDecls(files), name), st.found)), cache))
    decreases |files|
  {
    if files == [] {
      assert st.methods + map[] == st.methods;
    } else {
      var f := files[0];
      var rest := files[1..];
      ScanDeclsNoStruct(conf, k, cache, pkg, f, name, f.decls, st);
      OwnMethodsAppend(f.decls, AllDecls(rest), name);
      var ownF, ownRest := OwnMethods(f.decls, name), OwnMethods(AllDecls(rest), name);
      var st' := Scan(st.methods + ownF, st.found);
      ScanFilesStep(conf, k, cache, cache, pkg, name, files, st, st');
      ScanFilesNoStruct(conf, k, cache, pkg, name, rest, st');
      MapUnionAssoc(st.methods, ownF, ownRest);
    }
  }

  lemma {:induction false} ScanFilesStruct(conf: Config, k: nat, cache: Cache, pkg: Package, name: string, files: seq<File>, st: Scan)
    requires !st.found && FirstFileDeclaring(files, name) < |files|
    ensures ScanFiles(conf, k, cache, pkg, name, files, st) ==
      var j := FirstFileDeclaring(files, name);
      var ds := files[j].decls;
      After(st, AllDecls(files), name, AtStruct(conf, k, cache, pkg, files[j], name, ds[FirstDeclaring(ds, name)]))
    decreases |files|
  {
    var f := files[0];
    var rest := files[1..];
    OwnMethodsAppend(f.decls, AllDecls(rest), name);
    var ownF, ownRest := OwnMethods(f.decls, name), OwnMethods(AllDecls(rest), name);
    var i := FirstDeclaring(f.decls, name);
    var j := FirstFileDeclaring(files, name);
    if i == |f.decls| {
      ScanDeclsNoStruct(conf, k, cache, pkg, f, name, f.decls, st);
      var st' := Scan(st.methods + ownF, false);
      ScanFilesStep(conf, k, cache, cache, pkg, name, files, st, st');
      assert j == 1 + FirstFileDeclaring(rest, name);
      assert files[j] == rest[j - 1];
      ScanFilesStruct(conf, k, cache, pkg, name, rest, st');
      var ds := files[j].decls;
      var r := AtStruct(conf, k, cache, pkg, files[j], name, ds[FirstDeclaring(ds, name)]);
      if r.Done? && r.value.result.Ok? {
        var p := r.value.result.value;
        MapUnionAssoc(p, st.methods, ownF);
        MapUnionAssoc(p + st.methods, ownF, ownRest);
      }
    } else {
      assert j == 0;
      ScanDeclsStruct(conf, k, cache, pkg, f, name, f.decls, st);
      var r := AtStruct(conf, k, cache, pkg, f, name, f.decls[i]);
      if r.Done? && r.value.result.Ok? {
        var p := r.value.result.value;
        var st' := Scan(p + st.methods + ownF, true);
        ScanFilesStep(conf, k, cache, r.value.cache, pkg, name, files, st, st');
        ScanFilesNoStruct(conf, k, r.value.cache, pkg, name, rest, st');
        MapUnionAssoc(p + st.methods, ownF, ownRest);
      }
    }
  }

  /** `GetMethodsDeep`, declaratively: `TypeNotFound` when no declaration
      has the name; otherwise what the first declaration with the name
      brings in (an error, or the promoted methods), with the package's
      own exported methods put over the promoted ones, exported and sorted. */
  lemma DeepIs(conf: Config, fuel: nat, cache: Cache, pkg: Package, name: string)
    requires fuel > 0
    ensures Deep(conf, fuel, cache, pkg, name) ==
      var j := FirstFileDeclaring(pkg.files, name);
      if j == |pkg.files| then Done(Outcome(Err(TypeNotFound), cache))
      else
        var ds := pkg.files[j].decls;
        match AtStruct(conf, fuel - 1, cache, pkg, pkg.files[j], name, ds[FirstDeclaring(ds, name)])
        case Stuck => Stuck
        case Done(o) =>
          Done(match o.result
            case Err(e) => Outcome(Err(e), o.cache)
            case Ok(promoted) => Outcome(Ok(ExportAll(pkg, SortedValues(promoted + OwnMethods(AllDecls(pkg.files), name)))), o.cache))
  {
    if FirstFileDeclaring(pkg.files, name) == |pkg.files| {
      DeepNoDeclaration(conf, fuel, cache, pkg, name);
    } else {
      DeepAtDeclaration(conf, fuel, cache, pkg, name);
    }
  }

  lemma DeepNoDeclaration(conf: Config, fuel: nat, cache: Cache, pkg: Package, name: string)
    requires fuel > 0 && FirstFileDeclaring(pkg.files, name) == |pkg.files|
    ensures Deep(conf, fuel, cache, pkg, name) == Done(Outcome(Err(TypeNotFound), cache))
  {
    var empty: map<string, Decl> := map[];
    ScanFilesIs(conf, fuel - 1, cache, pkg, name, pkg.files, Scan(empty, false));
  }

  lemma DeepAtDeclaration(conf: Config, fuel: nat, cache: Cache, pkg: Package, name: string)
    requires fuel > 0 && FirstFileDeclaring(pkg.files, name) < |pkg.files|
    ensures Deep(conf, fuel, cache, pkg, name) ==
      match StructRun(conf, fuel - 1, cache, pkg, name)
      case Stuck => Stuck
      case Done(o) =>
        Done(match o.result
          case Err(e) => Outcome(Err(e), o.cache)
          case Ok(promoted) => Outcome(Ok(ExportAll(pkg, SortedValues(promoted + OwnMethods(AllDecls(pkg.files), name)))), o.cache))
  {
    var empty: map<string, Decl> := map[];
    ScanFilesIs(conf, fuel - 1, cache, pkg, name, pkg.files, Scan(empty, false));
    var r := StructRun(conf, fuel - 1, cache, pkg, name);
    if r.Done? && r.value.result.Ok? {
      assert r.value.result.value + empty == r.value.result.value;
    }
  }

  lemma {:induction false} FindTypeInAppend(a: seq<Decl>, b: seq<Decl>, name: string)
    ensures FindTypeIn(a + b, name) == if FindTypeIn(a, name).Some? then FindTypeIn(a, name) else FindTypeIn(b, name)
    decreases |a|
  {
    if a == [] {
      assert a + b == b;
    } else {
      assert (a + b)[0] == a[0];
      assert (a + b)[1..] == a[1..] + b;
      FindTypeInAppend(a[1..], b, name);
    }
  }

  lemma {:induction false} FirstDeclaringFinds(ds: seq<Decl>, name: string)
    ensures var i := FirstDeclaring(ds, name);
      FindTypeIn(ds, name) == if i < |ds| then FindSpec(ds[i].specs, name) else None
    decreases |ds|
  {
    if ds != [] && !DeclaresType(ds[0], name) {
      FirstDeclaringFinds(ds[1..], name);
    }
  }

  /** The declaration the scan stops at is the one `FindTypeByName`
      finds. */
  lemma {:induction false} FirstFileDeclaringFinds(files: seq<File>, name: string)
    ensures var j := FirstFileDeclaring(files, name);
      && (j == |files| <==> FindTypeIn(AllDecls(files), name).None?)
      && (j < |files| ==>
            FindTypeIn(AllDecls(files), name) == FindSpec(files[j].decls[FirstDeclaring(files[j].decls, name)].specs, name))
    decreases |files|
  {
    if files != [] {
      var ds := files[0].decls;
      var rest := files[1..];
      assert AllDecls(files) == ds + AllDecls(rest);
      FindTypeInAppend(ds, AllDecls(rest), name);
      FirstDeclaringFinds(ds, name);
      if FirstDeclaring(ds, name) == |ds| {
        FirstFileDeclaringFinds(rest, name);
        var j := FirstFileDeclaring(files, name);
        assert j == 1 + FirstFileDeclaring(rest, name);
        if j < |files| {
          assert files[j] == rest[j - 1];
        }
      }
    }
  }

  // ---------------------------------------------------------------------
  // Consequences

  /** The declaration the scan stops at, and what it brings in. */
  ghost function StructRun(conf: Config, k: nat, cache: Cache, pkg: Package, name: string): Run<Outcome<map<string, Decl>>>
    requires FirstFileDeclaring(pkg.files, name) < |pkg.files|
  {
    var j := FirstFileDeclaring(pkg.files, name);
    var ds := pkg.files[j].decls;
    AtStruct(conf, k, cache, pkg, pkg.files[j], name, ds[FirstDeclaring(ds, name)])
  }

  /** What the struct's embedded types bring in is a map of exported
      methods filed by name, and the cache only grows. */
  lemma StructRunSound(conf: Config, k: nat, cache: Cache, pkg: Package, name: string)
    requires FirstFileDeclaring(pkg.files, name) < |pkg.files|
    ensures var s := StructRun(conf, k, cache, pkg, name);
      s.Done? ==> CacheKept(conf, cache, s.value.cache) && (s.value.result.Ok? ==> MethodMap(s.value.result.value))
  {
    var j := FirstFileDeclaring(pkg.files, name);
    var ds := pkg.files[j].decls;
    var t := FindSpec(ds[FirstDeclaring(ds, name)].specs, name).value;
    if t.Struct? {
      ResolveMethodsSound(conf, k, cache, pkg, pkg.files[j], GetEmbeddedStruct(t.fields), map[]);
    }
  }

  lemma {:induction false} AddAbsentKeeps(dest: map<string, Decl>, ms: seq<Decl>, n: string)
    requires n in dest
    ensures n in AddAbsent(dest, ms) && AddAbsent(dest, ms)[n] == dest[n]
    decreases |ms|
  {
    if ms != [] {
      AddAbsentKeeps(if NameOf(ms[0]) in dest then dest else dest[NameOf(ms[0]) := ms[0]], ms[1..], n);
    }
  }

  lemma {:induction false} AddAbsentDomain(dest: map<string, Decl>, ms: seq<Decl>, n: string)
    ensures n in AddAbsent(dest, ms) <==> n in dest || exists i :: 0 <= i < |ms| && NameOf(ms[i]) == n
    decreases |ms|
  {
    if ms != [] {
      var dest' := if NameOf(ms[0]) in dest then dest else dest[NameOf(ms[0]) := ms[0]];
      var rest := ms[1..];
      AddAbsentDomain(dest', rest, n);
      if exists i :: 0 <= i < |rest| && NameOf(rest[i]) == n {
        var i :| 0 <= i < |rest| && NameOf(rest[i]) == n;
        assert ms[i + 1] == rest[i];
      }
      if exists i :: 0 <= i < |ms| && NameOf(ms[i]) == n {
        var i :| 0 <= i < |ms| && NameOf(ms[i]) == n;
        if i > 0 { assert rest[i - 1] == ms[i]; }
      }
    }
  }

  lemma {:induction false} AddAbsentPicks(dest: map<string, Decl>, ms: seq<Decl>, n: string)
    requires n in AddAbsent(dest, ms) && n !in dest
    ensures exists i :: 0 <= i < |ms| && AddAbsent(dest, ms)[n] == ms[i] && NameOf(ms[i]) == n &&
                        forall j :: 0 <= j < i ==> NameOf(ms[j]) != n
    decreases |ms|
  {
    assert ms != [];
    var dest' := if NameOf(ms[0]) in dest then dest else dest[NameOf(ms[0]) := ms[0]];
    var rest := ms[1..];
    if NameOf(ms[0]) == n {
      AddAbsentKeeps(dest', rest, n);
      assert AddAbsent(dest, ms)[n] == ms[0];
    } else {
      AddAbsentPicks(dest', rest, n);
      var i :| 0 <= i < |rest| && AddAbsent(dest', rest)[n] == rest[i] && NameOf(rest[i]) == n &&
        forall j :: 0 <= j < i ==> NameOf(rest[j]) != n;
      assert ms[i + 1] == rest[i];
      forall j | 0 <= j < i + 1 ensures NameOf(ms[j]) != n {
        if j > 0 { assert ms[j] == rest[j - 1]; }
      }
    }
  }

  /** Merging a method list into `dest` keeps every entry already there and
      adds, for each new name, the first method of the list with that name. */
  lemma AddAbsentFirst(dest: map<string, Decl>, ms: seq<Decl>, n: string)
    ensures n in dest ==> n in AddAbsent(dest, ms) && AddAbsent(dest, ms)[n] == dest[n]
    ensures n in AddAbsent(dest, ms) <==> n in dest || exists i :: 0 <= i < |ms| && NameOf(ms[i]) == n
    ensures n in AddAbsent(dest, ms) && n !in dest ==>
      exists i :: 0 <= i < |ms| && AddAbsent(dest, ms)[n] == ms[i] && NameOf(ms[i]) == n &&
        forall j :: 0 <= j < i ==> NameOf(ms[j]) != n
  {
    if n in dest { AddAbsentKeeps(dest, ms, n); }
    AddAbsentDomain(dest, ms, n);
    if n in AddAbsent(dest, ms) && n !in dest { AddAbsentPicks(dest, ms, n); }
  }

  /** In `resolveMethodsDeep` an entry, once in `dest` (put there by the
      caller or by an earlier embedded type), is never replaced by a later
      embedded type. */
  lemma ResolveMethodsEarlierWins(conf: Config, k: nat, cache: Cache, pkg: Package, f: File, embedded: seq<Expr>, dest: map<string, Decl>)
    ensures var r := ResolveMethods(conf, k, cache, pkg, f, embedded, dest);
      r.Done? && r.value.result.Ok? ==>
        forall n :: n in dest ==> n in r.value.result.value && r.value.result.value[n] == dest[n]
  {
    ResolveMethodsFrom(conf, k, cache, pkg, f, embedded, dest);
  }

  /** `TypeNotFound` is returned exactly when no declaration has the name,
      and then nothing has been loaded. */
  lemma DeepTypeNotFound(conf: Config, fuel: nat, cache: Cache, pkg: Package, name: string)
    requires fuel > 0
    ensures FindTypeByName(pkg, name).None? ==> Deep(conf, fuel, cache, pkg, name) == Done(Outcome(Err(TypeNotFound), cache))
    ensures var r := Deep(conf, fuel, cache, pkg, name);
      r.Done? && r.value.result == Err(TypeNotFound) ==> FindTypeByName(pkg, name).None?
  {
    DeepIs(conf, fuel, cache, pkg, name);
    FirstFileDeclaringFinds(pkg.files, name);
  }

  /** A name bound to a type that is not a struct is an "is not struct"
      error, reported before anything is loaded. */
  lemma DeepNotStruct(conf: Config, fuel: nat, cache: Cache, pkg: Package, name: string)
    requires fuel > 0
    requires FindTypeByName(pkg, name).Some? && !FindTypeByName(pkg, name).value.Struct?
    ensures var r := Deep(conf, fuel, cache, pkg, name);
      && r.Done? && r.value.cache == cache && r.value.result.Err?
      && r.value.result.error.Wrapped? && r.value.result.error.context.FailedToFindStruct?
      && r.value.result.error.cause == NotStruct(FindTypeByName(pkg, name).value)
  {
    DeepIs(conf, fuel, cache, pkg, name);
    FirstFileDeclaringFinds(pkg.files, name);
  }

  /** An error while collecting the promoted methods aborts the whole call:
      the result is that error and no method set. */
  lemma DeepAborts(conf: Config, fuel: nat, cache: Cache, pkg: Package, name: string)
    requires fuel > 0 && FirstFileDeclaring(pkg.files, name) < |pkg.files|
    ensures var s := StructRun(conf, fuel - 1, cache, pkg, name);
      s.Done? && s.value.result.Err? ==> Deep(conf, fuel, cache, pkg, name) == Done(Outcome(Err(s.value.result.error), s.value.cache))
  {
    DeepIs(conf, fuel, cache, pkg, name);
  }

  lemma {:induction false} OwnMethodsAreMethods(ds: seq<Decl>, name: string)
    ensures MethodMap(OwnMethods(ds, name))
    decreases |ds|
  {
    if ds != [] {
      OwnMethodsAreMethods(ds[1..], name);
    }
  }

  /** `OwnMethods` holds, for each name, the last own exported method of
      that name. */
  lemma {:induction false} OwnMethodsLast(ds: seq<Decl>, name: string, n: string)
    ensures n in OwnMethods(ds, name) <==> exists i :: 0 <= i < |ds| && OwnExported(ds[i], name) && ds[i].name == n
    ensures n in OwnMethods(ds, name) ==>
      exists i :: 0 <= i < |ds| && OwnExported(ds[i], name) && OwnMethods(ds, name)[n] == ds[i] &&
        forall j :: i < j < |ds| ==> !(OwnExported(ds[j], name) && ds[j].name == n)
    decreases |ds|
  {
    if ds != [] {
      OwnMethodsLast(ds[1..], name, n);
      var rest := ds[1..];
      if exists i :: 0 <= i < |rest| && OwnExported(rest[i], name) && rest[i].name == n {
        var i :| 0 <= i < |rest| && OwnExported(rest[i], name) && rest[i].name == n;
        assert ds[i + 1] == rest[i];
      }
      if exists i :: 0 <= i < |ds| && OwnExported(ds[i], name) && ds[i].name == n {
        var i :| 0 <= i < |ds| && OwnExported(ds[i], name) && ds[i].name == n;
        if i > 0 { assert rest[i - 1] == ds[i]; }
      }
      if n in OwnMethods(rest, name) {
        var i :| 0 <= i < |rest| && OwnExported(rest[i], name) && OwnMethods(rest, name)[n] == rest[i] &&
          forall j :: i < j < |rest| ==> !(OwnExported(rest[j], name) && rest[j].name == n);
        assert ds[i + 1] == rest[i];
        forall j | i + 1 < j < |ds| ensures !(OwnExported(ds[j], name) && ds[j].name == n) {
          assert ds[j] == rest[j - 1];
        }
      } else if n in OwnMethods(ds, name) {
        forall j | 0 < j < |ds| ensures !(OwnExported(ds[j], name) && ds[j].name == n) {
          assert ds[j] == rest[j - 1];
        }
      }
    }
  }

  /** The values of a map are where its sorted values come from. */
  lemma InSortedValues(m: map<string, Decl>, n: string)
    requires n in m && FiledByName(m)
    ensures m[n] in SortedValues(m)
  {
    SortedValuesSorted(m);
    assert m[n] in m.Values;
    assert m[n] in multiset(m.Values);
  }

  /** Each sorted value is the entry of the map under its own name. */
  lemma SortedValueEntry(m: map<string, Decl>, i: nat)
    requires FiledByName(m) && i < |SortedValues(m)|
    ensures NameOf(SortedValues(m)[i]) in m && m[NameOf(SortedValues(m)[i])] == SortedValues(m)[i]
  {
    var vs := SortedValues(m);
    SortedValuesSorted(m);
    assert vs[i] in multiset(vs);
    assert vs[i] in m.Values;
    var n :| n in m && m[n] == vs[i];
  }

  lemma ExportAllHas(pkg: Package, ds: seq<Decl>, d: Decl)
    requires d in ds
    ensures ExportMethod(pkg, d) in ExportAll(pkg, ds)
  {
    var i :| 0 <= i < |ds| && ds[i] == d;
    ExportAllAt(pkg, ds, i);
  }

  /** Every value of a map filed by name reaches the exported sorted
      sequence, and every element of that sequence has a key's name. */
  lemma ExportedValues(pkg: Package, m: map<string, Decl>)
    requires FiledByName(m)
    ensures forall n :: n in m ==> ExportMethod(pkg, m[n]) in ExportAll(pkg, SortedValues(m))
    ensures forall d :: d in ExportAll(pkg, SortedValues(m)) ==> NameOf(d) in m
  {
    var vs := SortedValues(m);
    var ms := ExportAll(pkg, vs);
    forall n | n in m ensures ExportMethod(pkg, m[n]) in ms {
      InSortedValues(m, n);
      ExportAllHas(pkg, vs, m[n]);
    }
    forall d | d in ms ensures NameOf(d) in m {
      var i :| 0 <= i < |ms| && ms[i] == d;
      ExportAllAt(pkg, vs, i);
      SortedValueEntry(m, i);
    }
  }

  /** The exported sorted values of `promoted + own`: own entries win
      over promoted ones of the same name, and nothing else is there. */
  lemma MergedMethods(pkg: Package, promoted: map<string, Decl>, own: map<string, Decl>)
    requires MethodMap(promoted) && MethodMap(own)
    ensures var ms := ExportAll(pkg, SortedValues(promoted + own));
      && (forall n :: n in own ==> ExportMethod(pkg, own[n]) in ms)
      && (forall n :: n in promoted && n !in own ==> ExportMethod(pkg, promoted[n]) in ms)
      && (forall d :: d in ms ==> NameOf(d) in own || NameOf(d) in promoted)
  {
    var all := promoted + own;
    assert FiledByName(all) by {
      forall n | n in all ensures NameOf(all[n]) == n {
        if n in own { assert all[n] == own[n]; } else { assert all[n] == promoted[n]; }
      }
    }
    ExportedValues(pkg, all);
    var ms := ExportAll(pkg, SortedValues(all));
    forall n | n in own ensures ExportMethod(pkg, own[n]) in ms {
      assert all[n] == own[n];
    }
    forall n | n in promoted && n !in own ensures ExportMethod(pkg, promoted[n]) in ms {
      assert all[n] == promoted[n];
    }
  }

  /** Precedence in the method set: every own exported method is in it
      (the last one declared under each name, by `OwnMethodsLast`),
      whichever declarations promote the same name; a promoted method is
      in it only where no own method has its name; and nothing else is. */
  lemma DeepPrecedence(conf: Config, fuel: nat, cache: Cache, pkg: Package, name: string)
    requires fuel > 0 && FirstFileDeclaring(pkg.files, name) < |pkg.files|
    ensures var s := StructRun(conf, fuel - 1, cache, pkg, name);
      var r := Deep(conf, fuel, cache, pkg, name);
      var own := OwnMethods(AllDecls(pkg.files), name);
      s.Done? && s.value.result.Ok? ==>
        var promoted := s.value.result.value;
        && r.Done? && r.value.result.Ok? && MethodMap(promoted)
        && r.value.result.value == ExportAll(pkg, SortedValues(promoted + own))
        && (forall n :: n in own ==> ExportMethod(pkg, own[n]) in r.value.result.value)
        && (forall n :: n in promoted && n !in own ==> ExportMethod(pkg, promoted[n]) in r.value.result.value)
        && (forall d :: d in r.value.result.value ==> NameOf(d) in own || NameOf(d) in promoted)
  {
    DeepAtDeclaration(conf, fuel, cache, pkg, name);
    var s := StructRun(conf, fuel - 1, cache, pkg, name);
    if s.Done? && s.value.result.Ok? {
      var promoted := s.value.result.value;
      var own := OwnMethods(AllDecls(pkg.files), name);
      StructRunSound(conf, fuel - 1, cache, pkg, name);
      OwnMethodsAreMethods(AllDecls(pkg.files), name);
      MergedMethods(pkg, promoted, own);
      assert Deep(conf, fuel, cache, pkg, name) == Done(Outcome(Ok(ExportAll(pkg, SortedValues(promoted + own))), s.value.cache));
    }
  }

  /** A method set is left unchanged by exporting it again: the promoted
      methods keep the package qualifiers of the package they come from. */
  lemma ExportKeepsMethodSet(pkg: Package, ms: seq<Decl>, d: Decl)
    requires MethodSet(ms) && d in ms
    ensures ExportMethod(pkg, d) == d
  {
    ExportFixpoint(pkg, Func(d.typ));
  }

  /** `type node struct { *node }`, the only declaration of package `list`. */
  function SelfEmbedding(): Package {
    Package("list", [File([], [GenDecl(Type, [TypeSpec("node", Struct([Field([], Star(Ident("node")))]))])])])
  }

  /** A struct that embeds a pointer to itself: `GetMethodsDeep` asks for
      the method set of the same type again before it has one, so no
      number of nested calls is enough, whatever the configuration and
      the cache. */
  lemma {:induction false} SelfEmbeddingNeverReturns(conf: Config, fuel: nat, cache: Cache)
    ensures Deep(conf, fuel, cache, SelfEmbedding(), "node") == Stuck
    decreases fuel
  {
    if fuel > 0 {
      var pkg := SelfEmbedding();
      var f := pkg.files[0];
      var d := f.decls[0];
      var t := Star(Ident("node"));
      SelfEmbeddingNeverReturns(conf, fuel - 1, cache);
      assert ResolveType(conf, cache, f, t) == Outcome(Ok((None, "node")), cache);
      assert EmbeddedMethods(conf, fuel - 1, cache, pkg, f, t) == Stuck;
      assert GetEmbeddedStruct([Field([], t)]) == [t];
      assert FindStructIn(d, "node") == Ok(Some([Field([], t)]));
      assert ResolveMethods(conf, fuel - 1, cache, pkg, f, [t], map[]) == Stuck;
      assert ScanDecls(conf, fuel - 1, cache, pkg, f, "node", f.decls, Scan(map[], false)) == Stuck;
    }
  }

  /** `type a struct { b }`, `type b struct { *c }`, `type c struct {}` and
      `func (c) Run()`, in one file of package `p`. */
  function Chain(): Package {
    Package("p", [File([], [
      GenDecl(Type, [TypeSpec("a", Struct([Field([], Ident("b"))]))]),
      GenDecl(Type, [TypeSpec("b", Struct([Field([], Star(Ident("c")))]))]),
      GenDecl(Type, [TypeSpec("c", Struct([]))]),
      FuncDecl(Some(Receiver("c", false)), "Run", FuncType(Fields([]), NoFields))])])
  }

  /** `Run` as it appears in a method set: no receiver. */
  function ChainRun(): Decl {
    FuncDecl(None, "Run", FuncType(Fields([]), NoFields))
  }

  /** A one-entry map sorts to its one value, which qualifying leaves
      alone. */
  lemma ChainSorted(pkg: Package, m: map<string, Decl>, d: Decl)
    requires m == map["Run" := d] && d.FuncDecl? && d.name == "Run" && d.typ == ChainRun().typ
    ensures ExportAll(pkg, SortedValues(m)) == [ChainRun()]
  {
    var empty: map<string, Decl> := map[];
    SortedValuesInsert(empty, "Run", d);
    assert m == empty["Run" := d];
    assert SortedValues(empty) == [];
  }

  /** The one-file package `pkg` whose struct `name` is found at `i`,
      whose type promotes `promoted` and whose own methods are `own`, has
      the method set `Run` when `promoted` over `own` is `Run` alone. */
  lemma ChainDeep(conf: Config, k: nat, cache: Cache, pkg: Package, i: nat, name: string,
                  promoted: map<string, Decl>, own: map<string, Decl>, d: Decl)
    requires |pkg.files| == 1 && i < |pkg.files[0].decls| && ChainFacts(pkg, name, i, pkg.files[0].decls[i], own)
    requires AtStruct(conf, k, cache, pkg, pkg.files[0], name, pkg.files[0].decls[i]) == Done(Outcome(Ok(promoted), cache))
    requires promoted + own == map["Run" := d] && d.FuncDecl? && d.name == "Run" && d.typ == ChainRun().typ
    ensures Deep(conf, k + 1, cache, pkg, name) == Done(Outcome(Ok([ChainRun()]), cache))
  {
    assert StructRun(conf, k, cache, pkg, name) == Done(Outcome(Ok(promoted), cache));
    DeepAtDeclaration(conf, k + 1, cache, pkg, name);
    assert AllDecls(pkg.files) == pkg.files[0].decls + AllDecls(pkg.files[1..]);
    assert AllDecls(pkg.files) == pkg.files[0].decls;
    ChainSorted(pkg, promoted + own, d);
  }

  lemma MapUnionEmpty(m: map<string, Decl>)
    ensures m + map[] == m
  {
  }

  lemma EmptyUnionMap(m: map<string, Decl>)
    ensures map[] + m == m
  {
  }

  /** Where the scan of `Chain` stops for `typ`: the first and only file,
      at declaration `i`, which is `d`; and the own methods of `typ`. */
  predicate ChainFacts(pkg: Package, typ: string, i: nat, d: Decl, own: map<string, Decl>) {
    && |pkg.files| == 1 && i < |pkg.files[0].decls| && pkg.files[0].decls[i] == d
    && FirstFileDeclaring(pkg.files, typ) == 0 && FirstDeclaring(pkg.files[0].decls, typ) == i
    && OwnMethods(pkg.files[0].decls, typ) == own
  }

  lemma ChainFactsA(pkg: Package)
    requires pkg == Chain()
    ensures ChainFactsOfA(pkg)
  {
    var ds := pkg.files[0].decls;
    assert !OwnExported(ds[3], "a");
  }

  lemma ChainFactsB(pkg: Package)
    requires pkg == Chain()
    ensures ChainFactsOfB(pkg)
  {
    var ds := pkg.files[0].decls;
    assert FirstDeclaring(ds[1..], "b") == 0;
    assert !OwnExported(ds[3], "b");
  }

  lemma ChainFactsC(pkg: Package)
    requires pkg == Chain()
    ensures ChainFactsOfC(pkg)
  {
    var ds := pkg.files[0].decls;
    assert FirstDeclaring(ds[2..], "c") == 0;
    assert FirstDeclaring(ds[1..], "c") == 1;
    assert OwnMethods(ds[3..], "c") == map["Run" := ds[3]];
  }

  /** `func (c) Run()` as declared. */
  function ChainRunDecl(): Decl {
    FuncDecl(Some(Receiver("c", false)), "Run", ChainRun().typ)
  }

  predicate ChainFactsOfC(pkg: Package) {
    ChainFacts(pkg, "c", 2, GenDecl(Type, [TypeSpec("c", Struct([]))]), map["Run" := ChainRunDecl()])
  }

  lemma ChainC(conf: Config, cache: Cache, pkg: Package)
    requires ChainFactsOfC(pkg)
    ensures Deep(conf, 1, cache, pkg, "c") == Done(Outcome(Ok([ChainRun()]), cache))
  {
    var f := pkg.files[0];
    var empty: map<string, Decl> := map[];
    assert GetEmbeddedStruct([]) == [];
    assert AtStruct(conf, 0, cache, pkg, f, "c", f.decls[2]) == Done(Outcome(Ok(empty), cache));
    var own := map["Run" := ChainRunDecl()];
    EmptyUnionMap(own);
    ChainDeep(conf, 0, cache, pkg, 2, "c", empty, own, ChainRunDecl());
  }

  /** An embedded unexported `inner` (or `*inner`) whose method set is
      `Run` promotes `Run`, and loads nothing. */
  lemma ChainEmbeds(conf: Config, k: nat, cache: Cache, pkg: Package, f: File, t: Expr, inner: string)
    requires Unstar(t) == Ident(inner) && !IsExported(inner)
    requires Deep(conf, k, cache, pkg, inner) == Done(Outcome(Ok([ChainRun()]), cache))
    ensures ResolveMethods(conf, k, cache, pkg, f, [t], map[]) == Done(Outcome(Ok(map["Run" := ChainRun()]), cache))
  {
    EmbeddedMethodsIs(conf, k, cache, pkg, f, t);
    var empty: map<string, Decl> := map[];
    assert AddAbsent(empty, [ChainRun()]) == map["Run" := ChainRun()];
    assert [t][1..] == [];
  }

  /** The declaration `type name struct { t }` promotes `Run` when `t`
      does. */
  lemma ChainAtStruct(conf: Config, k: nat, cache: Cache, pkg: Package, f: File, d: Decl, name: string, t: Expr, inner: string)
    requires d == GenDecl(Type, [TypeSpec(name, Struct([Field([], t)]))])
    requires Unstar(t) == Ident(inner) && !IsExported(inner)
    requires Deep(conf, k, cache, pkg, inner) == Done(Outcome(Ok([ChainRun()]), cache))
    ensures AtStruct(conf, k, cache, pkg, f, name, d) == Done(Outcome(Ok(map["Run" := ChainRun()]), cache))
  {
    assert GetEmbeddedStruct([Field([], t)]) == [t];
    ChainEmbeds(conf, k, cache, pkg, f, t, inner);
  }

  predicate ChainFactsOfB(pkg: Package) {
    ChainFacts(pkg, "b", 1, GenDecl(Type, [TypeSpec("b", Struct([Field([], Star(Ident("c")))]))]), map[])
  }

  predicate ChainFactsOfA(pkg: Package) {
    ChainFacts(pkg, "a", 0, GenDecl(Type, [TypeSpec("a", Struct([Field([], Ident("b"))]))]), map[])
  }

  lemma ChainB(conf: Config, cache: Cache, pkg: Package)
    requires ChainFactsOfB(pkg) && ChainFactsOfC(pkg)
    ensures Deep(conf, 2, cache, pkg, "b") == Done(Outcome(Ok([ChainRun()]), cache))
  {
    ChainC(conf, cache, pkg);
    ChainAtStruct(conf, 1, cache, pkg, pkg.files[0], pkg.files[0].decls[1], "b", Star(Ident("c")), "c");
    var promoted := map["Run" := ChainRun()];
    MapUnionEmpty(promoted);
    ChainDeep(conf, 1, cache, pkg, 1, "b", promoted, map[], ChainRun());
  }

  lemma ChainA(conf: Config, cache: Cache, pkg: Package)
    requires ChainFactsOfA(pkg) && ChainFactsOfB(pkg) && ChainFactsOfC(pkg)
    ensures Deep(conf, 3, cache, pkg, "a") == Done(Outcome(Ok([ChainRun()]), cache))
  {
    ChainB(conf, cache, pkg);
    ChainAtStruct(conf, 2, cache, pkg, pkg.files[0], pkg.files[0].decls[0], "a", Ident("b"), "b");
    var promoted := map["Run" := ChainRun()];
    MapUnionEmpty(promoted);
    ChainDeep(conf, 2, cache, pkg, 0, "a", promoted, map[], ChainRun());
  }

  /** Promotion is transitive: `Run`, declared only on `c`, is in the method
      set of `a`, which embeds `b`, which embeds `*c`; with any depth bound
      of three or more, and nothing is loaded. */
  lemma ChainPromotes(conf: Config, fuel: nat, cache: Cache)
    requires fuel >= 3
    ensures Deep(conf, fuel, cache, Chain(), "a") == Done(Outcome(Ok([ChainRun()]), cache))
  {
    ChainFactsA(Chain());
    ChainFactsB(Chain());
    ChainFactsC(Chain());
    ChainA(conf, cache, Chain());
    DeepFuel(conf, 3, fuel, cache, Chain(), "a");
  }
}
