# impast, modelled in Dafny

`impast` is a Go library that works on the syntax trees of Go packages. It
imports a package by import path, with an optional cache. It finds type
declarations by name. It rewrites type expressions so that exported names
carry their package qualifier. It lists the methods of a type. It computes
the *deep* method set of a struct: its own exported methods plus those
promoted from embedded types, following embedded types into other packages.
For interfaces it collects the required methods, and it gives generated
names to anonymous parameters.

This project models that core, all of it in `impast.go`, and proves
properties of the model. One module per file:

| file | module | what it holds |
|---|---|---|
| `ast.dfy` | `Ast` | the syntax trees: type expressions, field lists, declarations, files, packages |
| `errors.dfy` | `Errors` | the errors the library reports, with the context each wrap adds; `Result` |
| `loader.dfy` | `Loader` | the test-file filter, choosing the package of a directory, `ImportPackage` with the cache, as functions |
| `declarations.dfy` | `Declarations` | `ScanDecl`, `FindTypeByName`, `FindStruct`, `FindInterface`, `findStruct`, `getEmbeddedStruct`, `isOwnMethod`, `GetMethods` |
| `qualifier.dfy` | `Qualifier` | `ExportType`, `ExportFields`, `ExportFunc` |
| `ordering.dfy` | `Ordering` | Go's byte-wise string order, insertion by name, the values of a map in key order |
| `resolution.dfy` | `Resolution` | `ResolvePackage` and `ResolveType`, as functions of the configuration and the cache |
| `methodsets.dfy` | `MethodSets` | `GetMethodsDeep`, `resolveMethodsDeep` and `getEmbeddedMethods`, as specification functions, with their properties |
| `importer.dfy` | `Importer` | the `Importer` object: its cache field and the methods that update it, each proved against the functions above |
| `interfaces.dfy` | `Interfaces` | `GetRequires` and `AutoNaming` |

The world outside the library is a parameter. A `Host` value carries three
functions: locating a package directory (`build.Import`), parsing a
directory with a file filter (`parser.ParseDir`), and unquoting a path
literal (`strconv.Unquote`). The importer's configuration is a host plus
`EnableCache`.

`GetMethodsDeep` has no guard against a struct that embeds itself, directly
or through other types. The model therefore describes it with a fuel bound:
`MethodSets.Deep` follows the recursion to a given depth and is `Stuck`
beyond it. The methods of `Importer.Importer` require a fuel for which the
description returns. `MethodSets.SelfEmbeddingNeverReturns` shows a
concrete package for which no fuel is enough.

Where the code does something other than its names suggest, the model
follows the code:

- A directory with no packages is reported as "ambiguous packages, found 0"
  (`AmbiguousPackages(0)`), not as "package not found" (impast.go:71-73).
- The final "package not found" in `ImportPackage` (impast.go:80) cannot be
  reached, although the `PackageNotFound` sentinel (impast.go:21) is declared
  for it.
- `ResolveType` on an exported bare identifier imports the package of the
  working directory (`"."`), not the package at hand (impast.go:284-290).
- An own method matches both a `T` and a `*T` receiver (impast.go:402-411).
  `GetMethods` compares the printed receiver, so `"T"` does not match `*T`.

`ExportFields` copies only the field list header and writes the qualified
types back into the shared field objects (impast.go:128-138), so qualifying
a method mutates the declaration it came from, in the cached package. The
model builds new values instead. `Qualifier.ExportIdempotent` covers only
later calls that qualify again: a qualified expression is a fixed point of
qualifying, with any package, so a repeated `GetMethodsDeep`, which always
qualifies with the declaration's own package, gives the same result. A
later `GetMethods` on that package returns the method declarations with
their signatures already qualified in the source, and the original ones in
the model. `ExportFunc` is applied only to method declarations
(impast.go:203), so `FindTypeByName`, which returns type specs, is not
affected.

## Model

| member | source | states |
|---|---|---|
| Ast.AllDeclsAppend | impast.go:87-95 | the declarations of two runs of files are those of the first followed by those of the second |
| Ast.ReceiverTextShape | impast.go:156-157 | for a receiver whose type name is an identifier, the printed form starts with `*` exactly for pointer receivers and ends with the type name |
| Ast.ReceiverTextInjective | impast.go:156-157 | two such receivers that print alike are equal, so comparing printed receivers compares receivers |
| Loader.IgnoreTestFileOnGoFiles | impast.go:25-27 | a file `base.go` passes the parser filter exactly when `base` does not end in `_test` |
| Loader.CandidatesCount | impast.go:68-70 | dropping `main` from several packages removes exactly one package when `main` is among them, otherwise none |
| Loader.SelectPackage | impast.go:68-79 | the pick succeeds exactly for one package, or two of which one is `main`; it returns one of them, never the one filed under `main` when there were several; otherwise "ambiguous packages" with the count that is left |
| Loader.SelectPackageName | impast.go:68-79 | when the parsed packages are filed under their names, as `parser.ParseDir` files them, the pick is the package under its own name and never `main` when there were several |
| Loader.LoadPackage | impast.go:57-79 | a locate failure is wrapped "failed to import"; a parse failure is wrapped "broken package" with the directory; a success is one of the packages parsed from the located directory |
| Loader.ImportPackage | impast.go:51-81 | a cached path is answered from the cache only when caching is on; anything else is a fresh load |
| Loader.ImportCache | impast.go:51-81 | caching off never touches the cache; a failure never touches it; the cache only gains the imported path; with caching on a success is stored |
| Loader.ImportTwice | impast.go:51-56 | with caching on, a second import of a path that loaded gives the same package and the same cache |
| Loader.ImportCoherent | impast.go:51-81 | when every cached package is what loading its path gives, an import gives what loading gives and keeps that property |
| Loader.ImportBound | impast.go:51-81 | on any cache, one filled by `Load` included, an import gives what its path is bound to (with caching on a cached package, otherwise a fresh load) and leaves every path bound as before |
| Loader.CoherentBound | impast.go:51-81 | on a coherent cache a path is bound to what loading it gives |
| Loader.ExtendsTransitive | impast.go:51-81 | cache growth composes: two steps extend the cache with the union of their paths |
| Declarations.VisitedStopsAtFirstRejection | impast.go:87-95 | the callback sees a prefix of the declarations in order, all accepted but the last, which is rejected when the scan stops early; if all are accepted it sees them all |
| Declarations.VisitedAfterAccepted | impast.go:87-95 | accepted declarations do not stop the scan: what follows is scanned as if on its own |
| Declarations.ScanDecl | impast.go:87-95 | the nested loop visits exactly the declarations `Visited` describes |
| Declarations.FindSpec | impast.go:326-332 | nothing is found exactly when no spec has the name |
| Declarations.FindSpecIsFirst | impast.go:326-332 | the type found is the type of the first spec with the name |
| Declarations.FindTypeIn | impast.go:319-336 | nothing is found exactly when no declaration is a `type` declaration of the name |
| Declarations.FindTypeInIsFirst | impast.go:319-336 | the type found comes from the first declaring declaration |
| Declarations.FindTypeByName | impast.go:319-336 | `None` exactly when no declaration of the package declares the type; otherwise the type of the first declaring spec |
| Declarations.FindTypeByNameIsScan | impast.go:319-336 | the result is what the `ScanDecl` callback records at the declaration where it stops |
| Declarations.FindStruct | impast.go:346-352 | a result exactly when the type found is a struct, and then it is that struct's fields |
| Declarations.FindInterface | impast.go:338-344 | a result exactly when the type found is an interface, and then it is that interface's methods |
| Declarations.StructOrInterface | impast.go:338-352 | no name gives both a struct and an interface |
| Declarations.FindStructIn | impast.go:211-227 | a non-type declaration gives nothing; otherwise the first spec of the name decides: absent gives nothing, a struct gives its fields, anything else is "is not struct" |
| Declarations.LookUpStruct | impast.go:211-227 | the loop over the specs returns what `FindStructIn` describes |
| Declarations.GetEmbeddedStruct | impast.go:229-238 | the embedded types of a struct; what they are is stated by `EmbeddedAreUnnamed` and `EmbeddedInOrder` |
| Declarations.EmbeddedAreUnnamed | impast.go:229-238 | a type is embedded exactly when some field without names has it |
| Declarations.EmbeddedInOrder | impast.go:229-238 | the embedded types of two runs of fields are those of the first followed by those of the second |
| Declarations.CollectEmbedded | impast.go:229-238 | the loop appends exactly the types `GetEmbeddedStruct` lists |
| Declarations.IsOwnMethod | impast.go:402-411 | the receiver test itself; its meaning in printed receivers is stated by `OwnMethodReceivers` |
| Declarations.OwnMethodReceivers | impast.go:402-411 | a method is own to `T` exactly when its receiver prints as `T` or `*T` |
| Declarations.MethodsOf | impast.go:146-163 | the listing `GetMethods` returns, never longer than the declarations; its members and order are stated by `MethodsOfMembers` and `MethodsOfAppend` |
| Declarations.MethodsOfMembers | impast.go:146-163 | a declaration is listed exactly when it is an exported method whose receiver prints as the name |
| Declarations.ExactReceiverMatch | impast.go:156-157 | a listed method has a value receiver of exactly that type name, never a pointer one |
| Declarations.MethodsOfAppend | impast.go:146-163 | the listing of two runs of declarations is the listing of the first followed by that of the second |
| Declarations.GetMethods | impast.go:146-163 | the nested loop returns the listed methods in scan order |
| Qualifier.ExportType | impast.go:97-126 | the qualifying rewrite of a type expression; what it does is stated by `ExportQualifies`, `ExportFixpoint`, `ExportIdempotent`, `ExportPreservesStructure` and `ExportSelectors` |
| Qualifier.ExportFields | impast.go:128-137 | the rewrite of a field list; stated by `ExportFieldsQualify` and `ExportFieldSeqKeepsNames` |
| Qualifier.ExportFunc | impast.go:139-144 | the receiver is dropped, the name kept, and the signature qualified |
| Qualifier.ExportQualifies | impast.go:97-126 | after qualifying, no exported bare identifier is left in a rewritten position |
| Qualifier.ExportFieldsQualify | impast.go:128-137 | a qualified field list has qualified types |
| Qualifier.ExportFixpoint | impast.go:97-126 | qualifying leaves an expression unchanged exactly when it is already qualified |
| Qualifier.ExportIdempotent | impast.go:97-144 | qualifying a qualified expression again, with any package, changes nothing |
| Qualifier.ExportPreservesStructure | impast.go:97-126 | once qualifiers are forgotten, the rewritten expression is the original: only qualifiers are added |
| Qualifier.ExportSelectors | impast.go:97-126 | the qualifier added is the package's name: the selectors of the result are those of the input plus `pkg.name.N` for each exported bare identifier `N`, and no other |
| Qualifier.QualifiedNoBareExported | impast.go:97-103 | a qualified expression has no exported bare identifier, so qualifying it adds no selector |
| Qualifier.ExportFieldSeqKeepsNames | impast.go:128-137 | the field list keeps its length and every field its names, with its type qualified |
| Ordering.LessTransitive | impast.go:205-207 | Go's string order is transitive |
| Ordering.LessTotal | impast.go:205-207 | of two different strings one is smaller |
| Ordering.LessAsymmetric | impast.go:205-207 | no two strings are each smaller than the other |
| Ordering.InsertByNameElements | impast.go:201-207 | insertion adds exactly the inserted element |
| Ordering.InsertByNameSorted | impast.go:205-207 | insertion into a sorted sequence of a new name keeps it sorted |
| Ordering.SortedByNameUnique | impast.go:205-207 | two sorted sequences with the same elements are equal, so the sorted order does not depend on map iteration order |
| Ordering.SortedValuesSorted | impast.go:201-207 | the values of a map filed by name, in key order, are sorted and are exactly the map's values, one per key |
| Ordering.SortedValuesInsert | impast.go:201-207 | a new entry's value is inserted at its place among the sorted values |
| Resolution.ResolvePackage | impast.go:299-317 | the resolution itself; what it does is stated by `ResolvePackageHead`, `ResolvePackageFirstMatch`, `ResolvePackageLoadFailure`, `ResolvePackageOk`, `ResolvePackageNotFound` and `ResolvePackageCache` |
| Resolution.ResolvePackageHead | impast.go:299-317 | on any cache each import fails, binds the name, or is skipped; a failure or a binding ends the resolution with that error or package, a skip goes on with the rest, and every path stays bound as it was |
| Resolution.ResolvePackageCache | impast.go:299-317 | resolution only caches packages of the file's imports, and nothing with caching off |
| Resolution.ResolvePackageFirstMatch | impast.go:299-317 | on any cache, the first import that binds the name (to the cached or the loaded package), after imports that all do not, gives its package |
| Resolution.ResolvePackageLoadFailure | impast.go:299-317 | on any cache, an unquotable path, or a binding import whose path is neither cached nor loadable, after imports that all do not bind, ends resolution with that error, wrapped |
| Resolution.ResolvePackageOk | impast.go:299-317 | on any cache, a package is found only through a binding import, with every import before it not binding |
| Resolution.ResolvePackageNotFound | impast.go:299-317 | on any cache, "package not found" exactly when no import binds the name |
| Resolution.PreloadedPackageResolves | impast_test.go:888-912 | a package handed to `Load` under a path the host cannot load resolves its import: the cache is not coherent, and resolution succeeds |
| Resolution.ResolveType | impast.go:270-293 | the resolution of an embedded type itself; what it does is stated by `ResolveTypeMeaning` |
| Resolution.ResolveTypeMeaning | impast.go:270-293 | a pointer star changes nothing; the name is the declared one; the package is absent exactly for an unexported bare name, which loads nothing; a qualified name succeeds exactly when its package resolves, takes that package, and otherwise fails with the resolution error wrapped as `FailedToResolvePackage`; an exported bare name succeeds exactly when `"."` is bound on the cache (cached or loaded), takes that package, and otherwise fails with the load error wrapped as `FailedToImportSelf`; only imported paths and `"."` are cached |
| Resolution.PreloadedTypeResolves | impast_test.go:888-962 | `foobar.Type`, an aliased `fb.Type` and `*foobar.Type` resolve through a package handed to `Load` to that package and the name `Type` |
| MethodSets.Deep | impast.go:169-209 | `GetMethodsDeep` to a recursion depth; what it returns is stated by `DeepIs`, `DeepSound`, `DeepPrecedence`, `DeepTypeNotFound`, `DeepNotStruct`, `DeepAborts` and `DeepFuel` |
| MethodSets.ResolveMethods | impast.go:251-264 | `resolveMethodsDeep`; stated by `ResolveMethodsSound`, `ResolveMethodsFrom`, `ResolveMethodsEarlierWins` and `AddAbsentFirst` |
| MethodSets.EmbeddedMethods | impast.go:240-249 | `getEmbeddedMethods`; stated by `EmbeddedMethodsIs`, `EmbeddedMethodsSound` and `ChainPromotes` |
| MethodSets.EmbeddedMethodsIs | impast.go:240-249 | a failed `ResolveType` is wrapped as "failed to resolve type"; an unexported bare `n` or `*n` is looked up in the current package with the cache untouched (the nil package replaced by the current one); a qualified name in the package its import resolves to; an exported bare name in the package `"."` is bound to |
| MethodSets.DeepFuel | impast.go:169-264 | more fuel never changes a result that returned |
| MethodSets.DeepSound | impast.go:169-209 | a returned method set is sorted by name, duplicate-free, and holds exported, receiver-less, qualified methods; the cache only grows, and not at all with caching off |
| MethodSets.ResolveMethodsSound | impast.go:251-264 | the promoted methods are exported methods filed under their names; the cache only grows |
| MethodSets.EmbeddedMethodsSound | impast.go:240-249 | an embedded type's deep method set has the same guarantees as `GetMethodsDeep`'s |
| MethodSets.ExportSortedIsMethodSet | impast.go:201-207 | qualifying and sorting a map of exported methods gives a method set |
| MethodSets.ExportAllInsert | impast.go:201-207 | qualifying keeps names, so qualifying then sorting equals sorting then qualifying |
| MethodSets.AddAbsentFirst | impast.go:258-262 | merging keeps every existing entry and adds, for each new name, the first method of the list with it |
| MethodSets.ResolveMethodsFrom | impast.go:251-264 | filling a map is filling an empty map with the existing entries kept on top |
| MethodSets.ResolveMethodsEarlierWins | impast.go:251-264 | an entry already in `dest` is never replaced by a later embedded type |
| MethodSets.OwnMethodsLast | impast.go:176-179 | the own-method map has a name exactly when some own exported method has it, and holds the last such method |
| MethodSets.ScanDeclsIs | impast.go:173-196 | the declaration scan is the own methods plus, from the first struct declaration of the name, the methods its embedded types promote |
| MethodSets.ScanFilesIs | impast.go:172-197 | the same over files: the first file that declares the name decides what is promoted |
| MethodSets.DeepIs | impast.go:169-209 | "type not found" when no file declares the name; otherwise the struct's promoted methods under all own methods, qualified and sorted, or the struct step's error |
| MethodSets.FirstFileDeclaringFinds | impast.go:182-196 | the declaration the scan stops at is the one `FindTypeByName` finds |
| MethodSets.DeepTypeNotFound | impast.go:198-200 | "type not found" exactly when `FindTypeByName` finds nothing, and then the cache is untouched |
| MethodSets.DeepNotStruct | impast.go:185-187 | a name bound to a non-struct type is "failed to find struct: is not struct", before anything is loaded |
| MethodSets.DeepAborts | impast.go:192-194 | an error while collecting promoted methods is the whole call's error |
| MethodSets.StructRunSound | impast.go:251-264 | what the struct's embedded types bring in is a map of exported methods filed by name |
| MethodSets.MergedMethods | impast.go:176-207 | every own method is in the result, a promoted method only under a name no own method has, and nothing else |
| MethodSets.DeepPrecedence | impast.go:169-209 | the returned set is the promoted methods overridden by own ones, qualified and sorted, with the precedence of `MergedMethods` |
| MethodSets.ExportKeepsMethodSet | impast.go:201-203 | qualifying a method of a returned set again changes nothing: promoted methods keep their own package's qualifiers |
| MethodSets.SelfEmbeddingNeverReturns | impast.go:240-264 | for `type node struct { *node }` no recursion depth is enough: the call never returns |
| MethodSets.ChainPromotes | impast.go:169-264 | promotion is transitive: with `type a struct { b }`, `type b struct { *c }` and `func (c) Run()`, the method set of `a` is exactly `Run`, with any depth of three or more and nothing loaded |
| Importer.MethodList | impast.go:201-207 | the collected methods, qualified, in name order: the qualified sorted values of the map |
| Importer.Importer.constructor | impast.go:29-34 | a new importer has the given host and caching switch and an empty cache; `DefaultImporter` is the one with caching off |
| Importer.Importer.Load | impast.go:36-40 | every handed-in package is cached under its path, replacing what was there |
| Importer.Importer.Loaded | impast.go:42-49 | the cached paths, each exactly once |
| Importer.Importer.ImportPackage | impast.go:51-81 | the result and the new cache are those of `Loader.ImportPackage` |
| Importer.Importer.ResolvePackage | impast.go:299-317 | the loop with early returns gives the result and the cache of `Resolution.ResolvePackage` |
| Importer.Importer.ResolveType | impast.go:270-293 | the result and the cache of `Resolution.ResolveType` |
| Importer.Importer.GetMethodsDeep | impast.go:169-209 | the nested loops and the sort give the result and the cache `Deep` describes |
| Importer.Importer.GetEmbeddedMethods | impast.go:240-249 | the result and the cache `EmbeddedMethods` describes |
| Importer.Importer.ResolveMethodsDeep | impast.go:251-264 | the loop over the embedded types gives the map and the cache `ResolveMethods` describes |
| Interfaces.FirstByNameNames | impast.go:367-374 | deduplication keeps exactly the names not seen before |
| Interfaces.FirstByNameDistinct | impast.go:367-374 | a deduplicated list has no name twice and none already seen |
| Interfaces.FirstByNameKeepsFirst | impast.go:367-374 | each kept field is the first field of its name |
| Interfaces.FirstByNameTwice | impast.go:367-374 | deduplicating twice is deduplicating once against both seen sets |
| Interfaces.RequiresFirstOfEachName | impast.go:363-386 | the required methods have distinct names, every name of the flattened walk, and each is the first field of its name in the walk |
| Interfaces.Add | impast.go:367-374 | adding a field appends it only when its name is new, and records its name |
| Interfaces.AddAll | impast.go:367-380 | adding a list appends the fields of new names and records all its names |
| Interfaces.Requires | impast.go:363-386 | the required methods: the walk with embedded interfaces expanded in place, first of each name; stated by `RequiresFirstOfEachName` |
| Interfaces.GetRequires | impast.go:363-386 | the recursive loop returns `Requires`: the walk of the interface, embedded interfaces expanded in place, first of each name |
| Interfaces.DecimalRoundTrip | impast.go:397 | the decimal rendering of a number reads back as that number |
| Interfaces.ArgNameInjective | impast.go:397 | different positions get different generated names |
| Interfaces.AutoNaming | impast.go:388-400 | results are unchanged and parameters keep their count and types; an empty list or one whose first parameter is named is returned as is; otherwise parameter `i` gains the name `arg(i+1)`, giving distinct names when all were anonymous |

## Left out

- `IsExported` tests for an ASCII upper-case first letter; Go's `ast.IsExported` accepts any Unicode upper-case letter.
- `TypeName` (impast.go:354-361) calls the Go printer. The model prints only receiver types, which are `T` or `*T`.
- `sync.Map` is safe for concurrent use. The model has one importer used sequentially.
- `ExportFields` and `AutoNaming` update shared field objects in place. The model returns new values, so the aliasing is not modelled.
- Interfaces.AutoNaming: requires a parameter list (`ft.params.Fields?`); the source reads `t.Params.List` without a nil check and panics on a function type with nil `Params` (impast.go:390), which the model does not represent.
- `os.Getwd` only feeds an error message (impast.go:286). Error messages are modelled by their structure, not their text.
- A receiver is one type name, as `List[0]` is all `isOwnMethod` and `GetMethods` read; generic receivers, on which `isOwnMethod` panics at the type assertion of impast.go:410, are not expressible in the model's `Receiver`.
- A selector in type position whose left side is not an identifier (the panic at impast.go:279) is not expressible in the model's `Selector`.
- `build.Import`, `parser.ParseDir` and `strconv.Unquote` are the `Host` functions; the file system is not modelled.
- `GetRequires` panics on an embedded interface that is not a resolved identifier, and loops on an interface that embeds itself; the model requires an acyclic, resolved scope (`Closed`).
- MethodSets.Deep: the recursion is bounded by fuel. A call that would recurse forever, such as on a self-embedding struct, is `Stuck` and has no result. An embedded type of a shape `ResolveType` panics on is `Stuck` too.
- `pkg.Files` is a Go map, so the files are scanned in an unspecified order. The model scans them in a fixed order. The declarations `ScanDecl` visits and the methods `GetMethods` lists therefore come in one fixed order in the model, while in the source their order varies whenever they lie in more than one file. For `GetMethodsDeep` and `FindTypeByName` the order matters only when several files declare the name, or define the same own method.
- `Host.parseDir` is not required to file packages under their names, as `parser.ParseDir` does. `Loader.SelectPackage` therefore speaks of the key `main`; `Loader.SelectPackageName` carries this to the package name when the packages are filed by name.
- `methods` in `GetMethodsDeep` is built by appending in map order and then `sort.Slice`. The model inserts each method at its sorted place as it goes. Names in the map are distinct, so the result is the same (`Ordering.SortedByNameUnique`).
- Importer.Importer.ResolveMethodsDeep: returns the filled map, whereas `resolveMethodsDeep` fills the caller's map in place.
- Importer.Importer.GetMethodsDeep: requires a fuel for which `Deep` returns, because the source has no termination guarantee.
- `DefaultImporter` and the package-level functions that delegate to it are a construction `Importer(host, false)`; there are no mutable globals in the model.
- Strings are compared as sequences of code points. Go compares bytes, which gives the same order on valid UTF-8.
- The command-line tools under `cmd/` are not part of this model.
