/** The type qualifier: rewrites a type expression so that every exported bare
    identifier names the package it was declared in (impast.go:97-144). */
module Qualifier {
  import opened Ast

  /** `ExportType`: an exported identifier becomes `pkg.Name`; the composite
      type shapes are rewritten in their type positions; every other shape is
      returned unchanged. */
  function ExportType(pkg: Package, e: Expr): (r: Expr)
    decreases e
  {
    match e
    case Ident(n) => if IsExported(n) then Selector(pkg.name, n) else e
    case Star(x) => Star(ExportType(pkg, x))
    case Array(len, elt) => Array(len, ExportType(pkg, elt))
    case Map(k, v) => Map(ExportType(pkg, k), ExportType(pkg, v))
    case Chan(dir, v) => Chan(dir, ExportType(pkg, v))
    case Func(ft) => Func(ExportFuncType(pkg, ft))
    case Interface(ms) => Interface(ExportFields(pkg, ms))
    case Ellipsis(elt) => Ellipsis(ExportType(pkg, elt))
    case _ => e
  }

  function ExportFuncType(pkg: Package, ft: FuncType): (r: FuncType)
    decreases ft
  {
    FuncType(ExportFields(pkg, ft.params), ExportFields(pkg, ft.results))
  }

  /** `ExportFields`: a nil list stays nil; otherwise each field keeps its
      names and has its type rewritten. */
  function ExportFields(pkg: Package, fl: FieldList): (r: FieldList)
    decreases fl
  {
    match fl
    case NoFields => NoFields
    case Fields(list) => Fields(ExportFieldSeq(pkg, list))
  }

  function ExportFieldSeq(pkg: Package, fs: seq<Field>): (r: seq<Field>)
    decreases fs
  {
    if fs == [] then []
    else [Field(fs[0].names, ExportType(pkg, fs[0].typ))] + ExportFieldSeq(pkg, fs[1..])
  }

  /** `ExportFunc`: the receiver is dropped and the signature is qualified. */
  function ExportFunc(pkg: Package, fn: Decl): (r: Decl)
    requires fn.FuncDecl?
    ensures r.FuncDecl? && r.recv == None && r.name == fn.name
    ensures Func(r.typ) == ExportType(pkg, Func(fn.typ))
  {
    FuncDecl(None, fn.name, ExportFuncType(pkg, fn.typ))
  }

  /** No exported bare identifier is left in a position `ExportType` rewrites. */
  predicate Qualified(e: Expr)
    decreases e
  {
    match e
    case Ident(n) => !IsExported(n)
    case Star(x) => Qualified(x)
    case Array(_, elt) => Qualified(elt)
    case Map(k, v) => Qualified(k) && Qualified(v)
    case Chan(_, v) => Qualified(v)
    case Func(ft) => QualifiedFuncType(ft)
    case Interface(ms) => QualifiedFields(ms)
    case Ellipsis(elt) => Qualified(elt)
    case _ => true
  }

  predicate QualifiedFuncType(ft: FuncType)
    decreases ft
  {
    QualifiedFields(ft.params) && QualifiedFields(ft.results)
  }

  predicate QualifiedFields(fl: FieldList)
    decreases fl
  {
    match fl
    case NoFields => true
    case Fields(list) => QualifiedFieldSeq(list)
  }

  predicate QualifiedFieldSeq(fs: seq<Field>)
    decreases fs
  {
    fs == [] || (Qualified(fs[0].typ) && QualifiedFieldSeq(fs[1..]))
  }

  /** Forgets every package qualifier in the positions `ExportType` rewrites. */
  function Strip(e: Expr): Expr
    decreases e
  {
    match e
    case Selector(_, n) => Ident(n)
    case Star(x) => Star(Strip(x))
    case Array(len, elt) => Array(len, Strip(elt))
    case Map(k, v) => Map(Strip(k), Strip(v))
    case Chan(dir, v) => Chan(dir, Strip(v))
    case Func(ft) => Func(StripFuncType(ft))
    case Interface(ms) => Interface(StripFields(ms))
    case Ellipsis(elt) => Ellipsis(Strip(elt))
    case _ => e
  }

  function StripFuncType(ft: FuncType): FuncType
    decreases ft
  {
    FuncType(StripFields(ft.params), StripFields(ft.results))
  }

  function StripFields(fl: FieldList): FieldList
    decreases fl
  {
    match fl
    case NoFields => NoFields
    case Fields(list) => Fields(StripFieldSeq(list))
  }

  function StripFieldSeq(fs: seq<Field>): seq<Field>
    decreases fs
  {
    if fs == [] then [] else [Field(fs[0].names, Strip(fs[0].typ))] + StripFieldSeq(fs[1..])
  }

  // ---------------------------------------------------------------------
  // The result of qualifying is qualified.

  lemma {:induction false} ExportQualifies(pkg: Package, e: Expr)
    ensures Qualified(ExportType(pkg, e))
    decreases e
  {
    match e
    case Ident(n) =>
    case Star(x) => ExportQualifies(pkg, x);
    case Array(_, elt) => ExportQualifies(pkg, elt);
    case Map(k, v) => ExportQualifies(pkg, k); ExportQualifies(pkg, v);
    case Chan(_, v) => ExportQualifies(pkg, v);
    case Func(ft) => ExportFuncTypeQualifies(pkg, ft);
    case Interface(ms) => ExportFieldsQualify(pkg, ms);
    case Ellipsis(elt) => ExportQualifies(pkg, elt);
    case _ =>
  }

  lemma {:induction false} ExportFuncTypeQualifies(pkg: Package, ft: FuncType)
    ensures QualifiedFuncType(ExportFuncType(pkg, ft))
    decreases ft
  {
    ExportFieldsQualify(pkg, ft.params);
    ExportFieldsQualify(pkg, ft.results);
  }

  lemma {:induction false} ExportFieldsQualify(pkg: Package, fl: FieldList)
    ensures QualifiedFields(ExportFields(pkg, fl))
    decreases fl
  {
    if fl.Fields? {
      ExportFieldSeqQualifies(pkg, fl.list);
    }
  }

  lemma {:induction false} ExportFieldSeqQualifies(pkg: Package, fs: seq<Field>)
    ensures QualifiedFieldSeq(ExportFieldSeq(pkg, fs))
    decreases fs
  {
    if fs != [] {
      var r := ExportFieldSeq(pkg, fs);
      ExportQualifies(pkg, fs[0].typ);
      ExportFieldSeqQualifies(pkg, fs[1..]);
      assert r[1..] == ExportFieldSeq(pkg, fs[1..]);
    }
  }

  // ---------------------------------------------------------------------
  // Qualified expressions are exactly the fixed points of qualifying.

  lemma {:induction false} ExportFixpoint(pkg: Package, e: Expr)
    ensures ExportType(pkg, e) == e <==> Qualified(e)
    decreases e
  {
    match e
    case Ident(n) =>
    case Star(x) => ExportFixpoint(pkg, x);
    case Array(_, elt) => ExportFixpoint(pkg, elt);
    case Map(k, v) => ExportFixpoint(pkg, k); ExportFixpoint(pkg, v);
    case Chan(_, v) => ExportFixpoint(pkg, v);
    case Func(ft) => ExportFuncTypeFixpoint(pkg, ft);
    case Interface(ms) => ExportFieldsFixpoint(pkg, ms);
    case Ellipsis(elt) => ExportFixpoint(pkg, elt);
    case _ =>
  }

  lemma {:induction false} ExportFuncTypeFixpoint(pkg: Package, ft: FuncType)
    ensures ExportFuncType(pkg, ft) == ft <==> QualifiedFuncType(ft)
    decreases ft
  {
    ExportFieldsFixpoint(pkg, ft.params);
    ExportFieldsFixpoint(pkg, ft.results);
  }

  lemma {:induction false} ExportFieldsFixpoint(pkg: Package, fl: FieldList)
    ensures ExportFields(pkg, fl) == fl <==> QualifiedFields(fl)
    decreases fl
  {
    if fl.Fields? {
      ExportFieldSeqFixpoint(pkg, fl.list);
    }
  }

  lemma {:induction false} ExportFieldSeqFixpoint(pkg: Package, fs: seq<Field>)
    ensures ExportFieldSeq(pkg, fs) == fs <==> QualifiedFieldSeq(fs)
    decreases fs
  {
    if fs != [] {
      var r := ExportFieldSeq(pkg, fs);
      ExportFixpoint(pkg, fs[0].typ);
      ExportFieldSeqFixpoint(pkg, fs[1..]);
      assert r[0] == Field(fs[0].names, ExportType(pkg, fs[0].typ));
      assert r[1..] == ExportFieldSeq(pkg, fs[1..]);
      if r == fs {
        assert fs[1..] == r[1..];
      }
      if QualifiedFieldSeq(fs) {
        assert r == [fs[0]] + fs[1..];
      }
    }
  }

  /** Qualifying an already qualified expression, with any package, changes
      nothing: the qualifier is idempotent. */
  lemma ExportIdempotent(p: Package, q: Package, e: Expr)
    ensures ExportType(q, ExportType(p, e)) == ExportType(p, e)
  {
    ExportQualifies(p, e);
    ExportFixpoint(q, ExportType(p, e));
  }

  // ---------------------------------------------------------------------
  // Qualifying adds package qualifiers and changes nothing else.

  lemma {:induction false} ExportPreservesStructure(pkg: Package, e: Expr)
    ensures Strip(ExportType(pkg, e)) == Strip(e)
    decreases e
  {
    match e
    case Ident(n) =>
    case Star(x) => ExportPreservesStructure(pkg, x);
    case Array(_, elt) => ExportPreservesStructure(pkg, elt);
    case Map(k, v) => ExportPreservesStructure(pkg, k); ExportPreservesStructure(pkg, v);
    case Chan(_, v) => ExportPreservesStructure(pkg, v);
    case Func(ft) => ExportFuncTypePreservesStructure(pkg, ft);
    case Interface(ms) => ExportFieldsPreserveStructure(pkg, ms);
    case Ellipsis(elt) => ExportPreservesStructure(pkg, elt);
    case _ =>
  }

  lemma {:induction false} ExportFuncTypePreservesStructure(pkg: Package, ft: FuncType)
    ensures StripFuncType(ExportFuncType(pkg, ft)) == StripFuncType(ft)
    decreases ft
  {
    ExportFieldsPreserveStructure(pkg, ft.params);
    ExportFieldsPreserveStructure(pkg, ft.results);
  }

  lemma {:induction false} ExportFieldsPreserveStructure(pkg: Package, fl: FieldList)
    ensures StripFields(ExportFields(pkg, fl)) == StripFields(fl)
    decreases fl
  {
    if fl.Fields? {
      ExportFieldSeqPreservesStructure(pkg, fl.list);
    }
  }

  lemma {:induction false} ExportFieldSeqPreservesStructure(pkg: Package, fs: seq<Field>)
    ensures StripFieldSeq(ExportFieldSeq(pkg, fs)) == StripFieldSeq(fs)
    decreases fs
  {
    if fs != [] {
      var r := ExportFieldSeq(pkg, fs);
      ExportPreservesStructure(pkg, fs[0].typ);
      ExportFieldSeqPreservesStructure(pkg, fs[1..]);
      assert r[0] == Field(fs[0].names, ExportType(pkg, fs[0].typ));
      assert r[1..] == ExportFieldSeq(pkg, fs[1..]);
    }
  }

  /** Field lists keep their length and every field keeps its names. */
  lemma {:induction false} ExportFieldSeqKeepsNames(pkg: Package, fs: seq<Field>)
    ensures |ExportFieldSeq(pkg, fs)| == |fs|
    ensures forall i :: 0 <= i < |fs| ==>
      ExportFieldSeq(pkg, fs)[i] == Field(fs[i].names, ExportType(pkg, fs[i].typ))
    decreases fs
  {
    if fs != [] {
      ExportFieldSeqKeepsNames(pkg, fs[1..]);
    }
  }

  // ---------------------------------------------------------------------
  // The qualifier added is the package's name.

  /** The `(package, name)` pairs of the selectors in the positions
      `ExportType` rewrites. */
  function Selectors(e: Expr): set<(string, string)>
    decreases e
  {
    match e
    case Selector(q, n) => {(q, n)}
    case Star(x) => Selectors(x)
    case Array(_, elt) => Selectors(elt)
    case Map(k, v) => Selectors(k) + Selectors(v)
    case Chan(_, v) => Selectors(v)
    case Func(ft) => FuncTypeSelectors(ft)
    case Interface(ms) => FieldsSelectors(ms)
    case Ellipsis(elt) => Selectors(elt)
    case _ => {}
  }

  function FuncTypeSelectors(ft: FuncType): set<(string, string)>
    decreases ft
  {
    FieldsSelectors(ft.params) + FieldsSelectors(ft.results)
  }

  function FieldsSelectors(fl: FieldList): set<(string, string)>
    decreases fl
  {
    match fl
    case NoFields => {}
    case Fields(list) => FieldSeqSelectors(list)
  }

  function FieldSeqSelectors(fs: seq<Field>): set<(string, string)>
    decreases fs
  {
    if fs == [] then {} else Selectors(fs[0].typ) + FieldSeqSelectors(fs[1..])
  }

  /** The exported bare identifiers in the positions `ExportType` rewrites. */
  function BareExported(e: Expr): set<string>
    decreases e
  {
    match e
    case Ident(n) => if IsExported(n) then {n} else {}
    case Star(x) => BareExported(x)
    case Array(_, elt) => BareExported(elt)
    case Map(k, v) => BareExported(k) + BareExported(v)
    case Chan(_, v) => BareExported(v)
    case Func(ft) => FuncTypeBareExported(ft)
    case Interface(ms) => FieldsBareExported(ms)
    case Ellipsis(elt) => BareExported(elt)
    case _ => {}
  }

  function FuncTypeBareExported(ft: FuncType): set<string>
    decreases ft
  {
    FieldsBareExported(ft.params) + FieldsBareExported(ft.results)
  }

  function FieldsBareExported(fl: FieldList): set<string>
    decreases fl
  {
    match fl
    case NoFields => {}
    case Fields(list) => FieldSeqBareExported(list)
  }

  function FieldSeqBareExported(fs: seq<Field>): set<string>
    decreases fs
  {
    if fs == [] then {} else BareExported(fs[0].typ) + FieldSeqBareExported(fs[1..])
  }

  /** Each name of `ns` qualified by `q`. */
  function Tagged(q: string, ns: set<string>): set<(string, string)> {
    set n | n in ns :: (q, n)
  }

  lemma TaggedUnion(q: string, a: set<string>, b: set<string>)
    ensures Tagged(q, a + b) == Tagged(q, a) + Tagged(q, b)
  {
    forall x | x in Tagged(q, a + b) ensures x in Tagged(q, a) + Tagged(q, b) {
      var n :| n in a + b && x == (q, n);
      if n in a { assert (q, n) in Tagged(q, a); } else { assert (q, n) in Tagged(q, b); }
    }
  }

  /** Qualifying keeps the selectors already there and adds exactly one
      selector `pkg.name.N` for each exported bare identifier `N`. */
  lemma {:induction false} ExportSelectors(pkg: Package, e: Expr)
    ensures Selectors(ExportType(pkg, e)) == Selectors(e) + Tagged(pkg.name, BareExported(e))
    decreases e
  {
    match e
    case Ident(n) =>
      if IsExported(n) {
        assert Tagged(pkg.name, {n}) == {(pkg.name, n)};
      }
    case Star(x) => ExportSelectors(pkg, x);
    case Array(_, elt) => ExportSelectors(pkg, elt);
    case Map(k, v) =>
      ExportSelectors(pkg, k); ExportSelectors(pkg, v);
      TaggedUnion(pkg.name, BareExported(k), BareExported(v));
    case Chan(_, v) => ExportSelectors(pkg, v);
    case Func(ft) => ExportFuncTypeSelectors(pkg, ft);
    case Interface(ms) => ExportFieldsSelectors(pkg, ms);
    case Ellipsis(elt) => ExportSelectors(pkg, elt);
    case _ =>
  }

  lemma {:induction false} ExportFuncTypeSelectors(pkg: Package, ft: FuncType)
    ensures FuncTypeSelectors(ExportFuncType(pkg, ft)) == FuncTypeSelectors(ft) + Tagged(pkg.name, FuncTypeBareExported(ft))
    decreases ft
  {
    ExportFieldsSelectors(pkg, ft.params);
    ExportFieldsSelectors(pkg, ft.results);
    TaggedUnion(pkg.name, FieldsBareExported(ft.params), FieldsBareExported(ft.results));
  }

  lemma {:induction false} ExportFieldsSelectors(pkg: Package, fl: FieldList)
    ensures FieldsSelectors(ExportFields(pkg, fl)) == FieldsSelectors(fl) + Tagged(pkg.name, FieldsBareExported(fl))
    decreases fl
  {
    if fl.Fields? {
      ExportFieldSeqSelectors(pkg, fl.list);
    } else {
      assert Tagged(pkg.name, {}) == {};
    }
  }

  lemma {:induction false} ExportFieldSeqSelectors(pkg: Package, fs: seq<Field>)
    ensures FieldSeqSelectors(ExportFieldSeq(pkg, fs)) == FieldSeqSelectors(fs) + Tagged(pkg.name, FieldSeqBareExported(fs))
    decreases fs
  {
    if fs == [] {
      assert Tagged(pkg.name, {}) == {};
    } else {
      var r := ExportFieldSeq(pkg, fs);
      assert r[0].typ == ExportType(pkg, fs[0].typ);
      assert r[1..] == ExportFieldSeq(pkg, fs[1..]);
      ExportSelectors(pkg, fs[0].typ);
      ExportFieldSeqSelectors(pkg, fs[1..]);
      TaggedUnion(pkg.name, BareExported(fs[0].typ), FieldSeqBareExported(fs[1..]));
    }
  }

  /** A qualified expression has no exported bare identifier left, so
      qualifying it again adds no selector. */
  lemma {:induction false} QualifiedNoBareExported(e: Expr)
    requires Qualified(e)
    ensures BareExported(e) == {}
    decreases e
  {
    match e
    case Ident(n) =>
    case Star(x) => QualifiedNoBareExported(x);
    case Array(_, elt) => QualifiedNoBareExported(elt);
    case Map(k, v) => QualifiedNoBareExported(k); QualifiedNoBareExported(v);
    case Chan(_, v) => QualifiedNoBareExported(v);
    case Func(ft) => QualifiedFieldsNoBareExported(ft.params); QualifiedFieldsNoBareExported(ft.results);
    case Interface(ms) => QualifiedFieldsNoBareExported(ms);
    case Ellipsis(elt) => QualifiedNoBareExported(elt);
    case _ =>
  }

  lemma {:induction false} QualifiedFieldsNoBareExported(fl: FieldList)
    requires QualifiedFields(fl)
    ensures FieldsBareExported(fl) == {}
    decreases fl
  {
    if fl.Fields? {
      QualifiedFieldSeqNoBareExported(fl.list);
    }
  }

  lemma {:induction false} QualifiedFieldSeqNoBareExported(fs: seq<Field>)
    requires QualifiedFieldSeq(fs)
    ensures FieldSeqBareExported(fs) == {}
    decreases fs
  {
    if fs != [] {
      QualifiedNoBareExported(fs[0].typ);
      QualifiedFieldSeqNoBareExported(fs[1..]);
    }
  }
}
