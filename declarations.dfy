/** The declaration index: scanning a package's declarations and finding types
    and methods by name (impast.go:87-95, 146-163, 211-238, 319-352, 402-411). */
module Declarations {
  import opened Ast
  import opened Errors

  // ---------------------------------------------------------------------
  // ScanDecl

  /** The declarations `ScanDecl` hands to its callback: every declaration
      up to and including the first one the callback answers false for. */
  function Visited(ds: seq<Decl>, f: Decl -> bool): (v: seq<Decl>)
    ensures |v| <= |ds|
  {
    if ds == [] then []
    else if !f(ds[0]) then [ds[0]]
    else [ds[0]] + Visited(ds[1..], f)
  }

  /** The visited declarations are a prefix of all of them; the callback
      accepted all but the last; the scan stopped early only because it
      rejected the last; and it visits everything when it rejects nothing. */
  lemma {:induction false} VisitedStopsAtFirstRejection(ds: seq<Decl>, f: Decl -> bool)
    ensures var v := Visited(ds, f);
      && v == ds[..|v|]
      && (forall i :: 0 <= i < |v| - 1 ==> f(v[i]))
      && (|v| < |ds| ==> |v| > 0 && !f(v[|v| - 1]))
      && ((forall i :: 0 <= i < |ds| ==> f(ds[i])) ==> v == ds)
  {
    if ds != [] && f(ds[0]) {
      VisitedStopsAtFirstRejection(ds[1..], f);
      var w := Visited(ds[1..], f);
      assert Visited(ds, f) == [ds[0]] + w;
      if forall i :: 0 <= i < |ds| ==> f(ds[i]) {
        assert forall i :: 0 <= i < |ds[1..]| ==> f(ds[1..][i]) by {
          forall i | 0 <= i < |ds[1..]| ensures f(ds[1..][i]) { assert ds[1..][i] == ds[i + 1]; }
        }
      }
    }
  }

  lemma {:induction false} VisitedAfterAccepted(p: seq<Decl>, rest: seq<Decl>, f: Decl -> bool)
    requires forall d :: d in p ==> f(d)
    ensures Visited(p + rest, f) == p + Visited(rest, f)
  {
    if p == [] {
      assert p + rest == rest;
    } else {
      assert (p + rest)[0] == p[0];
      assert (p + rest)[1..] == p[1..] + rest;
      VisitedAfterAccepted(p[1..], rest, f);
    }
  }

  /** Where the scan stops: after the first rejected declaration, all
      those before it accepted. */
  lemma ScanDeclStops(files: seq<File>, i: nat, j: nat, f: Decl -> bool)
    requires i < |files| && j < |files[i].decls|
    requires forall d :: d in AllDecls(files[..i]) + files[i].decls[..j] ==> f(d)
    requires !f(files[i].decls[j])
    ensures Visited(AllDecls(files), f) == AllDecls(files[..i]) + files[i].decls[..j] + [files[i].decls[j]]
  {
    var decls := files[i].decls;
    var before := AllDecls(files[..i]) + decls[..j];
    var rest := AllDecls(files[i + 1..]);
    assert files == files[..i] + files[i..];
    AllDeclsAppend(files[..i], files[i..]);
    assert files[i..][1..] == files[i + 1..];
    assert decls == decls[..j] + decls[j..];
    assert AllDecls(files) == before + (decls[j..] + rest);
    VisitedAfterAccepted(before, decls[j..] + rest, f);
    assert (decls[j..] + rest)[0] == decls[j];
  }

  /** `ScanDecl`: visits the declarations file by file and stops right after
      the first one the callback rejects; returns the visited declarations. */
  method ScanDecl(pkg: Package, f: Decl -> bool) returns (visited: seq<Decl>)
    ensures visited == Visited(AllDecls(pkg.files), f)
  {
    visited := [];
    var i := 0;
    while i < |pkg.files|
      invariant 0 <= i <= |pkg.files|
      invariant visited == AllDecls(pkg.files[..i])
      invariant forall d :: d in visited ==> f(d)
    {
      var decls := pkg.files[i].decls;
      var j := 0;
      while j < |decls|
        invariant 0 <= j <= |decls|
        invariant visited == AllDecls(pkg.files[..i]) + decls[..j]
        invariant forall d :: d in visited ==> f(d)
      {
        if !f(decls[j]) {
          ScanDeclStops(pkg.files, i, j, f);
          visited := visited + [decls[j]];
          return;
        }
        visited := visited + [decls[j]];
        assert decls[..j + 1] == decls[..j] + [decls[j]];
        j := j + 1;
      }
      assert decls[..j] == decls;
      AllDeclsSnoc(pkg.files, i);
      i := i + 1;
    }
    assert pkg.files[..i] == pkg.files;
    VisitedAfterAccepted(visited, [], f);
    assert visited + [] == visited;
  }

  // ---------------------------------------------------------------------
  // FindTypeByName, FindStruct, FindInterface

  /** The type of the first spec named `name`. */
  function FindSpec(specs: seq<TypeSpec>, name: string): (r: Option<Expr>)
    ensures r.None? <==> forall i :: 0 <= i < |specs| ==> specs[i].name != name
  {
    if specs == [] then None
    else if specs[0].name == name then Some(specs[0].typ)
    else
      assert forall i :: 1 <= i < |specs| ==> specs[i] == specs[1..][i - 1];
      FindSpec(specs[1..], name)
  }

  /** `FindSpec` returns the type of the first spec with the name. */
  lemma {:induction false} FindSpecIsFirst(specs: seq<TypeSpec>, name: string, i: nat)
    requires i < |specs| && specs[i].name == name
    requires forall j :: 0 <= j < i ==> specs[j].name != name
    ensures FindSpec(specs, name) == Some(specs[i].typ)
  {
    if i > 0 {
      FindSpecIsFirst(specs[1..], name, i - 1);
    }
  }

  /** A `type` declaration with a spec named `name`. */
  predicate DeclaresType(d: Decl, name: string) {
    d.GenDecl? && d.tok == Type && FindSpec(d.specs, name).Some?
  }

  /** The callback `FindTypeByName` hands to `ScanDecl`: go on while the
      declaration does not declare `name`. */
  function KeepLooking(name: string): Decl -> bool {
    d => !DeclaresType(d, name)
  }

  function FindTypeIn(ds: seq<Decl>, name: string): (r: Option<Expr>)
    ensures r.None? <==> forall i :: 0 <= i < |ds| ==> !DeclaresType(ds[i], name)
  {
    if ds == [] then None
    else if DeclaresType(ds[0], name) then FindSpec(ds[0].specs, name)
    else
      assert forall i :: 1 <= i < |ds| ==> ds[i] == ds[1..][i - 1];
      FindTypeIn(ds[1..], name)
  }

  /** `FindTypeIn` returns the type found in the first declaration that
      declares the name. */
  lemma {:induction false} FindTypeInIsFirst(ds: seq<Decl>, name: string, i: nat)
    requires i < |ds| && DeclaresType(ds[i], name)
    requires forall j :: 0 <= j < i ==> !DeclaresType(ds[j], name)
    ensures FindTypeIn(ds, name) == FindSpec(ds[i].specs, name)
  {
    if i > 0 {
      FindTypeInIsFirst(ds[1..], name, i - 1);
    }
  }

  /** `FindTypeByName`: the type of the first type spec named `name`, in
      file-then-declaration order, or none. */
  function FindTypeByName(pkg: Package, name: string): (r: Option<Expr>)
    ensures r.None? <==> forall d :: d in AllDecls(pkg.files) ==> !DeclaresType(d, name)
    ensures forall i :: 0 <= i < |AllDecls(pkg.files)| && DeclaresType(AllDecls(pkg.files)[i], name)
              && (forall j :: 0 <= j < i ==> !DeclaresType(AllDecls(pkg.files)[j], name))
              ==> r == FindSpec(AllDecls(pkg.files)[i].specs, name)
  {
    var ds := AllDecls(pkg.files);
    assert forall i :: 0 <= i < |ds| && DeclaresType(ds[i], name) && (forall j :: 0 <= j < i ==> !DeclaresType(ds[j], name))
              ==> FindTypeIn(ds, name) == FindSpec(ds[i].specs, name) by {
      forall i | 0 <= i < |ds| && DeclaresType(ds[i], name) && (forall j :: 0 <= j < i ==> !DeclaresType(ds[j], name)) {
        FindTypeInIsFirst(ds, name, i);
      }
    }
    FindTypeIn(AllDecls(pkg.files), name)
  }

  /** The early-exit scan of the source finds the same type: `FindTypeByName`
      stops at the first declaration that declares the name. */
  lemma {:induction false} FindTypeByNameIsScan(pkg: Package, name: string)
    ensures var v := Visited(AllDecls(pkg.files), KeepLooking(name));
            FindTypeByName(pkg, name) ==
              if |v| > 0 && DeclaresType(v[|v| - 1], name) then FindSpec(v[|v| - 1].specs, name) else None
  {
    assert FindTypeByName(pkg, name) == FindTypeIn(AllDecls(pkg.files), name);
    FindTypeInIsScan(AllDecls(pkg.files), name);
  }

  lemma {:induction false} FindTypeInIsScan(ds: seq<Decl>, name: string)
    ensures var v := Visited(ds, KeepLooking(name));
            FindTypeIn(ds, name) ==
              if |v| > 0 && DeclaresType(v[|v| - 1], name) then FindSpec(v[|v| - 1].specs, name) else None
  {
    var f := KeepLooking(name);
    if ds != [] && f(ds[0]) {
      FindTypeInIsScan(ds[1..], name);
      var w := Visited(ds[1..], f);
      assert Visited(ds, f) == [ds[0]] + w;
      if |w| > 0 {
        assert Visited(ds, f)[|Visited(ds, f)| - 1] == w[|w| - 1];
      }
    }
  }

  /** `FindStruct`: the fields of the struct named `name`, none when that
      name is bound to a type of another kind. */
  function FindStruct(pkg: Package, name: string): (r: Option<seq<Field>>)
    ensures r.Some? <==> FindTypeByName(pkg, name).Some? && FindTypeByName(pkg, name).value.Struct?
    ensures r.Some? ==> FindTypeByName(pkg, name) == Some(Struct(r.value))
  {
    match FindTypeByName(pkg, name)
    case Some(Struct(fields)) => Some(fields)
    case _ => None
  }

  /** `FindInterface`: the method list of the interface named `name`, none
      when that name is bound to a type of another kind. */
  function FindInterface(pkg: Package, name: string): (r: Option<FieldList>)
    ensures r.Some? <==> FindTypeByName(pkg, name).Some? && FindTypeByName(pkg, name).value.Interface?
    ensures r.Some? ==> FindTypeByName(pkg, name) == Some(Interface(r.value))
  {
    match FindTypeByName(pkg, name)
    case Some(Interface(methods)) => Some(methods)
    case _ => None
  }

  lemma StructOrInterface(pkg: Package, name: string)
    ensures !(FindStruct(pkg, name).Some? && FindInterface(pkg, name).Some?)
  {
  }

  // ---------------------------------------------------------------------
  // findStruct and getEmbeddedStruct

  /** `findStruct` on one declaration: nothing for a non-type declaration or
      when no spec has the name; the struct's fields when the first spec with
      the name is a struct; an error when it is a type of another kind. */
  function FindStructIn(d: Decl, name: string): (r: Result<Option<seq<Field>>>)
    requires d.GenDecl?
    ensures d.tok != Type ==> r == Ok(None)
    ensures d.tok == Type ==>
      match FindSpec(d.specs, name)
      case None => r == Ok(None)
      case Some(t) => if t.Struct? then r == Ok(Some(t.fields)) else r == Err(NotStruct(t))
  {
    if d.tok != Type then Ok(None)
    else
      FindStructInSpecsIsFirstSpec(d.specs, name);
      FindStructInSpecs(d.specs, name)
  }

  function FindStructInSpecs(specs: seq<TypeSpec>, name: string): Result<Option<seq<Field>>>
  {
    if specs == [] then Ok(None)
    else if specs[0].name != name then FindStructInSpecs(specs[1..], name)
    else match specs[0].typ
      case Struct(fields) => Ok(Some(fields))
      case t => Err(NotStruct(t))
  }

  lemma {:induction false} FindStructInSpecsIsFirstSpec(specs: seq<TypeSpec>, name: string)
    ensures match FindSpec(specs, name)
      case None => FindStructInSpecs(specs, name) == Ok(None)
      case Some(t) => FindStructInSpecs(specs, name) == if t.Struct? then Ok(Some(t.fields)) else Err(NotStruct(t))
  {
    if specs != [] && specs[0].name != name {
      FindStructInSpecsIsFirstSpec(specs[1..], name);
    }
  }

  /** `getEmbeddedStruct`: the types of the unnamed (embedded) fields. */
  function GetEmbeddedStruct(fields: seq<Field>): (es: seq<Expr>)
    ensures |es| <= |fields|
  {
    if fields == [] then []
    else if |fields[0].names| > 0 then GetEmbeddedStruct(fields[1..])
    else [fields[0].typ] + GetEmbeddedStruct(fields[1..])
  }

  /** A type is embedded exactly when some unnamed field has it. */
  lemma {:induction false} EmbeddedAreUnnamed(fields: seq<Field>, e: Expr)
    ensures e in GetEmbeddedStruct(fields) <==>
      exists i :: 0 <= i < |fields| && fields[i].names == [] && fields[i].typ == e
  {
    if fields != [] {
      EmbeddedAreUnnamed(fields[1..], e);
      if exists i :: 1 <= i < |fields| && fields[i].names == [] && fields[i].typ == e {
        var i :| 1 <= i < |fields| && fields[i].names == [] && fields[i].typ == e;
        assert fields[1..][i - 1] == fields[i];
      }
      if exists i :: 0 <= i < |fields[1..]| && fields[1..][i].names == [] && fields[1..][i].typ == e {
        var i :| 0 <= i < |fields[1..]| && fields[1..][i].names == [] && fields[1..][i].typ == e;
        assert fields[i + 1] == fields[1..][i];
      }
    }
  }

  /** Fields are taken in declaration order, and a named field contributes
      nothing. */
  lemma {:induction false} EmbeddedInOrder(a: seq<Field>, b: seq<Field>)
    ensures GetEmbeddedStruct(a + b) == GetEmbeddedStruct(a) + GetEmbeddedStruct(b)
  {
    if a == [] {
      assert a + b == b;
    } else {
      assert (a + b)[0] == a[0];
      assert (a + b)[1..] == a[1..] + b;
      EmbeddedInOrder(a[1..], b);
    }
  }

  // ---------------------------------------------------------------------
  // isOwnMethod and GetMethods

  /** `isOwnMethod`: a method whose receiver is `name` or `*name`. */
  predicate IsOwnMethod(name: string, d: Decl)
    requires d.FuncDecl?
  {
    d.recv.Some? && d.recv.value.typeName == name
  }

  /** For a plain type name, `isOwnMethod` accepts exactly the receivers
      that print as `name` or as `*name`. */
  lemma OwnMethodReceivers(name: string, d: Decl)
    requires d.FuncDecl? && d.recv.Some?
    requires name == [] || name[0] != '*'
    requires d.recv.value.typeName == [] || d.recv.value.typeName[0] != '*'
    ensures IsOwnMethod(name, d) <==>
      ReceiverText(d.recv.value) == name || ReceiverText(d.recv.value) == "*" + name
  {
    var r := d.recv.value;
    if r.pointer && ReceiverText(r) == "*" + name {
      assert r.typeName == ("*" + r.typeName)[1..];
      assert name == ("*" + name)[1..];
    }
  }

  /** A method `GetMethods` reports for `name`: exported, with a receiver
      that prints exactly as `name`. */
  predicate IsMethodNamed(d: Decl, name: string) {
    d.FuncDecl? && d.recv.Some? && ReceiverText(d.recv.value) == name && IsExported(d.name)
  }

  function MethodsOf(ds: seq<Decl>, name: string): (ms: seq<Decl>)
    ensures |ms| <= |ds|
  {
    if ds == [] then []
    else if IsMethodNamed(ds[0], name) then [ds[0]] + MethodsOf(ds[1..], name)
    else MethodsOf(ds[1..], name)
  }

  /** `GetMethods` keeps exactly the matching declarations. */
  lemma {:induction false} MethodsOfMembers(ds: seq<Decl>, name: string, d: Decl)
    ensures d in MethodsOf(ds, name) <==> d in ds && IsMethodNamed(d, name)
  {
    if ds != [] {
      MethodsOfMembers(ds[1..], name, d);
      assert ds == [ds[0]] + ds[1..];
    }
  }

  /** A plain name matches only value receivers: `"Foo"` never selects a
      method declared on `*Foo`. */
  lemma ExactReceiverMatch(ds: seq<Decl>, name: string, d: Decl)
    requires name == [] || name[0] != '*'
    requires d in MethodsOf(ds, name)
    ensures d.FuncDecl? && d.recv.Some? && !d.recv.value.pointer && d.recv.value.typeName == name
  {
    MethodsOfMembers(ds, name, d);
  }

  lemma {:induction false} MethodsOfAppend(a: seq<Decl>, b: seq<Decl>, name: string)
    ensures MethodsOf(a + b, name) == MethodsOf(a, name) + MethodsOf(b, name)
  {
    if a == [] {
      assert a + b == b;
    } else {
      assert (a + b)[0] == a[0];
      assert (a + b)[1..] == a[1..] + b;
      MethodsOfAppend(a[1..], b, name);
    }
  }

  lemma AllDeclsSnoc(files: seq<File>, i: nat)
    requires i < |files|
    ensures AllDecls(files[..i + 1]) == AllDecls(files[..i]) + files[i].decls
  {
    assert files[..i + 1] == files[..i] + [files[i]];
    AllDeclsAppend(files[..i], [files[i]]);
    assert AllDecls([files[i]]) == files[i].decls + AllDecls([]);
  }

  /** `GetMethods`: the exported methods whose printed receiver is exactly
      `name`, in scan order; `"Foo"` does not match a `*Foo` receiver. */
  method GetMethods(pkg: Package, name: string) returns (methods: seq<Decl>)
    ensures methods == MethodsOf(AllDecls(pkg.files), name)
  {
    methods := [];
    var i := 0;
    while i < |pkg.files|
      invariant 0 <= i <= |pkg.files|
      invariant methods == MethodsOf(AllDecls(pkg.files[..i]), name)
    {
      var decls := pkg.files[i].decls;
      var j := 0;
      assert AllDecls(pkg.files[..i]) + decls[..0] == AllDecls(pkg.files[..i]);
      while j < |decls|
        invariant 0 <= j <= |decls|
        invariant methods == MethodsOf(AllDecls(pkg.files[..i]) + decls[..j], name)
      {
        var d := decls[j];
        MethodsOfAppend(AllDecls(pkg.files[..i]) + decls[..j], [d], name);
        assert decls[..j + 1] == decls[..j] + [d];
        assert AllDecls(pkg.files[..i]) + decls[..j + 1] == (AllDecls(pkg.files[..i]) + decls[..j]) + [d];
        assert MethodsOf([d], name) == if IsMethodNamed(d, name) then [d] else [];
        if d.FuncDecl? && d.recv.Some? {
          if ReceiverText(d.recv.value) == name && IsExported(d.name) {
            methods := methods + [d];
          }
        }
        j := j + 1;
      }
      assert decls[..j] == decls;
      AllDeclsSnoc(pkg.files, i);
      i := i + 1;
    }
    assert pkg.files[..i] == pkg.files;
  }

  /** `findStruct`, as the loop over the specs of a declaration: the first
      spec of the name decides; a non-type declaration has none. */
  method LookUpStruct(d: Decl, name: string) returns (r: Result<Option<seq<Field>>>)
    requires d.GenDecl?
    ensures r == FindStructIn(d, name)
  {
    if d.tok != Type {
      return Ok(None);
    }
    FindStructInSpecsIsFirstSpec(d.specs, name);
    var i := 0;
    while i < |d.specs|
      invariant 0 <= i <= |d.specs|
      invariant FindStructInSpecs(d.specs, name) == FindStructInSpecs(d.specs[i..], name)
    {
      var spec := d.specs[i];
      assert d.specs[i..][1..] == d.specs[i + 1..];
      if spec.name == name {
        if spec.typ.Struct? {
          return Ok(Some(spec.typ.fields));
        }
        return Err(NotStruct(spec.typ));
      }
      i := i + 1;
    }
    return Ok(None);
  }

  /** `getEmbeddedStruct`, as the loop that appends the type of every
      unnamed field. */
  method CollectEmbedded(fields: seq<Field>) returns (es: seq<Expr>)
    ensures es == GetEmbeddedStruct(fields)
  {
    es := [];
    var i := 0;
    while i < |fields|
      invariant 0 <= i <= |fields|
      invariant es == GetEmbeddedStruct(fields[..i])
    {
      EmbeddedInOrder(fields[..i], [fields[i]]);
      assert fields[..i + 1] == fields[..i] + [fields[i]];
      if |fields[i].names| == 0 {
        es := es + [fields[i].typ];
      }
      i := i + 1;
    }
    assert fields[..i] == fields;
  }
}
