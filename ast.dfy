/** Go syntax trees as far as the symbol-resolution engine looks at them. */
module Ast {

  datatype Option<T> = None | Some(value: T)

  /** The direction of a channel type. */
  datatype ChanDir = Send | Recv | Both

  /** Type expressions. A selector in type position is always `pkg.Name`, so
      its left side is kept as the package identifier's name. */
  datatype Expr =
    | Ident(name: string)
    | Star(x: Expr)
    | Selector(pkg: string, sel: string)
    | Array(len: Option<Expr>, elt: Expr)
    | Map(key: Expr, value: Expr)
    | Chan(dir: ChanDir, value: Expr)
    | Func(ft: FuncType)
    | Interface(methods: FieldList)
    | Struct(fields: seq<Field>)
    | Ellipsis(elt: Expr)
    | Other(text: string)

  datatype FuncType = FuncType(params: FieldList, results: FieldList)

  /** A possibly absent field list: `NoFields` is the nil `*ast.FieldList`. */
  datatype FieldList = NoFields | Fields(list: seq<Field>)

  datatype Field = Field(names: seq<string>, typ: Expr)

  /** The receiver of a method: `T` or `*T`. */
  datatype Receiver = Receiver(typeName: string, pointer: bool)

  datatype TypeSpec = TypeSpec(name: string, typ: Expr)

  datatype Token = Import | Const | Type | Var

  /** Top-level declarations. Only the specs of `type` declarations are kept. */
  datatype Decl =
    | FuncDecl(recv: Option<Receiver>, name: string, typ: FuncType)
    | GenDecl(tok: Token, specs: seq<TypeSpec>)
    | BadDecl

  /** An import: the optional explicit alias and the quoted path literal. */
  datatype ImportSpec = ImportSpec(alias: Option<string>, path: string)

  datatype File = File(imports: seq<ImportSpec>, decls: seq<Decl>)

  /** A parsed package; its files are in a fixed order. */
  datatype Package = Package(name: string, files: seq<File>)

  /** A name is exported when it starts with an upper-case letter. */
  predicate IsExported(name: string) {
    |name| > 0 && 'A' <= name[0] <= 'Z'
  }

  /** The printed form of a receiver type, as `TypeName` renders it. */
  function ReceiverText(r: Receiver): (s: string)
    ensures r.pointer ==> s == "*" + r.typeName
    ensures !r.pointer ==> s == r.typeName
  {
    if r.pointer then "*" + r.typeName else r.typeName
  }

  /** A receiver type name is an identifier, so it never starts with `*`. */
  predicate PlainTypeName(r: Receiver) {
    r.typeName == [] || r.typeName[0] != '*'
  }

  /** The printed receiver reads back: a leading `*` exactly for pointer
      receivers, and the type name after it. */
  lemma ReceiverTextShape(r: Receiver)
    requires PlainTypeName(r)
    ensures var s := ReceiverText(r);
      && ((|s| > 0 && s[0] == '*') <==> r.pointer)
      && |r.typeName| <= |s| && s[|s| - |r.typeName|..] == r.typeName
  {
    var s := ReceiverText(r);
    if r.pointer {
      assert s[1..] == r.typeName;
    }
  }

  /** Distinct receivers print differently. */
  lemma ReceiverTextInjective(r: Receiver, r': Receiver)
    requires PlainTypeName(r) && PlainTypeName(r')
    requires ReceiverText(r) == ReceiverText(r')
    ensures r == r'
  {
    ReceiverTextShape(r);
    ReceiverTextShape(r');
    var s := ReceiverText(r);
    if r.pointer {
      assert r.typeName == s[1..] == r'.typeName;
    }
  }

  /** All declarations of a package, file by file and in declaration order. */
  function AllDecls(files: seq<File>): (ds: seq<Decl>)
    ensures files == [] ==> ds == []
  {
    if files == [] then [] else files[0].decls + AllDecls(files[1..])
  }

  lemma {:induction false} AllDeclsAppend(a: seq<File>, b: seq<File>)
    ensures AllDecls(a + b) == AllDecls(a) + AllDecls(b)
  {
    if a == [] {
      assert a + b == b;
    } else {
      assert (a + b)[1..] == a[1..] + b;
      AllDeclsAppend(a[1..], b);
    }
  }
}
