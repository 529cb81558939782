/** The method requirements of an interface and the naming of anonymous
    parameters (impast.go:363-400). */
module Interfaces {
  import opened Ast

  /** What the identifier of an embedded interface is bound to: the type of
      the declaration its `Obj.Decl` link points at. */
  type Scope = map<string, Expr>

  /** An embedded field that names an interface with a method list. */
  predicate EmbedsInterface(f: Field, scope: Scope) {
    f.typ.Ident? && f.typ.name in scope && scope[f.typ.name].Interface? && scope[f.typ.name].methods.Fields?
  }

  function EmbeddedMethods(f: Field, scope: Scope): seq<Field>
    requires EmbedsInterface(f, scope)
  {
    scope[f.typ.name].methods.list
  }

  /** `GetRequires` on `fs` neither panics nor recurses forever: every
      embedded field names an interface of the scope, and following
      embeddings never comes back to a name already on the path (`live`
      holds the names not on it). */
  predicate Closed(fs: seq<Field>, scope: Scope, live: set<string>)
    decreases live, |fs|
  {
    fs == [] ||
    ((fs[0].names != [] ||
      (EmbedsInterface(fs[0], scope) && fs[0].typ.name in live &&
       Closed(EmbeddedMethods(fs[0], scope), scope, live - {fs[0].typ.name})))
     && Closed(fs[1..], scope, live))
  }

  /** The named methods met in a depth-first walk through the embeddings. */
  function Flatten(fs: seq<Field>, scope: Scope, live: set<string>): (r: seq<Field>)
    requires Closed(fs, scope, live)
    ensures forall f :: f in r ==> f.names != []
    decreases live, |fs|
  {
    if fs == [] then []
    else
      (if fs[0].names != [] then [fs[0]]
       else Flatten(EmbeddedMethods(fs[0], scope), scope, live - {fs[0].typ.name}))
      + Flatten(fs[1..], scope, live)
  }

  predicate AllNamed(xs: seq<Field>) {
    forall f :: f in xs ==> f.names != []
  }

  function NamesOf(xs: seq<Field>): set<string>
    requires AllNamed(xs)
  {
    set f | f in xs :: f.names[0]
  }

  lemma NamesOfAppend(a: seq<Field>, b: seq<Field>)
    requires AllNamed(a) && AllNamed(b)
    ensures AllNamed(a + b) && NamesOf(a + b) == NamesOf(a) + NamesOf(b)
  {
    forall n | n in NamesOf(a + b) ensures n in NamesOf(a) + NamesOf(b) {
      var f :| f in a + b && f.names[0] == n;
    }
  }

  /** The fields whose name is neither in `seen` nor carried by an earlier
      field: the first field of each name, in encounter order. */
  function FirstByName(seen: set<string>, xs: seq<Field>): (r: seq<Field>)
    requires AllNamed(xs)
    ensures AllNamed(r)
    decreases |xs|
  {
    if xs == [] then []
    else if xs[0].names[0] in seen then FirstByName(seen, xs[1..])
    else [xs[0]] + FirstByName(seen + {xs[0].names[0]}, xs[1..])
  }

  /** What `GetRequires` returns. */
  function Requires(fs: seq<Field>, scope: Scope, live: set<string>): seq<Field>
    requires Closed(fs, scope, live)
  {
    FirstByName({}, Flatten(fs, scope, live))
  }

  // ---------------------------------------------------------------------
  // Properties of FirstByName

  lemma {:induction false} FirstByNameAppend(seen: set<string>, p: seq<Field>, q: seq<Field>)
    requires AllNamed(p) && AllNamed(q)
    ensures AllNamed(p + q)
    ensures FirstByName(seen, p + q) == FirstByName(seen, p) + FirstByName(seen + NamesOf(p), q)
    decreases |p|
  {
    if p == [] {
      assert p + q == q;
      assert seen + NamesOf(p) == seen;
    } else {
      assert (p + q)[0] == p[0];
      assert (p + q)[1..] == p[1..] + q;
      var n := p[0].names[0];
      assert NamesOf(p) == {n} + NamesOf(p[1..]);
      if n in seen {
        FirstByNameAppend(seen, p[1..], q);
        assert seen + NamesOf(p) == seen + NamesOf(p[1..]);
      } else {
        FirstByNameAppend(seen + {n}, p[1..], q);
        assert seen + {n} + NamesOf(p[1..]) == seen + NamesOf(p);
      }
    }
  }

  lemma {:induction false} FirstByNameNames(seen: set<string>, p: seq<Field>)
    requires AllNamed(p)
    ensures NamesOf(FirstByName(seen, p)) == NamesOf(p) - seen
    decreases |p|
  {
    if p != [] {
      var n := p[0].names[0];
      assert NamesOf(p) == {n} + NamesOf(p[1..]);
      if n in seen {
        FirstByNameNames(seen, p[1..]);
      } else {
        FirstByNameNames(seen + {n}, p[1..]);
        assert NamesOf([p[0]] + FirstByName(seen + {n}, p[1..])) == {n} + NamesOf(FirstByName(seen + {n}, p[1..]));
      }
    }
  }

  /** Keeping first occurrences a second time only drops the names seen
      since. */
  lemma {:induction false} FirstByNameTwice(h: set<string>, s: set<string>, p: seq<Field>)
    requires AllNamed(p)
    ensures FirstByName(h, FirstByName(s, p)) == FirstByName(h + s, p)
    decreases |p|
  {
    if p != [] {
      var n := p[0].names[0];
      if n in s {
        FirstByNameTwice(h, s, p[1..]);
      } else if n in h {
        FirstByNameTwice(h, s + {n}, p[1..]);
        assert h + (s + {n}) == h + s;
      } else {
        FirstByNameTwice(h + {n}, s + {n}, p[1..]);
        assert h + {n} + (s + {n}) == h + s + {n};
      }
    }
  }

  /** No two result fields share a name, and none has a name in `seen`. */
  lemma {:induction false} FirstByNameDistinct(seen: set<string>, p: seq<Field>)
    requires AllNamed(p)
    ensures forall i :: 0 <= i < |FirstByName(seen, p)| ==> FirstByName(seen, p)[i].names[0] !in seen
    ensures forall i, j :: 0 <= i < j < |FirstByName(seen, p)| ==>
      FirstByName(seen, p)[i].names[0] != FirstByName(seen, p)[j].names[0]
    decreases |p|
  {
    if p != [] {
      var n := p[0].names[0];
      if n in seen {
        FirstByNameDistinct(seen, p[1..]);
      } else {
        var tail := FirstByName(seen + {n}, p[1..]);
        FirstByNameDistinct(seen + {n}, p[1..]);
        var r := [p[0]] + tail;
        assert FirstByName(seen, p) == r;
        forall i | 0 <= i < |r| ensures r[i].names[0] !in seen {
          if i > 0 { assert r[i] == tail[i - 1]; }
        }
        forall i, j | 0 <= i < j < |r| ensures r[i].names[0] != r[j].names[0] {
          assert r[j] == tail[j - 1];
          if i > 0 { assert r[i] == tail[i - 1]; }
        }
      }
    }
  }

  /** Every result field is the first field of `p` with its name. */
  lemma {:induction false} FirstByNameKeepsFirst(seen: set<string>, p: seq<Field>, i: nat)
    requires AllNamed(p)
    requires i < |FirstByName(seen, p)|
    ensures var f := FirstByName(seen, p)[i];
      exists k :: 0 <= k < |p| && p[k] == f && forall l :: 0 <= l < k ==> p[l].names[0] != f.names[0]
    decreases |p|
  {
    var r := FirstByName(seen, p);
    var f := r[i];
    var n := p[0].names[0];
    if n in seen {
      FirstByNameKeepsFirst(seen, p[1..], i);
      FirstByNameDistinct(seen, p);
      var k :| 0 <= k < |p[1..]| && p[1..][k] == f && forall l :: 0 <= l < k ==> p[1..][l].names[0] != f.names[0];
      assert p[k + 1] == f;
      forall l | 0 <= l < k + 1 ensures p[l].names[0] != f.names[0] {
        if l > 0 { assert p[l] == p[1..][l - 1]; }
      }
    } else if i == 0 {
      assert p[0] == f;
    } else {
      FirstByNameKeepsFirst(seen + {n}, p[1..], i - 1);
      FirstByNameDistinct(seen + {n}, p[1..]);
      assert f == FirstByName(seen + {n}, p[1..])[i - 1];
      var k :| 0 <= k < |p[1..]| && p[1..][k] == f && forall l :: 0 <= l < k ==> p[1..][l].names[0] != f.names[0];
      assert p[k + 1] == f;
      forall l | 0 <= l < k + 1 ensures p[l].names[0] != f.names[0] {
        if l > 0 { assert p[l] == p[1..][l - 1]; }
      }
    }
  }

  // ---------------------------------------------------------------------
  // Properties of Requires

  /** `GetRequires` keeps the first method of each name met in the walk:
      names are unique, every name met is kept, and each kept method is the
      first one met with its name. */
  lemma RequiresFirstOfEachName(fs: seq<Field>, scope: Scope, live: set<string>)
    requires Closed(fs, scope, live)
    ensures var r := Requires(fs, scope, live); var walk := Flatten(fs, scope, live);
      && (forall i, j :: 0 <= i < j < |r| ==> r[i].names[0] != r[j].names[0])
      && NamesOf(r) == NamesOf(walk)
      && (forall i :: 0 <= i < |r| ==>
            (exists k :: 0 <= k < |walk| && walk[k] == r[i] && forall l :: 0 <= l < k ==> walk[l].names[0] != r[i].names[0]))
  {
    var walk := Flatten(fs, scope, live);
    FirstByNameDistinct({}, walk);
    FirstByNameNames({}, walk);
    forall i | 0 <= i < |Requires(fs, scope, live)|
      ensures exists k :: 0 <= k < |walk| && walk[k] == Requires(fs, scope, live)[i] && forall l :: 0 <= l < k ==> walk[l].names[0] != Requires(fs, scope, live)[i].names[0]
    {
      FirstByNameKeepsFirst({}, walk, i);
    }
  }

  /** Shape of the walk: named methods in place and embedded interfaces
      expanded where they stand. */
  lemma {:induction false} FlattenAppendOne(fs: seq<Field>, scope: Scope, live: set<string>)
    requires fs != [] && Closed(fs, scope, live)
    ensures Closed(fs[1..], scope, live)
    ensures fs[0].names == [] ==> EmbedsInterface(fs[0], scope) && fs[0].typ.name in live
    ensures Flatten(fs, scope, live) ==
      (if fs[0].names != [] then [fs[0]]
       else Flatten(EmbeddedMethods(fs[0], scope), scope, live - {fs[0].typ.name}))
      + Flatten(fs[1..], scope, live)
  {
  }

  // ---------------------------------------------------------------------
  // GetRequires

  /** `add`: appends `f` unless a field of its name was added before. */
  method Add(fields: seq<Field>, has: set<string>, f: Field) returns (fields': seq<Field>, has': set<string>)
    requires f.names != []
    ensures fields' == fields + FirstByName(has, [f])
    ensures has' == has + NamesOf([f])
  {
    var name := f.names[0];
    assert NamesOf([f]) == {name};
    if name in has {
      return fields, has;
    }
    fields', has' := fields + [f], has + {name};
  }

  /** Adds every field of `xs` in turn. */
  method AddAll(fields: seq<Field>, has: set<string>, xs: seq<Field>) returns (fields': seq<Field>, has': set<string>)
    requires AllNamed(xs)
    ensures fields' == fields + FirstByName(has, xs)
    ensures has' == has + NamesOf(xs)
  {
    fields', has' := fields, has;
    var k := 0;
    while k < |xs|
      invariant 0 <= k <= |xs|
      invariant AllNamed(xs[..k])
      invariant fields' == fields + FirstByName(has, xs[..k])
      invariant has' == has + NamesOf(xs[..k])
    {
      fields', has' := Add(fields', has', xs[k]);
      FirstByNameAppend(has, xs[..k], [xs[k]]);
      assert xs[..k + 1] == xs[..k] + [xs[k]];
      NamesOfAppend(xs[..k], [xs[k]]);
      k := k + 1;
    }
    assert xs[..k] == xs;
  }

  /** Adding the deduplicated walk of an embedded interface is adding the
      walk itself. */
  lemma AddDeduplicated(has: set<string>, walk: seq<Field>)
    requires AllNamed(walk)
    ensures FirstByName(has, FirstByName({}, walk)) == FirstByName(has, walk)
    ensures NamesOf(FirstByName({}, walk)) == NamesOf(walk)
  {
    FirstByNameTwice(has, {}, walk);
    assert has + {} == has;
    FirstByNameNames({}, walk);
  }

  /** The loop invariant of `GetRequires` survives one step that adds the
      part `head` of the walk. */
  lemma GetRequiresStep(fields: seq<Field>, has: set<string>, head: seq<Field>, rest: seq<Field>, want: seq<Field>)
    requires AllNamed(fields) && AllNamed(head) && AllNamed(rest) && has == NamesOf(fields)
    requires fields + FirstByName(has, head + rest) == want
    ensures AllNamed(fields + FirstByName(has, head))
    ensures has + NamesOf(head) == NamesOf(fields + FirstByName(has, head))
    ensures fields + FirstByName(has, head) + FirstByName(has + NamesOf(head), rest) == want
  {
    var added := FirstByName(has, head);
    var later := FirstByName(has + NamesOf(head), rest);
    FirstByNameAppend(has, head, rest);
    assert fields + added + later == fields + (added + later);
    FirstByNameNames(has, head);
    NamesOfAppend(fields, added);
  }

  /** `GetRequires`: the methods of an interface with embedded interfaces
      flattened depth-first, keeping the first method of each name. */
  method GetRequires(methods: seq<Field>, scope: Scope, ghost live: set<string>) returns (fields: seq<Field>)
    requires Closed(methods, scope, live)
    ensures fields == Requires(methods, scope, live)
    decreases live
  {
    ghost var want := Requires(methods, scope, live);
    fields := [];
    var has: set<string> := {};
    var i := 0;
    while i < |methods|
      invariant 0 <= i <= |methods|
      invariant Closed(methods[i..], scope, live)
      invariant AllNamed(fields) && has == NamesOf(fields)
      invariant fields + FirstByName(has, Flatten(methods[i..], scope, live)) == want
    {
      var field := methods[i];
      FlattenAppendOne(methods[i..], scope, live);
      assert methods[i..][1..] == methods[i + 1..];
      ghost var head := if field.names != [] then [field]
        else Flatten(EmbeddedMethods(field, scope), scope, live - {field.typ.name});
      GetRequiresStep(fields, has, head, Flatten(methods[i + 1..], scope, live), want);
      ghost var fields0, has0 := fields, has;
      if |field.names| == 0 {
        var inner := GetRequires(scope[field.typ.name].methods.list, scope, live - {field.typ.name});
        AddDeduplicated(has, head);
        fields, has := AddAll(fields, has, inner);
      } else {
        fields, has := Add(fields, has, field);
      }
      assert fields == fields0 + FirstByName(has0, head) && has == has0 + NamesOf(head);
      i := i + 1;
    }
  }

  // ---------------------------------------------------------------------
  // AutoNaming

  function Digit(d: nat): char
    requires d < 10
  {
    "0123456789"[d]
  }

  /** Decimal notation, as `%d` prints a non-negative number. */
  function Decimal(n: nat): (s: string)
    ensures |s| > 0 && forall i :: 0 <= i < |s| ==> '0' <= s[i] <= '9'
  {
    if n < 10 then [Digit(n)] else Decimal(n / 10) + [Digit(n % 10)]
  }

  function ParseDecimal(s: string): nat
    requires forall i :: 0 <= i < |s| ==> '0' <= s[i] <= '9'
  {
    if s == [] then 0 else ParseDecimal(s[..|s| - 1]) * 10 + (s[|s| - 1] as int - '0' as int)
  }

  lemma {:induction false} DecimalRoundTrip(n: nat)
    ensures ParseDecimal(Decimal(n)) == n
  {
    var s := Decimal(n);
    if n >= 10 {
      DecimalRoundTrip(n / 10);
      assert s[..|s| - 1] == Decimal(n / 10);
    }
  }

  /** The name `AutoNaming` gives the `i`-th parameter (counting from 1). */
  function ArgName(i: nat): string {
    "arg" + Decimal(i)
  }

  lemma ArgNameInjective(i: nat, j: nat)
    requires ArgName(i) == ArgName(j)
    ensures i == j
  {
    assert Decimal(i) == ArgName(i)[3..];
    assert Decimal(j) == ArgName(j)[3..];
    DecimalRoundTrip(i);
    DecimalRoundTrip(j);
  }

  /** `AutoNaming`: when the first parameter is unnamed, parameter `i`
      gets the name `arg<i>`; otherwise the signature is left alone. */
  method AutoNaming(ft: FuncType) returns (r: FuncType)
    requires ft.params.Fields?
    ensures r.results == ft.results && r.params.Fields? && |r.params.list| == |ft.params.list|
    ensures forall i :: 0 <= i < |ft.params.list| ==> r.params.list[i].typ == ft.params.list[i].typ
    ensures ft.params.list == [] || ft.params.list[0].names != [] ==> r == ft
    ensures ft.params.list != [] && ft.params.list[0].names == [] ==>
      forall i :: 0 <= i < |ft.params.list| ==> r.params.list[i].names == ft.params.list[i].names + [ArgName(i + 1)]
    ensures (forall i :: 0 <= i < |ft.params.list| ==> ft.params.list[i].names == []) ==>
      forall i, j :: 0 <= i < j < |r.params.list| ==> r.params.list[i].names != r.params.list[j].names
  {
    var list := ft.params.list;
    if |list| == 0 || |list[0].names| != 0 {
      return ft;
    }
    var named: seq<Field> := [];
    var i := 0;
    while i < |list|
      invariant 0 <= i <= |list| && |named| == i
      invariant forall k :: 0 <= k < i ==> named[k] == Field(list[k].names + [ArgName(k + 1)], list[k].typ)
    {
      named := named + [Field(list[i].names + [ArgName(i + 1)], list[i].typ)];
      i := i + 1;
    }
    r := FuncType(Fields(named), ft.results);
    forall a, b | 0 <= a < b < |named| && list[a].names == [] && list[b].names == []
      ensures named[a].names != named[b].names
    {
      if named[a].names == named[b].names {
        assert named[a].names == [ArgName(a + 1)];
        assert named[b].names == [ArgName(b + 1)];
        ArgNameInjective(a + 1, b + 1);
      }
    }
  }
}
