/** Go's `<` on strings and the name order the deep method set is sorted
    in (impast.go:201-203). */
module Ordering {
  import opened Ast

  /** Lexicographic order on strings, character by character. */
  predicate Less(a: string, b: string)
    decreases |a|
  {
    if a == [] then b != []
    else b != [] && (a[0] < b[0] || (a[0] == b[0] && Less(a[1..], b[1..])))
  }

  lemma {:induction false} LessIrreflexive(a: string)
    ensures !Less(a, a)
    decreases |a|
  {
    if a != [] {
      LessIrreflexive(a[1..]);
    }
  }

  lemma {:induction false} LessTransitive(a: string, b: string, c: string)
    requires Less(a, b) && Less(b, c)
    ensures Less(a, c)
    decreases |a|
  {
    if a != [] && a[0] == b[0] && b[0] == c[0] {
      LessTransitive(a[1..], b[1..], c[1..]);
    }
  }

  lemma {:induction false} LessTotal(a: string, b: string)
    ensures a == b || Less(a, b) || Less(b, a)
    decreases |a|
  {
    if a != [] && b != [] && a[0] == b[0] {
      LessTotal(a[1..], b[1..]);
      if a[1..] == b[1..] {
        assert a == [a[0]] + a[1..];
        assert b == [b[0]] + b[1..];
      }
    }
  }

  lemma LessAsymmetric(a: string, b: string)
    requires Less(a, b)
    ensures !Less(b, a)
  {
    if Less(b, a) {
      LessTransitive(a, b, a);
      LessIrreflexive(a);
    }
  }

  /** The sort key of a method: its name. */
  function NameOf(d: Decl): string {
    if d.FuncDecl? then d.name else ""
  }

  /** Sorted by name with no name twice. */
  predicate SortedByName(xs: seq<Decl>) {
    forall i, j :: 0 <= i < j < |xs| ==> Less(NameOf(xs[i]), NameOf(xs[j]))
  }

  /** Inserts `d` into a name-sorted sequence at the place its name goes. */
  function InsertByName(xs: seq<Decl>, d: Decl): seq<Decl> {
    if xs == [] || Less(NameOf(d), NameOf(xs[0])) then [d] + xs
    else [xs[0]] + InsertByName(xs[1..], d)
  }

  lemma {:induction false} InsertByNameElements(xs: seq<Decl>, d: Decl)
    ensures multiset(InsertByName(xs, d)) == multiset(xs) + multiset{d}
  {
    if !(xs == [] || Less(NameOf(d), NameOf(xs[0]))) {
      InsertByNameElements(xs[1..], d);
      assert xs == [xs[0]] + xs[1..];
    }
  }

  lemma {:induction false} InsertByNameMembers(xs: seq<Decl>, d: Decl)
    ensures forall y :: y in InsertByName(xs, d) <==> y == d || y in xs
  {
    InsertByNameElements(xs, d);
    forall y ensures y in InsertByName(xs, d) <==> y == d || y in xs {
      assert y in InsertByName(xs, d) <==> y in multiset(InsertByName(xs, d));
      assert y in xs <==> y in multiset(xs);
    }
  }

  lemma SortedCons(x: Decl, tail: seq<Decl>)
    requires SortedByName(tail)
    requires forall y :: y in tail ==> Less(NameOf(x), NameOf(y))
    ensures SortedByName([x] + tail)
  {
    var ys := [x] + tail;
    forall i, j | 0 <= i < j < |ys| ensures Less(NameOf(ys[i]), NameOf(ys[j])) {
      assert ys[j] == tail[j - 1];
      if i > 0 {
        assert ys[i] == tail[i - 1];
      }
    }
  }

  lemma SortedTail(xs: seq<Decl>)
    requires SortedByName(xs) && xs != []
    ensures SortedByName(xs[1..])
    ensures forall y :: y in xs[1..] ==> Less(NameOf(xs[0]), NameOf(y))
  {
    var tail := xs[1..];
    forall i, j | 0 <= i < j < |tail| ensures Less(NameOf(tail[i]), NameOf(tail[j])) {
      assert tail[i] == xs[i + 1] && tail[j] == xs[j + 1];
    }
    forall y | y in tail ensures Less(NameOf(xs[0]), NameOf(y)) {
      var k :| 0 <= k < |tail| && tail[k] == y;
      assert xs[k + 1] == y;
    }
  }

  lemma {:induction false} InsertByNameSorted(xs: seq<Decl>, d: Decl)
    requires SortedByName(xs)
    requires forall x :: x in xs ==> NameOf(x) != NameOf(d)
    ensures SortedByName(InsertByName(xs, d))
    decreases |xs|
  {
    if xs == [] {
      SortedCons(d, xs);
    } else if Less(NameOf(d), NameOf(xs[0])) {
      SortedTail(xs);
      forall y | y in xs ensures Less(NameOf(d), NameOf(y)) {
        if y != xs[0] {
          assert y in xs[1..];
          LessTransitive(NameOf(d), NameOf(xs[0]), NameOf(y));
        }
      }
      SortedCons(d, xs);
    } else {
      LessTotal(NameOf(d), NameOf(xs[0]));
      SortedTail(xs);
      assert forall x :: x in xs[1..] ==> x in xs;
      InsertByNameSorted(xs[1..], d);
      InsertByNameMembers(xs[1..], d);
      SortedCons(xs[0], InsertByName(xs[1..], d));
    }
  }

  lemma MultisetTail(xs: seq<Decl>)
    requires xs != []
    ensures multiset(xs[1..]) == multiset(xs) - multiset{xs[0]}
  {
    assert xs == [xs[0]] + xs[1..];
  }

  lemma SortedHeads(xs: seq<Decl>, ys: seq<Decl>)
    requires SortedByName(xs) && SortedByName(ys) && xs != []
    requires multiset(xs) == multiset(ys)
    ensures ys != [] && xs[0] == ys[0]
  {
    assert xs[0] in multiset(ys);
    assert ys[0] in multiset(xs);
    SortedTail(xs);
    SortedTail(ys);
    if xs[0] != ys[0] {
      assert xs[0] in ys[1..] && ys[0] in xs[1..];
      LessAsymmetric(NameOf(xs[0]), NameOf(ys[0]));
    }
  }

  /** Two name-sorted sequences with the same elements are the same. */
  lemma {:induction false} SortedByNameUnique(xs: seq<Decl>, ys: seq<Decl>)
    requires SortedByName(xs) && SortedByName(ys)
    requires multiset(xs) == multiset(ys)
    ensures xs == ys
    decreases |xs|
  {
    if xs != [] {
      SortedHeads(xs, ys);
      MultisetTail(xs);
      MultisetTail(ys);
      SortedTail(xs);
      SortedTail(ys);
      SortedByNameUnique(xs[1..], ys[1..]);
      assert xs == [xs[0]] + xs[1..] && ys == [ys[0]] + ys[1..];
    } else {
      assert |ys| == |multiset(ys)|;
    }
  }

  /** `k` is the least string of `s`. */
  predicate IsLeast(k: string, s: set<string>) {
    k in s && forall x :: x in s && x != k ==> Less(k, x)
  }

  lemma {:induction false} LeastExists(s: set<string>)
    requires s != {}
    ensures exists k :: IsLeast(k, s)
    decreases |s|
  {
    var x :| x in s;
    var rest := s - {x};
    if rest != {} {
      assert |rest| < |s|;
      LeastExists(rest);
      var k :| IsLeast(k, rest);
      LessTotal(x, k);
      if Less(x, k) {
        forall y | y in s && y != x ensures Less(x, y) {
          if y != k { LessTransitive(x, k, y); }
        }
        assert IsLeast(x, s);
      } else {
        assert IsLeast(k, s);
      }
    } else {
      assert s == {x};
      assert IsLeast(x, s);
    }
  }

  ghost function Least(s: set<string>): (k: string)
    requires s != {}
    ensures IsLeast(k, s)
  {
    LeastExists(s);
    var k :| IsLeast(k, s); k
  }

  /** The entries of `m` in increasing order of their keys. */
  ghost function SortedValues(m: map<string, Decl>): seq<Decl>
    decreases |m.Keys|
  {
    if m.Keys == {} then []
    else
      var k := Least(m.Keys);
      [m[k]] + SortedValues(m - {k})
  }

  /** A map whose every entry is a method filed under its own name. */
  predicate FiledByName(m: map<string, Decl>) {
    forall k :: k in m ==> NameOf(m[k]) == k
  }

  lemma {:induction false} SortedValuesSorted(m: map<string, Decl>)
    requires FiledByName(m)
    ensures SortedByName(SortedValues(m))
    ensures multiset(SortedValues(m)) == multiset(m.Values)
    ensures |SortedValues(m)| == |m|
    decreases |m.Keys|
  {
    if m.Keys != {} {
      var k := Least(m.Keys);
      var rest := m - {k};
      assert |rest.Keys| == |m.Keys| - 1;
      SortedValuesSorted(rest);
      var tail := SortedValues(rest);
      forall y | y in tail ensures Less(NameOf(m[k]), NameOf(y)) {
        assert y in multiset(rest.Values);
        var k' :| k' in rest && rest[k'] == y;
      }
      SortedCons(m[k], tail);
      MultisetValuesRemove(m, k);
    } else {
      assert m == map[];
    }
  }

  lemma MultisetValuesRemove(m: map<string, Decl>, k: string)
    requires k in m && FiledByName(m)
    ensures multiset(m.Values) == multiset{m[k]} + multiset((m - {k}).Values)
  {
    var rest := m - {k};
    forall v | v in m.Values ensures v in {m[k]} + rest.Values {
      var k' :| k' in m && m[k'] == v;
      if k' != k { assert rest[k'] == v; }
    }
    assert m.Values == {m[k]} + rest.Values;
    forall k' | k' in rest ensures rest[k'] != m[k] {
      assert NameOf(rest[k']) == k';
    }
    assert m[k] !in rest.Values;
  }

  lemma ValuesInsert(m: map<string, Decl>, k: string, d: Decl)
    requires FiledByName(m) && k !in m && NameOf(d) == k
    ensures FiledByName(m[k := d])
    ensures multiset(m[k := d].Values) == multiset(m.Values) + multiset{d}
  {
    var m' := m[k := d];
    MultisetValuesRemove(m', k);
    var rest := m' - {k};
    assert rest == m;
  }

  /** Adding an entry under a new key inserts its value into the sorted
      values at its place. */
  lemma SortedValuesInsert(m: map<string, Decl>, k: string, d: Decl)
    requires FiledByName(m) && k !in m && NameOf(d) == k
    ensures SortedValues(m[k := d]) == InsertByName(SortedValues(m), d)
  {
    var xs := SortedValues(m);
    var ys := SortedValues(m[k := d]);
    var zs := InsertByName(xs, d);
    ValuesInsert(m, k, d);
    SortedValuesSorted(m);
    SortedValuesSorted(m[k := d]);
    forall x | x in xs ensures NameOf(x) != NameOf(d) {
      assert x in multiset(m.Values);
      var k' :| k' in m && m[k'] == x;
    }
    InsertByNameSorted(xs, d);
    InsertByNameElements(xs, d);
    SortedByNameUnique(ys, zs);
  }
}
