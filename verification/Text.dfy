/** Strings: the order Rust gives them, sorted key lists, and searching. */
module Text {
  // ------------------------------------------------------------------- ordering

  /** Lexicographic order by code point, which is also the order of the UTF-8 bytes. */
  predicate Leq(a: string, b: string) {
    a == [] || (b != [] && (a[0] < b[0] || (a[0] == b[0] && Leq(a[1..], b[1..]))))
  }

  lemma {:induction false} LeqTotal(a: string, b: string)
    ensures Leq(a, b) || Leq(b, a)
  {
    if a != [] && b != [] && a[0] == b[0] {
      LeqTotal(a[1..], b[1..]);
    }
  }

  lemma {:induction false} LeqAntisymmetric(a: string, b: string)
    requires Leq(a, b) && Leq(b, a)
    ensures a == b
  {
    if a != [] {
      LeqAntisymmetric(a[1..], b[1..]);
      assert a == [a[0]] + a[1..] && b == [b[0]] + b[1..];
    }
  }

  lemma {:induction false} LeqTransitive(a: string, b: string, c: string)
    requires Leq(a, b) && Leq(b, c)
    ensures Leq(a, c)
  {
    if a != [] && a[0] == b[0] && b[0] == c[0] {
      LeqTransitive(a[1..], b[1..], c[1..]);
    }
  }

  ghost predicate IsLeast(x: string, s: set<string>) {
    x in s && forall y :: y in s ==> Leq(x, y)
  }

  lemma {:induction false} LeastExists(s: set<string>) returns (x: string)
    requires s != {}
    ensures IsLeast(x, s)
    decreases s
  {
    x :| x in s;
    LeqTotal(x, x);
    if s != {x} {
      var rest := s - {x};
      assert s == rest + {x};
      var y := LeastExists(rest);
      LeqTotal(x, y);
      if Leq(x, y) {
        forall z | z in s ensures Leq(x, z) {
          if z != x { LeqTransitive(x, y, z); }
        }
      } else {
        x := y;
      }
    }
  }

  ghost function Least(s: set<string>): (x: string)
    requires s != {}
    ensures IsLeast(x, s)
  {
    LeastOf(s);
    var x :| IsLeast(x, s);
    x
  }

  lemma {:induction false} LeastOf(s: set<string>)
    requires s != {}
    ensures exists x :: IsLeast(x, s)
  {
    var x := LeastExists(s);
  }

  predicate Sorted(s: seq<string>) {
    forall i, j :: 0 <= i < j < |s| ==> s[i] != s[j] && Leq(s[i], s[j])
  }

  /** The elements of a set in ascending order. */
  ghost function SortedKeys(s: set<string>): (r: seq<string>)
    ensures forall x :: x in r <==> x in s
    ensures Sorted(r)
  {
    if s == {} then []
    else
      var x := Least(s);
      [x] + SortedKeys(s - {x})
  }

  /** A sorted list of the elements of `s` starts with the least one. */
  lemma {:induction false} SortedStartsWithLeast(r: seq<string>, s: set<string>)
    requires s != {} && Sorted(r) && forall x :: x in r <==> x in s
    ensures r != [] && r[0] == Least(s)
  {
    var x := Least(s);
    assert x in r;
    assert r[0] in s;
    var i :| 0 <= i < |r| && r[i] == x;
    if i > 0 {
      LeqAntisymmetric(x, r[0]);
    }
  }

  lemma {:induction false} SortedIsUnique(r: seq<string>, s: set<string>)
    requires Sorted(r) && forall x :: x in r <==> x in s
    ensures r == SortedKeys(s)
    decreases |r|
  {
    if r == [] {
      assert s == {};
    } else {
      assert r[0] in s;
      SortedStartsWithLeast(r, s);
      var t := r[1..];
      assert Sorted(t);
      assert r == [r[0]] + t;
      SortedIsUnique(t, s - {r[0]});
    }
  }

  // -------------------------------------------------------- insertion into a list

  /** Where `x` goes in a sorted list: after everything below it. */
  method InsertSorted(r: seq<string>, x: string) returns (r': seq<string>)
    requires Sorted(r) && x !in r
    ensures Sorted(r') && forall y :: y in r' <==> y in r || y == x
  {
    var i := 0;
    while i < |r| && Leq(r[i], x)
      invariant 0 <= i <= |r|
      invariant forall j :: 0 <= j < i ==> Leq(r[j], x)
    {
      i := i + 1;
    }
    r' := r[..i] + [x] + r[i..];
    forall j | i <= j < |r| ensures Leq(x, r[j]) {
      LeqTotal(r[i], x);
      if j > i { LeqTransitive(x, r[i], r[j]); }
    }
    assert forall y :: y in r <==> y in r[..i] || y in r[i..];
  }

  /** The keys of a map, taken in arbitrary order and then sorted. */
  method CollectSorted(s: set<string>) returns (r: seq<string>)
    ensures r == SortedKeys(s)
  {
    r := [];
    var rest := s;
    while rest != {}
      invariant rest <= s && Sorted(r)
      invariant forall x :: x in r <==> x in s - rest
    {
      var x :| x in rest;
      r := InsertSorted(r, x);
      rest := rest - {x};
    }
    SortedIsUnique(r, s);
  }

  // ------------------------------------------------------------------- prefixes

  predicate StartsWith(s: string, prefix: string) {
    prefix <= s
  }
}
