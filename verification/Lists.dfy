/** Filtering and flattening of lists, and how both act on concatenations. */
module Lists {

  function Filter<T(!new)>(s: seq<T>, p: T -> bool): (r: seq<T>)
    ensures forall x :: x in r <==> x in s && p(x)
    ensures |r| <= |s|
  {
    if s == [] then [] else
    var rest := Filter(s[..|s| - 1], p);
    var x := s[|s| - 1];
    assert forall y :: y in s <==> y in s[..|s| - 1] || y == x;
    if p(x) then rest + [x] else rest
  }

  lemma {:induction false} FilterConcat<T(!new)>(a: seq<T>, b: seq<T>, p: T -> bool)
    ensures Filter(a + b, p) == Filter(a, p) + Filter(b, p)
  {
    if b == [] {
      assert a + b == a;
    } else {
      var init := b[..|b| - 1];
      assert (a + b)[..|a + b| - 1] == a + init;
      FilterConcat(a, init, p);
    }
  }

  lemma {:induction false} FilterAll<T(!new)>(s: seq<T>, p: T -> bool)
    requires forall x :: x in s ==> p(x)
    ensures Filter(s, p) == s
  {
    if s != [] {
      assert s == s[..|s| - 1] + [s[|s| - 1]];
      FilterAll(s[..|s| - 1], p);
    }
  }

  lemma {:induction false} FilterNone<T(!new)>(s: seq<T>, p: T -> bool)
    requires forall x :: x in s ==> !p(x)
    ensures Filter(s, p) == []
  {
    if s != [] { FilterNone(s[..|s| - 1], p); }
  }

  lemma FilterSnoc<T(!new)>(s: seq<T>, x: T, p: T -> bool)
    ensures Filter(s + [x], p) == Filter(s, p) + (if p(x) then [x] else [])
  {
    assert (s + [x])[..|s|] == s;
  }

  /** One more turn of a loop that keeps the elements satisfying `p`. */
  lemma FilterStep<T(!new)>(s: seq<T>, i: nat, p: T -> bool)
    requires i < |s|
    ensures Filter(s[..i + 1], p) == Filter(s[..i], p) + (if p(s[i]) then [s[i]] else [])
  {
    assert s[..i + 1][..i] == s[..i];
  }

  /** Two predicates that agree on a list select the same elements. */
  lemma {:induction false} FilterSame<T(!new)>(s: seq<T>, p: T -> bool, q: T -> bool)
    requires forall x :: x in s ==> p(x) == q(x)
    ensures Filter(s, p) == Filter(s, q)
  {
    if s != [] { FilterSame(s[..|s| - 1], p, q); }
  }

  lemma {:induction false} FilterFilter<T(!new)>(s: seq<T>, p: T -> bool, q: T -> bool, r: T -> bool)
    requires forall x :: x in s ==> (r(x) <==> p(x) && q(x))
    ensures Filter(Filter(s, p), q) == Filter(s, r)
  {
    if s != [] {
      var init, x := s[..|s| - 1], s[|s| - 1];
      FilterFilter(init, p, q, r);
      if p(x) {
        var kept := Filter(init, p) + [x];
        assert kept[..|kept| - 1] == Filter(init, p);
      }
    }
  }

  /** What `f` gives for each name, in order. */
  ghost function Flat<T(!new)>(names: seq<string>, f: string -> seq<T>): seq<T> {
    if names == [] then [] else Flat(names[..|names| - 1], f) + f(names[|names| - 1])
  }

  lemma {:induction false} FlatConcat<T(!new)>(a: seq<string>, b: seq<string>, f: string -> seq<T>)
    ensures Flat(a + b, f) == Flat(a, f) + Flat(b, f)
  {
    if b == [] {
      assert a + b == a;
    } else {
      var init := b[..|b| - 1];
      assert (a + b)[..|a + b| - 1] == a + init;
      FlatConcat(a, init, f);
    }
  }

  /** One more turn of a loop that appends `f(names[i])`. */
  lemma FlatStep<T(!new)>(names: seq<string>, i: nat, f: string -> seq<T>)
    requires i < |names|
    ensures Flat(names[..i + 1], f) == Flat(names[..i], f) + f(names[i])
  {
    assert names[..i + 1][..i] == names[..i];
  }

  lemma {:induction false} FlatMember<T(!new)>(names: seq<string>, f: string -> seq<T>, x: T) returns (n: string)
    requires x in Flat(names, f)
    ensures n in names && x in f(n)
  {
    var last := names[|names| - 1];
    if x in f(last) {
      n := last;
    } else {
      n := FlatMember(names[..|names| - 1], f, x);
    }
  }

  lemma {:induction false} FlatHas<T(!new)>(names: seq<string>, f: string -> seq<T>, n: string, x: T)
    requires n in names && x in f(n)
    ensures x in Flat(names, f)
  {
    if n != names[|names| - 1] {
      assert n in names[..|names| - 1];
      FlatHas(names[..|names| - 1], f, n, x);
    }
  }

  lemma {:induction false} FlatEmpty<T(!new)>(names: seq<string>, f: string -> seq<T>)
    ensures Flat(names, f) == [] <==> forall n :: n in names ==> f(n) == []
  {
    if names != [] {
      var init, last := names[..|names| - 1], names[|names| - 1];
      assert forall n :: n in names <==> n in init || n == last;
      FlatEmpty(init, f);
    }
  }

  lemma {:induction false} FilterFlat<T(!new)>(names: seq<string>, f: string -> seq<T>, g: string -> seq<T>,
    p: T -> bool)
    requires forall n :: n in names ==> Filter(f(n), p) == g(n)
    ensures Filter(Flat(names, f), p) == Flat(names, g)
  {
    if names != [] {
      var init, last := names[..|names| - 1], names[|names| - 1];
      FilterFlat(init, f, g, p);
      FilterConcat(Flat(init, f), f(last), p);
    }
  }

  /** If only one name contributes, the walk gives what that name gives. */
  lemma {:induction false} FlatOne<T(!new)>(names: seq<string>, f: string -> seq<T>, only: string)
    requires forall i, j :: 0 <= i < j < |names| ==> names[i] != names[j]
    requires forall n :: n in names && n != only ==> f(n) == []
    ensures Flat(names, f) == if only in names then f(only) else []
  {
    if names != [] {
      var init, last := names[..|names| - 1], names[|names| - 1];
      assert forall n :: n in names <==> n in init || n == last;
      FlatOne(init, f, only);
    }
  }

  /** Filters can be applied in either order. */
  lemma FilterSwap<T(!new)>(s: seq<T>, p: T -> bool, q: T -> bool)
    ensures Filter(Filter(s, p), q) == Filter(Filter(s, q), p)
  {
    var both := (x: T) => p(x) && q(x);
    FilterFilter(s, p, q, both);
    FilterFilter(s, q, p, both);
  }

  /** If what `p` selects comes from one name only, that name gives all of it. */
  lemma FilterFlatOne<T(!new)>(names: seq<string>, f: string -> seq<T>, p: T -> bool, only: string)
    requires forall i, j :: 0 <= i < j < |names| ==> names[i] != names[j]
    requires forall n, x :: n in names && x in f(n) ==> (p(x) <==> n == only)
    ensures Filter(Flat(names, f), p) == if only in names then f(only) else []
  {
    var g := (n: string) => if n == only then f(n) else [];
    forall n | n in names ensures Filter(f(n), p) == g(n) {
      if n == only { FilterAll(f(n), p); } else { FilterNone(f(n), p); }
    }
    FilterFlat(names, f, g, p);
    FlatOne(names, g, only);
  }

  lemma {:induction false} FlatAll<T(!new)>(names: seq<string>, f: string -> seq<T>, p: T -> bool)
    requires forall n, x :: n in names && x in f(n) ==> p(x)
    ensures forall x :: x in Flat(names, f) ==> p(x)
  {
    forall x | x in Flat(names, f) ensures p(x) {
      var n := FlatMember(names, f, x);
    }
  }
}
