/** Object names, their order, and the sorted walk over a map's keys that makes the differ's
    output independent of the order in which a map yields its keys. */
module Names {

  // ----- the order of sort.Strings

  /** Lexicographic order by character.  Go compares strings byte by byte; on UTF-8 the two
      orders are the same. */
  predicate Less(a: string, b: string) {
    b != [] && (a == [] || a[0] < b[0] || (a[0] == b[0] && Less(a[1..], b[1..])))
  }

  lemma {:induction false} LessIrreflexive(a: string)
    ensures !Less(a, a)
  {
    if a != [] { LessIrreflexive(a[1..]); }
  }

  lemma {:induction false} LessTransitive(a: string, b: string, c: string)
    requires Less(a, b) && Less(b, c)
    ensures Less(a, c)
  {
    if a != [] && a[0] == b[0] == c[0] { LessTransitive(a[1..], b[1..], c[1..]); }
  }

  lemma {:induction false} LessTotal(a: string, b: string)
    ensures Less(a, b) || a == b || Less(b, a)
  {
    if a != [] && b != [] && a[0] == b[0] {
      LessTotal(a[1..], b[1..]);
      assert a == [a[0]] + a[1..] && b == [b[0]] + b[1..];
    }
  }

  lemma LessAsymmetric(a: string, b: string)
    requires Less(a, b)
    ensures !Less(b, a) && a != b
  {
    LessIrreflexive(a);
    if Less(b, a) { LessTransitive(a, b, a); }
  }

  ghost predicate StrictlySorted(s: seq<string>) {
    forall i, j :: 0 <= i < j < |s| ==> Less(s[i], s[j])
  }

  // ----- the sorted list of a set of names

  ghost predicate IsLeast(m: string, names: set<string>) {
    m in names && forall n :: n in names && n != m ==> Less(m, n)
  }

  lemma {:induction false} LeastExists(names: set<string>)
    requires names != {}
    ensures exists m :: IsLeast(m, names)
    decreases |names|
  {
    var n :| n in names;
    if names == {n} {
      assert IsLeast(n, names);
    } else {
      assert names - {n} != {};
      LeastExists(names - {n});
      var rest :| IsLeast(rest, names - {n});
      LessTotal(n, rest);
      var m := if Less(n, rest) then n else rest;
      forall k | k in names && k != m ensures Less(m, k) {
        if k != n && k != rest && m == n { LessTransitive(n, rest, k); }
      }
      assert IsLeast(m, names);
    }
  }

  lemma LeastUnique(m: string, n: string, names: set<string>)
    requires IsLeast(m, names) && IsLeast(n, names)
    ensures m == n
  {
    if m != n { LessAsymmetric(m, n); }
  }

  ghost function Least(names: set<string>): (m: string)
    requires names != {}
    ensures IsLeast(m, names)
  {
    LeastExists(names);
    var m :| IsLeast(m, names);
    m
  }

  /** The names of a set in ascending order. */
  ghost function Sorted(names: set<string>): (s: seq<string>)
    ensures |s| == |names|
    ensures forall n :: n in s <==> n in names
    ensures StrictlySorted(s)
  {
    if names == {} then [] else
    var m := Least(names);
    var rest := Sorted(names - {m});
    assert forall i :: 0 <= i < |rest| ==> rest[i] in rest;
    [m] + rest
  }

  /** Any strictly sorted listing of a set is the sorted listing. */
  lemma {:induction false} SortedUnique(s: seq<string>, names: set<string>)
    requires StrictlySorted(s) && forall n :: n in s <==> n in names
    ensures s == Sorted(names)
    decreases |s|
  {
    if s == [] {
      assert names == {};
    } else {
      assert s[0] in names;
      assert IsLeast(s[0], names) by {
        forall n | n in names && n != s[0] ensures Less(s[0], n) {
          var i :| 0 <= i < |s| && s[i] == n;
        }
      }
      LeastUnique(s[0], Least(names), names);
      forall n ensures n in s[1..] <==> n in names - {s[0]} {
        if n in s[1..] {
          var i :| 0 <= i < |s[1..]| && s[1..][i] == n;
          LessAsymmetric(s[0], s[i + 1]);
        }
      }
      SortedUnique(s[1..], names - {s[0]});
    }
  }

  lemma SortedDistinct(s: seq<string>)
    requires StrictlySorted(s)
    ensures forall i, j :: 0 <= i < j < |s| ==> s[i] != s[j]
  {
    forall i, j | 0 <= i < j < |s| ensures s[i] != s[j] { LessAsymmetric(s[i], s[j]); }
  }

  // ----- sorting, as the Go code does it

  /** Puts `n` in its place in a sorted list. */
  function Insert(n: string, s: seq<string>): (r: seq<string>)
    ensures forall k :: k in r <==> k == n || k in s
  {
    if s == [] then [n]
    else if Less(n, s[0]) then [n] + s
    else [s[0]] + Insert(n, s[1..])
  }

  lemma {:induction false} InsertSorted(n: string, s: seq<string>)
    requires StrictlySorted(s) && n !in s
    ensures StrictlySorted(Insert(n, s))
  {
    if s != [] {
      if Less(n, s[0]) {
        forall i | 0 < i < |s| ensures Less(n, s[i]) { LessTransitive(n, s[0], s[i]); }
      } else {
        LessTotal(n, s[0]);
        InsertSorted(n, s[1..]);
        var r := Insert(n, s[1..]);
        forall i | 0 <= i < |r| ensures Less(s[0], r[i]) {
          assert r[i] in r;
          if r[i] != n {
            var k :| 0 <= k < |s[1..]| && s[1..][k] == r[i];
          }
        }
      }
    }
  }

  ghost function KeysWhere<V>(m: map<string, V>, keep: string -> bool): set<string> {
    set n | n in m && keep(n)
  }

  function In<V>(m: map<string, V>): string -> bool { (n: string) => n in m }

  function NotIn<V>(m: map<string, V>): string -> bool { (n: string) => n !in m }

  function Every(): string -> bool { (n: string) => true }

  /** The keys of a map that satisfy `keep`, collected in whatever order the map yields them and
      then sorted. */
  method SortedKeysWhere<V>(m: map<string, V>, keep: string -> bool) returns (names: seq<string>)
    ensures names == Sorted(KeysWhere(m, keep))
    ensures forall i :: 0 <= i < |names| ==> names[i] in m && keep(names[i])
  {
    var left := m.Keys;
    names := [];
    while left != {}
      invariant left <= m.Keys
      invariant StrictlySorted(names)
      invariant forall n :: n in names <==> n in m && n !in left && keep(n)
      decreases |left|
    {
      var n :| n in left;
      if keep(n) {
        InsertSorted(n, names);
        names := Insert(n, names);
      }
      left := left - {n};
    }
    SortedUnique(names, KeysWhere(m, keep));
    assert forall i :: 0 <= i < |names| ==> names[i] in names;
  }
}
