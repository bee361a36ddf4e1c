/** Rename detection: what the signature lookup finds, and when a signature stands for the
    properties it is made of. */
module RenameTheory {
  import opened Catalog
  import opened Operations
  import opened Names
  import opened Lists
  import opened DiffSpec

  // ----- signatures

  predicate NoBar(s: string) {
    '|' !in s
  }

  /** The text of a default; an absent one reads like an empty one. */
  function DefaultText(d: Option<string>): string {
    if d.Some? then d.value else ""
  }

  lemma {:induction false} SplitAtFirstBar(a: string, x: string, b: string, y: string)
    requires a + "|" + x == b + "|" + y && NoBar(a) && NoBar(b)
    ensures a == b && x == y
  {
    var l, r := a + "|" + x, b + "|" + y;
    assert l[0] == if a == [] then '|' else a[0];
    assert r[0] == if b == [] then '|' else b[0];
    if a == [] {
      assert l[1..] == x && r[1..] == y;
    } else {
      assert l[1..] == a[1..] + "|" + x && r[1..] == b[1..] + "|" + y;
      SplitAtFirstBar(a[1..], x, b[1..], y);
    }
  }

  lemma {:induction false} SplitAtLastBar(x: string, a: string, y: string, b: string)
    requires x + "|" + a == y + "|" + b && NoBar(a) && NoBar(b)
    ensures x == y && a == b
  {
    var l, r := x + "|" + a, y + "|" + b;
    assert l[|l| - 1] == if a == [] then '|' else a[|a| - 1];
    assert r[|r| - 1] == if b == [] then '|' else b[|b| - 1];
    if a == [] {
      assert l[..|l| - 1] == x && r[..|r| - 1] == y;
    } else {
      assert l[..|l| - 1] == x + "|" + a[..|a| - 1];
      assert r[..|r| - 1] == y + "|" + b[..|b| - 1];
      SplitAtLastBar(x, a[..|a| - 1], y, b[..|b| - 1]);
    }
  }

  /** A column whose type and collation leave its signature readable. */
  predicate Readable(c: Column) {
    NoBar(c.dataType) && NoBar(c.collation)
  }

  function NullText(b: bool): string {
    if b then "true" else "false"
  }

  lemma SignatureShape(c: Column)
    ensures Signature(c) ==
      c.dataType + "|" + (NullText(c.isNullable) + "|" + (DefaultText(c.defaultExpr) + "|" + c.collation))
  {
  }

  /** Readable signatures determine type, nullability, collation and the text of the default. */
  lemma SignatureParts(a: Column, b: Column)
    requires Readable(a) && Readable(b)
    ensures Signature(a) == Signature(b) <==>
      && a.dataType == b.dataType && a.isNullable == b.isNullable && a.collation == b.collation
      && DefaultText(a.defaultExpr) == DefaultText(b.defaultExpr)
  {
    SignatureShape(a);
    SignatureShape(b);
    hide Signature, DefaultText;
    if Signature(a) == Signature(b) {
      var na, nb := NullText(a.isNullable), NullText(b.isNullable);
      var da, db := DefaultText(a.defaultExpr), DefaultText(b.defaultExpr);
      SplitAtFirstBar(a.dataType, na + "|" + (da + "|" + a.collation),
                      b.dataType, nb + "|" + (db + "|" + b.collation));
      SplitAtFirstBar(na, da + "|" + a.collation, nb, db + "|" + b.collation);
      SplitAtLastBar(da, a.collation, db, b.collation);
      assert na[0] == 't' <==> a.isNullable;
      assert nb[0] == 't' <==> b.isNullable;
    }
  }

  /** One default is absent and the other is present but empty. */
  predicate EmptyDefaultClash(a: Column, b: Column) {
    a.defaultExpr != b.defaultExpr && DefaultText(a.defaultExpr) == "" && DefaultText(b.defaultExpr) == ""
  }

  /** The lookup refines the pairwise comparison: candidates always share a signature, and for
      readable columns a shared signature means a candidate pair exactly when the two defaults
      are not an absent one and an empty one. */
  lemma SignatureRefinesCandidates(a: Column, b: Column)
    ensures IsRenameCandidate(a, b) ==> Signature(a) == Signature(b)
    ensures Readable(a) && Readable(b) ==>
      ((Signature(a) == Signature(b) <==> IsRenameCandidate(a, b)) <==>
        !(EmptyDefaultClash(a, b) && a.dataType == b.dataType && a.isNullable == b.isNullable &&
          a.collation == b.collation))
  {
    if Readable(a) && Readable(b) {
      SignatureParts(a, b);
    }
  }

  /** Two columns with equal signatures that are no rename candidates: an absent and an empty
      default, and a bar that moves from the collation into the default. */
  lemma SignatureCollisions()
    ensures var a := Column("a", "text", true, None, false, "", "");
      var b := a.(name := "b", defaultExpr := Some(""));
      Signature(a) == Signature(b) && !IsRenameCandidate(a, b)
    ensures var a := Column("a", "text", true, Some("d"), false, "", "e|f");
      var b := a.(name := "b", defaultExpr := Some("d|e"), collation := "f");
      Signature(a) == Signature(b) && !IsRenameCandidate(a, b)
  {
    var a := Column("a", "text", true, Some("d"), false, "", "e|f");
    var b := a.(name := "b", defaultExpr := Some("d|e"), collation := "f");
    assert Signature(a) == "text|true|d|e|f" == Signature(b);
  }

  // ----- the lookup table

  predicate HasSignature(t: TableDef, names: seq<string>, sig: string, n: string) {
    n in names && n in t.columns && Signature(t.columns[n]) == sig
  }

  /** Each signature leads to the last name that has it. */
  lemma {:induction false} BySignatureLast(t: TableDef, names: seq<string>, sig: string)
    requires StrictlySorted(names) && forall n :: n in names ==> n in t.columns
    ensures sig in BySignature(t, names) <==> exists n :: HasSignature(t, names, sig, n)
    ensures sig in BySignature(t, names) ==>
      HasSignature(t, names, sig, BySignature(t, names)[sig])
    ensures sig in BySignature(t, names) ==> forall n :: HasSignature(t, names, sig, n) ==>
      n == BySignature(t, names)[sig] || Less(n, BySignature(t, names)[sig])
  {
    if names != [] {
      var init, last := names[..|names| - 1], names[|names| - 1];
      assert forall n :: n in names <==> n in init || n == last;
      BySignatureLast(t, init, sig);
      assert forall n :: HasSignature(t, init, sig, n) ==> HasSignature(t, names, sig, n);
      if Signature(t.columns[last]) == sig {
        assert HasSignature(t, names, sig, last);
        forall n | HasSignature(t, names, sig, n) && n != last ensures Less(n, last) {
          var i :| 0 <= i < |names| && names[i] == n;
        }
      } else {
        assert forall n :: HasSignature(t, names, sig, n) ==> HasSignature(t, init, sig, n);
      }
    }
  }

  // ----- the matching

  /** `a` is the first of the listed source columns with its signature, and `b` is where that
      signature leads. */
  ghost predicate Matched(s: TableDef, sources: seq<string>, bySig: map<string, string>, a: string, b: string) {
    && a in sources && a in s.columns
    && Signature(s.columns[a]) in bySig && bySig[Signature(s.columns[a])] == b
    && IsFirst(s, sources, Signature(s.columns[a]), a)
  }

  ghost predicate IsFirst(s: TableDef, names: seq<string>, sig: string, a: string) {
    forall n :: HasSignature(s, names, sig, n) ==> n == a || Less(a, n)
  }

  ghost predicate Occurs(s: TableDef, names: seq<string>, sig: string) {
    exists n :: HasSignature(s, names, sig, n)
  }

  /** Different signatures lead to different columns. */
  ghost predicate Separates(bySig: map<string, string>) {
    forall x, y :: x in bySig && y in bySig && bySig[x] == bySig[y] ==> x == y
  }

  lemma {:induction false} MatchesExact(s: TableDef, sources: seq<string>, bySig: map<string, string>)
    requires StrictlySorted(sources) && Separates(bySig)
    requires forall n :: n in sources ==> n in s.columns
    ensures forall a, b :: (a, b) in Matches(s, sources, bySig) <==> Matched(s, sources, bySig, a, b)
  {
    if sources != [] {
      var init, last := sources[..|sources| - 1], sources[|sources| - 1];
      assert forall n :: n in sources <==> n in init || n == last;
      MatchesExact(s, init, bySig);
      var before, after := Matches(s, init, bySig), Matches(s, sources, bySig);
      forall n | n in init ensures Less(n, last) {
        var i :| 0 <= i < |init| && init[i] == n;
      }
      LessIrreflexive(last);
      forall a, b ensures (a, b) in after <==> Matched(s, sources, bySig, a, b) {
        if a == last {
          MatchedLast(s, sources, bySig, b);
        } else {
          assert (a, b) in after <==> (a, b) in before;
          MatchedEarlier(s, sources, bySig, a, b);
        }
      }
    }
  }

  lemma MatchedEarlier(s: TableDef, sources: seq<string>, bySig: map<string, string>, a: string, b: string)
    requires sources != [] && StrictlySorted(sources) && a != sources[|sources| - 1]
    ensures Matched(s, sources[..|sources| - 1], bySig, a, b) <==> Matched(s, sources, bySig, a, b)
  {
    var init, last := sources[..|sources| - 1], sources[|sources| - 1];
    assert forall n :: n in sources <==> n in init || n == last;
    if a in init && a in s.columns {
      var i :| 0 <= i < |init| && init[i] == a;
      assert Less(sources[i], last);
      var sig := Signature(s.columns[a]);
      assert forall n :: HasSignature(s, init, sig, n) ==> HasSignature(s, sources, sig, n);
      assert forall n :: HasSignature(s, sources, sig, n) ==> HasSignature(s, init, sig, n) || n == last;
    }
  }

  lemma MatchedLast(s: TableDef, sources: seq<string>, bySig: map<string, string>, b: string)
    requires sources != [] && StrictlySorted(sources) && Separates(bySig)
    requires forall n :: n in sources ==> n in s.columns
    requires forall x, y :: (x, y) in Matches(s, sources[..|sources| - 1], bySig) <==>
      Matched(s, sources[..|sources| - 1], bySig, x, y)
    ensures (sources[|sources| - 1], b) in Matches(s, sources, bySig) <==>
      Matched(s, sources, bySig, sources[|sources| - 1], b)
  {
    var init, last := sources[..|sources| - 1], sources[|sources| - 1];
    var sig := Signature(s.columns[last]);
    assert last !in init by { SortedDistinct(sources); }
    assert (last, b) !in Matches(s, init, bySig) by { assert !Matched(s, init, bySig, last, b); }
    MatchesStep(s, sources, bySig, b);
    LastIsFirst(s, sources, sig);
    if sig in bySig {
      TakenIffEarlier(s, init, bySig, sig);
    }
    hide StrictlySorted, Separates, IsFirst, Occurs, Matches, TargetTaken;
  }

  lemma MatchesStep(s: TableDef, sources: seq<string>, bySig: map<string, string>, b: string)
    requires sources != []
    requires forall n :: n in sources ==> n in s.columns
    requires (sources[|sources| - 1], b) !in Matches(s, sources[..|sources| - 1], bySig)
    ensures var last, before := sources[|sources| - 1], Matches(s, sources[..|sources| - 1], bySig);
      var sig := Signature(s.columns[last]);
      (last, b) in Matches(s, sources, bySig) <==>
        sig in bySig && bySig[sig] == b && !TargetTaken(before, bySig[sig])
  {
  }

  /** The last listed column is the first with its signature if no earlier one has it. */
  lemma LastIsFirst(s: TableDef, sources: seq<string>, sig: string)
    requires sources != [] && StrictlySorted(sources)
    requires sources[|sources| - 1] in s.columns && Signature(s.columns[sources[|sources| - 1]]) == sig
    ensures IsFirst(s, sources, sig, sources[|sources| - 1]) <==> !Occurs(s, sources[..|sources| - 1], sig)
  {
    var init, last := sources[..|sources| - 1], sources[|sources| - 1];
    assert forall n :: n in sources <==> n in init || n == last;
    forall n | n in init ensures n != last && !Less(last, n) {
      var i :| 0 <= i < |init| && init[i] == n;
      assert Less(sources[i], last);
      LessAsymmetric(n, last);
    }
    assert forall n :: HasSignature(s, init, sig, n) ==> HasSignature(s, sources, sig, n);
    assert forall n :: HasSignature(s, sources, sig, n) ==> HasSignature(s, init, sig, n) || n == last;
  }

  /** A target is taken exactly when an earlier source column has its signature. */
  lemma TakenIffEarlier(s: TableDef, init: seq<string>, bySig: map<string, string>, sig: string)
    requires StrictlySorted(init) && Separates(bySig) && sig in bySig
    requires forall n :: n in init ==> n in s.columns
    requires forall x, y :: (x, y) in Matches(s, init, bySig) <==> Matched(s, init, bySig, x, y)
    ensures TargetTaken(Matches(s, init, bySig), bySig[sig]) <==> Occurs(s, init, sig)
  {
    var before := Matches(s, init, bySig);
    if TargetTaken(before, bySig[sig]) {
      var i :| 0 <= i < |before| && before[i].1 == bySig[sig];
      assert (before[i].0, before[i].1) in before;
      assert Matched(s, init, bySig, before[i].0, before[i].1);
      assert HasSignature(s, init, sig, before[i].0);
    }
    if Occurs(s, init, sig) {
      var names := set n | n in init && HasSignature(s, init, sig, n);
      var n :| HasSignature(s, init, sig, n);
      assert n in names;
      var first := Least(names);
      assert Matched(s, init, bySig, first, bySig[sig]);
      assert (first, bySig[sig]) in before;
    }
  }

  // ----- what is renamed

  ghost predicate IsSourceOnly(s: TableDef, t: TableDef, n: string) {
    n in s.columns && n !in t.columns
  }

  ghost predicate IsTargetOnly(s: TableDef, t: TableDef, n: string) {
    n in t.columns && n !in s.columns
  }

  /** `a` is the smallest source-only name and `b` the largest target-only name of a signature. */
  ghost predicate IsRename(s: TableDef, t: TableDef, a: string, b: string) {
    && IsSourceOnly(s, t, a) && IsTargetOnly(s, t, b)
    && Signature(s.columns[a]) == Signature(t.columns[b])
    && (forall n :: IsSourceOnly(s, t, n) && Signature(s.columns[n]) == Signature(s.columns[a]) ==>
          n == a || Less(a, n))
    && (forall n :: IsTargetOnly(s, t, n) && Signature(t.columns[n]) == Signature(t.columns[b]) ==>
          n == b || Less(n, b))
  }

  lemma LookupSeparates(t: TableDef, names: seq<string>)
    requires StrictlySorted(names) && forall n :: n in names ==> n in t.columns
    ensures Separates(BySignature(t, names))
  {
    var m := BySignature(t, names);
    forall x, y | x in m && y in m && m[x] == m[y] ensures x == y {
      BySignatureLast(t, names, x);
      BySignatureLast(t, names, y);
    }
  }

  /** The renames are exactly those pairs. */
  lemma RenamesExact(s: TableDef, t: TableDef, a: string, b: string)
    ensures (a, b) in Renames(s, t) <==> IsRename(s, t, a, b)
  {
    var sources, targets := SourceOnly(s, t), TargetOnly(s, t);
    var bySig := BySignature(t, targets);
    LookupSeparates(t, targets);
    MatchesExact(s, sources, bySig);
    if a in s.columns {
      var sig := Signature(s.columns[a]);
      BySignatureLast(t, targets, sig);
      assert forall n :: HasSignature(s, sources, sig, n) <==>
        IsSourceOnly(s, t, n) && Signature(s.columns[n]) == sig;
      assert forall n :: HasSignature(t, targets, sig, n) <==>
        IsTargetOnly(s, t, n) && Signature(t.columns[n]) == sig;
      if IsRename(s, t, a, b) {
        assert HasSignature(t, targets, sig, b);
        var c := bySig[sig];
        if c != b { LessAsymmetric(b, c); }
      }
    }
  }

  lemma RenameTaken(s: TableDef, t: TableDef, n: string)
    ensures SourceTaken(Renames(s, t), n) <==> exists b :: IsRename(s, t, n, b)
    ensures TargetTaken(Renames(s, t), n) <==> exists a :: IsRename(s, t, a, n)
  {
    var pairs := Renames(s, t);
    forall a, b ensures (a, b) in pairs <==> IsRename(s, t, a, b) { RenamesExact(s, t, a, b); }
    if SourceTaken(pairs, n) {
      var i :| 0 <= i < |pairs| && pairs[i].0 == n;
      assert (n, pairs[i].1) in pairs;
    }
    if TargetTaken(pairs, n) {
      var i :| 0 <= i < |pairs| && pairs[i].1 == n;
      assert (pairs[i].0, n) in pairs;
    }
  }

  /** A source column is renamed to one column at most, and a target column taken once at most. */
  lemma RenamesInjective(s: TableDef, t: TableDef, a: string, b: string, c: string, d: string)
    requires IsRename(s, t, a, b) && IsRename(s, t, c, d)
    ensures a == c <==> b == d
  {
    if a == c && b != d { LessAsymmetric(b, d); }
    if b == d && a != c { LessAsymmetric(a, c); }
  }

  /** Every signature that occurs on both sides gives exactly one rename. */
  lemma OneRenamePerSignature(s: TableDef, t: TableDef, x: string, y: string) returns (a: string, b: string)
    requires IsSourceOnly(s, t, x) && IsTargetOnly(s, t, y)
    requires Signature(s.columns[x]) == Signature(t.columns[y])
    ensures IsRename(s, t, a, b) && Signature(s.columns[a]) == Signature(s.columns[x])
    ensures forall c, d :: IsRename(s, t, c, d) && Signature(s.columns[c]) == Signature(s.columns[x]) ==>
      c == a && d == b
  {
    var sig := Signature(s.columns[x]);
    var sources := set n | n in s.columns && IsSourceOnly(s, t, n) && Signature(s.columns[n]) == sig;
    assert x in sources;
    a := Least(sources);
    var targets := TargetOnly(s, t);
    BySignatureLast(t, targets, sig);
    assert HasSignature(t, targets, sig, y);
    b := BySignature(t, targets)[sig];
    forall n | IsTargetOnly(s, t, n) && Signature(t.columns[n]) == sig ensures n == b || Less(n, b) {
      assert HasSignature(t, targets, sig, n);
    }
    assert IsRename(s, t, a, b);
    forall c, d | IsRename(s, t, c, d) && Signature(s.columns[c]) == sig ensures c == a && d == b {
      if c != a { LessAsymmetric(a, c); }
      RenamesInjective(s, t, a, b, c, d);
    }
  }
}
