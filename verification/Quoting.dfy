/** Quoted identifiers, and that reading them back as section 4.1.1 of the PostgreSQL manual
    describes delimited identifiers recovers the names. */
module Quoting {
  import opened Catalog

  // ----- writing

  /** Every double quote doubled. */
  function Doubled(s: string): string {
    if s == [] then []
    else (if s[0] == '"' then ['"', '"'] else [s[0]]) + Doubled(s[1..])
  }

  function QuoteIdentifier(name: string): string {
    ['"'] + Doubled(name) + ['"']
  }

  function QuoteQualifiedIdentifier(schema: string, name: string): string {
    QuoteIdentifier(schema) + "." + QuoteIdentifier(name)
  }

  /** The quoted names, separated by a comma and a space. */
  function Joined(items: seq<string>): string {
    if items == [] then ""
    else if |items| == 1 then QuoteIdentifier(items[0])
    else QuoteIdentifier(items[0]) + ", " + Joined(items[1..])
  }

  function Join(items: seq<string>): string {
    if items == [] then ""
    else if |items| == 1 then items[0]
    else items[0] + ", " + Join(items[1..])
  }

  lemma {:induction false} JoinQuoted(items: seq<string>, quoted: seq<string>)
    requires |quoted| == |items| && forall i :: 0 <= i < |items| ==> quoted[i] == QuoteIdentifier(items[i])
    ensures Join(quoted) == Joined(items)
  {
    if |items| > 1 { JoinQuoted(items[1..], quoted[1..]); }
  }

  method QuoteIdentifierList(items: seq<string>) returns (r: string)
    ensures r == Joined(items)
    ensures ReadList(r) == Some(items)
  {
    var quoted: seq<string> := [];
    for i := 0 to |items|
      invariant |quoted| == i && forall k :: 0 <= k < i ==> quoted[k] == QuoteIdentifier(items[k])
    {
      quoted := quoted + [QuoteIdentifier(items[i])];
    }
    r := Join(quoted);
    JoinQuoted(items, quoted);
    ListRoundTrip(items);
  }

  // ----- reading

  /** A name and what follows it. */
  datatype Read = Read(name: string, rest: string)

  /** The rest of a delimited identifier: a doubled quote stands for a quote, a single one ends it. */
  function ReadBody(s: string): Option<Read>
    decreases |s|
  {
    if s == [] then None
    else if s[0] != '"' then
      match ReadBody(s[1..])
      case None => None
      case Some(r) => Some(Read([s[0]] + r.name, r.rest))
    else if |s| > 1 && s[1] == '"' then
      match ReadBody(s[2..])
      case None => None
      case Some(r) => Some(Read(['"'] + r.name, r.rest))
    else Some(Read([], s[1..]))
  }

  function ReadIdentifier(s: string): Option<Read> {
    if s != [] && s[0] == '"' then ReadBody(s[1..]) else None
  }

  function ReadQualified(s: string): Option<(string, string)> {
    match ReadIdentifier(s)
    case None => None
    case Some(a) =>
      if a.rest == [] || a.rest[0] != '.' then None else
      match ReadIdentifier(a.rest[1..])
      case None => None
      case Some(b) => if b.rest == [] then Some((a.name, b.name)) else None
  }

  lemma {:induction false} ReadBodyShrinks(s: string)
    ensures ReadBody(s).Some? ==> |ReadBody(s).value.rest| < |s|
    decreases |s|
  {
    if s != [] {
      if s[0] != '"' { ReadBodyShrinks(s[1..]); }
      else if |s| > 1 && s[1] == '"' { ReadBodyShrinks(s[2..]); }
    }
  }

  function SkipSpaces(s: string): (r: string)
    ensures |r| <= |s|
  {
    if s != [] && s[0] == ' ' then SkipSpaces(s[1..]) else s
  }

  /** One or more identifiers separated by commas, with spaces allowed after a comma. */
  function ReadItems(s: string): Option<seq<string>>
    decreases |s|
  {
    match ReadIdentifier(s)
    case None => None
    case Some(a) =>
      if a.rest == [] then Some([a.name])
      else if a.rest[0] != ',' then None
      else
        ReadBodyShrinks(s[1..]);
        match ReadItems(SkipSpaces(a.rest[1..]))
        case None => None
        case Some(items) => Some([a.name] + items)
  }

  function ReadList(s: string): Option<seq<string>> {
    if s == [] then Some([]) else ReadItems(s)
  }

  // ----- reading what was written

  lemma ReadsQuote(tail: string)
    ensures ReadBody(['"', '"'] + tail) ==
      match ReadBody(tail) case None => None case Some(r) => Some(Read(['"'] + r.name, r.rest))
  {
    assert (['"', '"'] + tail)[2..] == tail;
  }

  lemma ReadsOther(c: char, tail: string)
    requires c != '"'
    ensures ReadBody([c] + tail) ==
      match ReadBody(tail) case None => None case Some(r) => Some(Read([c] + r.name, r.rest))
  {
    assert ([c] + tail)[1..] == tail;
  }

  lemma {:induction false} BodyRoundTrip(name: string, rest: string)
    requires rest == [] || rest[0] != '"'
    ensures ReadBody(Doubled(name) + ['"'] + rest) == Some(Read(name, rest))
  {
    var s := Doubled(name) + ['"'] + rest;
    if name == [] {
      assert s == ['"'] + rest;
      assert s[1..] == rest;
    } else {
      hide ReadBody;
      BodyRoundTrip(name[1..], rest);
      var tail := Doubled(name[1..]) + ['"'] + rest;
      if name[0] == '"' {
        assert s == ['"', '"'] + tail;
        ReadsQuote(tail);
      } else {
        assert s == [name[0]] + tail;
        ReadsOther(name[0], tail);
      }
      assert [name[0]] + name[1..] == name;
    }
  }

  /** Any name is recovered, whatever characters it has, together with what follows it. */
  lemma IdentifierRoundTrip(name: string, rest: string)
    requires rest == [] || rest[0] != '"'
    ensures ReadIdentifier(QuoteIdentifier(name) + rest) == Some(Read(name, rest))
  {
    var s := QuoteIdentifier(name) + rest;
    assert s[1..] == Doubled(name) + ['"'] + rest;
    BodyRoundTrip(name, rest);
  }

  lemma QualifiedRoundTrip(schema: string, name: string)
    ensures ReadQualified(QuoteQualifiedIdentifier(schema, name)) == Some((schema, name))
  {
    var rest := "." + QuoteIdentifier(name);
    assert QuoteQualifiedIdentifier(schema, name) == QuoteIdentifier(schema) + rest;
    IdentifierRoundTrip(schema, rest);
    assert rest[1..] == QuoteIdentifier(name) + [];
    IdentifierRoundTrip(name, []);
  }

  lemma {:induction false} ItemsRoundTrip(items: seq<string>)
    requires items != []
    ensures ReadItems(Joined(items)) == Some(items)
  {
    if |items| == 1 {
      assert Joined(items) == QuoteIdentifier(items[0]) + [];
      IdentifierRoundTrip(items[0], []);
      assert items == [items[0]];
    } else {
      var tail := Joined(items[1..]);
      var rest := ", " + tail;
      assert Joined(items) == QuoteIdentifier(items[0]) + rest;
      IdentifierRoundTrip(items[0], rest);
      assert rest[1..] == " " + tail && (" " + tail)[1..] == tail;
      assert tail[0] == '"';
      assert SkipSpaces(rest[1..]) == tail;
      ItemsRoundTrip(items[1..]);
      assert items == [items[0]] + items[1..];
    }
  }

  /** The whole list is recovered, the empty one included. */
  lemma ListRoundTrip(items: seq<string>)
    ensures ReadList(Joined(items)) == Some(items)
  {
    if items != [] {
      ItemsRoundTrip(items);
      assert Joined(items)[0] == '"';
    }
  }

  /** Different names, pairs or lists are never written alike. */
  lemma QuotingIsInjective(a: string, b: string, c: string, d: string, xs: seq<string>, ys: seq<string>)
    ensures QuoteIdentifier(a) == QuoteIdentifier(b) ==> a == b
    ensures QuoteQualifiedIdentifier(a, c) == QuoteQualifiedIdentifier(b, d) ==> a == b && c == d
    ensures Joined(xs) == Joined(ys) ==> xs == ys
  {
    IdentifierRoundTrip(a, []);
    IdentifierRoundTrip(b, []);
    assert QuoteIdentifier(a) + [] == QuoteIdentifier(a) && QuoteIdentifier(b) + [] == QuoteIdentifier(b);
    QualifiedRoundTrip(a, c);
    QualifiedRoundTrip(b, d);
    ListRoundTrip(xs);
    ListRoundTrip(ys);
  }
}
