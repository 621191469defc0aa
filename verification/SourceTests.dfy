/** Pattern tests on a whole text, decided part by part. */
module SourceTests {
  import opened Wrappers
  import opened SolidityText
  import opened Patterns
  import opened FunctionHeads
  import opened Insertions
  import opened FunctionBodies
  import opened SourceParts

  // ---- Patterns without braces or the letter f ----

  /** No match crosses the start or the end of a function. */
  ghost predicate Passive(p: Pattern) {
    Valid(p) && forall c :: Stops(c) ==> !Uses(p, c) && !IsSpace(c)
  }

  ghost predicate FoundIn(p: Pattern, part: Part) {
    match part
    case Outside(x) => Found(p, x)
    case Declared(_, header, body) => Found(p, header) || Found(p, body)
  }

  ghost predicate FoundParts(p: Pattern, parts: seq<Part>) {
    exists i :: 0 <= i < |parts| && FoundIn(p, parts[i])
  }

  lemma FoundSplit(p: Pattern, x: string, rest: string)
    requires Valid(p) && (rest == "" || (!Uses(p, rest[0]) && !IsSpace(rest[0])))
    ensures Found(p, x + rest) <==> Found(p, x) || Found(p, rest)
  {
    hide At, Uses, Found;
    if Found(p, x) {
      FoundWithin(p, "", x, rest);
      assert "" + x + rest == x + rest;
    }
    if Found(p, rest) {
      FoundWithin(p, x, rest, "");
      assert x + rest + "" == x + rest;
    }
    if Found(p, x + rest) && rest != "" {
      var c, r := rest[0], rest[1..];
      assert rest == [c] + r;
      assert x + [c] + r == x + rest;
      assert [c] + r + "" == rest;
      FoundAcross(p, x, c, r);
      if Found(p, r) {
        FoundWithin(p, [c], r, "");
      }
    } else if Found(p, x + rest) {
      assert x + rest == x;
    }
  }

  lemma EmptyHasNone(p: Pattern)
    requires Valid(p)
    ensures !Found(p, "")
  {
    TooShort(p, "");
  }

  lemma FoundInFunction(p: Pattern, d: Part, rest: string)
    requires Passive(p) && d.Declared? && PartOk(d)
    ensures Found(p, Text(d) + rest) <==> FoundIn(p, d) || Found(p, rest)
  {
    hide At, Uses, Found, HeaderAt, Balanced;
    HeaderHasShape(d.header);
    assert Stops('{') && Stops('}');
    var h := d.header[..|d.header| - 1];
    assert d.header == h + "{" && Text(d) + rest == h + ("{" + (d.body + ("}" + rest)));
    FoundSplit(p, h, "{" + (d.body + ("}" + rest)));
    FoundSplit(p, "", "{" + (d.body + ("}" + rest)));
    StartsBehind(p, '{', d.body + ("}" + rest));
    FoundSplit(p, d.body, "}" + rest);
    StartsBehind(p, '}', rest);
    FoundSplit(p, h, "{");
    StartsBehind(p, '{', "");
    EmptyHasNone(p);
    assert "{" + "" == "{";
  }

  lemma StartsBehind(p: Pattern, c: char, rest: string)
    requires Valid(p) && !Uses(p, c) && !IsSpace(c)
    ensures Found(p, [c] + rest) <==> Found(p, rest)
  {
    hide At, Uses, Found;
    if Found(p, [c] + rest) {
      assert "" + [c] + rest == [c] + rest;
      FoundAcross(p, "", c, rest);
      EmptyHasNone(p);
    }
    if Found(p, rest) {
      FoundWithin(p, [c], rest, "");
      assert [c] + rest + "" == [c] + rest;
    }
  }

  lemma RenderIsDelimited(parts: seq<Part>)
    requires WellFormed(parts) && parts != [] && parts[0].Outside?
    ensures Delimited(Render(parts[1..]))
  {
    hide At, HeaderAt, Found;
    Tail(parts);
    if parts[1..] != [] {
      Tail(parts[1..]);
      var d := parts[1];
      HeaderScanned(d.header);
      assert d.header[0] == FUNCTION[0];
      assert Render(parts[1..]) == Text(d) + Render(parts[1..][1..]);
    }
  }

  /** A passive pattern is found in the text exactly when it is found in a part. */
  lemma {:induction false} FoundInRender(p: Pattern, parts: seq<Part>)
    requires Passive(p) && WellFormed(parts)
    ensures Found(p, Render(parts)) <==> FoundParts(p, parts)
  {
    hide At, Found, WellFormed, PartOk;
    if parts == [] {
      EmptyHasNone(p);
    } else {
      Tail(parts);
      var rest := parts[1..];
      FoundInRender(p, rest);
      if parts[0].Outside? {
        RenderIsDelimited(parts);
        FoundSplit(p, parts[0].text, Render(rest));
      } else {
        FoundInFunction(p, parts[0], Render(rest));
      }
      FoundHeadTail(p, parts);
    }
  }

  lemma FoundHeadTail(p: Pattern, parts: seq<Part>)
    requires parts != []
    ensures FoundParts(p, parts) <==> FoundIn(p, parts[0]) || FoundParts(p, parts[1..])
  {
    hide FoundIn;
    if FoundParts(p, parts[1..]) {
      var i :| 0 <= i < |parts[1..]| && FoundIn(p, parts[1..][i]);
      assert parts[i + 1] == parts[1..][i];
    }
    if FoundParts(p, parts) && !FoundIn(p, parts[0]) {
      var i :| 0 <= i < |parts| && FoundIn(p, parts[i]);
      assert parts[1..][i - 1] == parts[i];
    }
  }

  // ---- Tests that start with a function head ----

  ghost predicate Somewhere(q: string -> bool, t: string) {
    exists i :: 0 <= i <= |t| && q(t[i..])
  }

  /** The test reads a head, and of a header nothing behind its brace. */
  ghost predicate HeadTest(q: string -> bool) {
    && (forall t :: q(t) ==> At(HEAD, t).Some?)
    && (forall name, header, rest :: HeaderOk(name, header) ==> (q(header + rest) <==> q(header)))
  }

  ghost predicate SomeHeader(q: string -> bool, parts: seq<Part>) {
    exists i :: 0 <= i < |parts| && parts[i].Declared? && q(parts[i].header)
  }

  lemma {:induction false} SomewhereBehind(q: string -> bool, x: string, rest: string)
    requires HeadTest(q) && NoHeadFrom(x, rest)
    ensures Somewhere(q, x + rest) <==> Somewhere(q, rest)
  {
    hide At, HeaderOk;
    var t := x + rest;
    assert forall i :: 0 <= i < |x| ==> t[i..] == x[i..] + rest;
    if Somewhere(q, t) {
      var i :| 0 <= i <= |t| && q(t[i..]);
      assert t[i..] == rest[i - |x|..];
    }
    if Somewhere(q, rest) {
      var i :| 0 <= i <= |rest| && q(rest[i..]);
      assert t[|x| + i..] == rest[i..];
    }
  }

  lemma SomewhereInFunction(q: string -> bool, d: Part, rest: string)
    requires HeadTest(q) && d.Declared? && PartOk(d)
    ensures Somewhere(q, Text(d) + rest) <==> q(d.header) || Somewhere(q, rest)
  {
    hide At, HeaderAt, NoHeadFrom, Balanced, Found;
    var behind := d.body + "}" + rest;
    var t := d.header + behind;
    assert Text(d) + rest == t;
    NoHeadInHeader(d.name, d.header, behind);
    NoHeadInBody(d.body, rest);
    SomewhereBehind(q, d.body + "}", rest);
    SomewhereBehind(q, d.header[1..], behind);
    assert t[0..] == t && t[1..] == d.header[1..] + behind;
    SomewhereFirst(q, t);
  }

  lemma SomewhereFirst(q: string -> bool, t: string)
    requires t != ""
    ensures Somewhere(q, t) <==> q(t) || Somewhere(q, t[1..])
  {
    assert t[0..] == t;
    if Somewhere(q, t[1..]) {
      var i :| 0 <= i <= |t[1..]| && q(t[1..][i..]);
      assert t[1..][i..] == t[i + 1..];
    }
    if Somewhere(q, t) && !q(t) {
      var i :| 0 <= i <= |t| && q(t[i..]);
      assert t[1..][i - 1..] == t[i..];
    }
  }

  /** Such a test succeeds on the text exactly when it succeeds on a header. */
  lemma {:induction false} SomewhereInRender(q: string -> bool, parts: seq<Part>)
    requires HeadTest(q) && WellFormed(parts)
    ensures Somewhere(q, Render(parts)) <==> SomeHeader(q, parts)
  {
    hide At, HeadTest, WellFormed, PartOk, NoHeadFrom;
    if parts == [] {
      if Somewhere(q, "") {
        assert q("") by { assert ""[0..] == ""; }
        NoHeadInNothing(q);
      }
    } else {
      Tail(parts);
      var rest := parts[1..];
      SomewhereInRender(q, rest);
      if parts[0].Outside? {
        NoHeadOutside(parts);
        SomewhereBehind(q, parts[0].text, Render(rest));
      } else {
        SomewhereInFunction(q, parts[0], Render(rest));
      }
      SomeHeaderTail(q, parts);
    }
  }

  lemma NoHeadInNothing(q: string -> bool)
    requires HeadTest(q)
    ensures !q("")
  {
    hide HeaderOk;
  }

  lemma SomeHeaderTail(q: string -> bool, parts: seq<Part>)
    requires parts != []
    ensures SomeHeader(q, parts) <==> (parts[0].Declared? && q(parts[0].header)) || SomeHeader(q, parts[1..])
  {
    if SomeHeader(q, parts[1..]) {
      var i :| 0 <= i < |parts[1..]| && parts[1..][i].Declared? && q(parts[1..][i].header);
      assert parts[i + 1] == parts[1..][i];
    }
    if SomeHeader(q, parts) {
      var i :| 0 <= i < |parts| && parts[i].Declared? && q(parts[i].header);
      assert i > 0 ==> parts[1..][i - 1] == parts[i];
    }
  }

  // ---- The tests for a function by name ----

  /** A pattern that starts with a head and has no braces reads only the header. */
  lemma HeaderDecides(p: Pattern, name: string, header: string, rest: string)
    requires Valid(p) && !Uses(p, '{') && HeaderOk(name, header)
    ensures At(p, header + rest) == At(p, header)
  {
    hide At, HeaderAt, Uses, Found;
    HeaderHasShape(header);
    var h := header[..|header| - 1];
    assert header == h + "{" && header + rest == h + ("{" + rest);
    AtInContext(p, h, "{" + rest);
    AtInContext(p, h, "{");
  }

  lemma NamedIsHeadTest(name: string)
    requires IsName(name)
    ensures HeadTest(t => At(Named(name), t).Some?)
  {
    hide At, Uses, HeaderOk;
    var q := t => At(Named(name), t).Some?;
    NamedIsValid(name);
    forall t | q(t)
      ensures At(HEAD, t).Some?
    {
      NamedIsHead(name, t);
    }
    assert !Uses(Named(name), '{') by {
      UsesTwo(Named(name), Piece(true, Literal(name)), PARENTHESIS, '{');
      NamesHaveNoBrace(name);
    }
    forall n, header, rest | HeaderOk(n, header)
      ensures q(header + rest) <==> q(header)
    {
      HeaderDecides(Named(name), n, header, rest);
    }
  }

  lemma NamesHaveNoBrace(name: string)
    requires IsName(name)
    ensures '{' !in name && '{' !in FUNCTION && !WordUses(PARENTHESIS.word, '{')
  {
  }

  lemma NameDecides(name: string, n: string, header: string)
    requires IsName(name) && HeaderOk(n, header)
    ensures At(Named(name), header).Some? <==> n == name
  {
    hide At, HeaderAt, Found;
    HeaderIsHead(header);
    if At(Named(name), header).Some? {
      NamedIsHead(name, header);
    }
  }

  /** `/function\s+name\s*\(/` finds a function exactly when the parts declare one. */
  lemma FunctionTest(name: string, parts: seq<Part>)
    requires IsName(name) && WellFormed(parts)
    ensures Somewhere(t => At(Named(name), t).Some?, Render(parts)) <==> BodyIn(parts, name).Some?
  {
    hide At, HeadTest;
    var q := t => At(Named(name), t).Some?;
    NamedIsHeadTest(name);
    SomewhereInRender(q, parts);
    HeaderOfName(name, parts);
  }

  lemma {:induction false} HeaderOfName(name: string, parts: seq<Part>)
    requires IsName(name) && WellFormed(parts)
    ensures SomeHeader(t => At(Named(name), t).Some?, parts) <==> BodyIn(parts, name).Some?
  {
    hide At, WellFormed, HeaderOk;
    if parts != [] {
      Tail(parts);
      HeaderOfName(name, parts[1..]);
      SomeHeaderTail(t => At(Named(name), t).Some?, parts);
      if parts[0].Declared? {
        NameDecides(name, parts[0].name, parts[0].header);
      }
    }
  }
}
