/**
 * Well-formed source as parts: text outside functions, and declared functions with balanced bodies. Reading,
 * replacing, testing and inserting on the text are the same operations on the parts.
 */
module SourceParts {
  import opened Wrappers
  import opened SolidityText
  import opened Patterns
  import opened FunctionHeads
  import opened Insertions
  import opened FunctionBodies

  datatype Part = Outside(text: string) | Declared(name: string, header: string, body: string)

  function Text(p: Part): string {
    match p
    case Outside(x) => x
    case Declared(_, header, body) => header + (body + "}")
  }

  function Render(parts: seq<Part>): string {
    if parts == [] then "" else Text(parts[0]) + Render(parts[1..])
  }

  /** The header is one match of the header pattern, of a declaration with a body, and starts no other head. */
  ghost predicate HeaderOk(name: string, header: string) {
    && HeaderAt(header).Some? && HeaderAt(header).value.length == |header| && HeaderAt(header).value.name == name
    && !Found(HEAD, header[1..])
    && ';' !in header && '}' !in header && '"' !in header && '{' !in header[..|header| - 1]
  }

  /** No function starts in the text, and descriptions opened in it are closed in it. */
  ghost predicate TextOk(x: string) {
    !Found(HEAD, x) && Quoted(x)
  }

  ghost predicate PartOk(p: Part) {
    match p
    case Outside(x) => TextOk(x)
    case Declared(name, header, body) => HeaderOk(name, header) && TextOk(body) && Balanced(body)
  }

  ghost predicate WellFormed(parts: seq<Part>) {
    && (forall i :: 0 <= i < |parts| ==> PartOk(parts[i]))
    && (forall i :: 0 < i < |parts| ==> parts[i - 1].Declared? || parts[i].Declared?)
  }

  lemma Tail(parts: seq<Part>)
    requires WellFormed(parts) && parts != []
    ensures WellFormed(parts[1..]) && PartOk(parts[0])
    ensures parts[0].Outside? && parts[1..] != [] ==> parts[1].Declared?
  {
  }

  // ---- Where heads start ----

  ghost predicate NoHeadFrom(x: string, rest: string) {
    forall i :: 0 <= i < |x| ==> At(HEAD, x[i..] + rest).None?
  }

  lemma BracesStopHeads(c: char)
    requires c == '{' || c == '}'
    ensures !Uses(HEAD, c) && !IsSpace(c)
  {
    UsesTwo(HEAD, Piece(true, Identifier), PARENTHESIS, c);
  }

  lemma NoHeadBefore(x: string, rest: string)
    requires !Found(HEAD, x) && (rest == "" || rest[0] == '{' || rest[0] == '}')
    ensures NoHeadFrom(x, rest)
  {
    hide At, Uses;
    HeadIsValid();
    if rest != "" {
      BracesStopHeads(rest[0]);
    }
    forall i | 0 <= i < |x|
      ensures At(HEAD, x[i..] + rest).None?
    {
      AtInContext(HEAD, x[i..], rest);
    }
  }

  lemma NoHeadBeforeHeader(x: string, header: string, rest: string)
    requires !Found(HEAD, x) && HeaderAt(header).Some?
    ensures NoHeadFrom(x, header + rest)
  {
    hide At, HeaderAt;
    forall i | 0 <= i < |x|
      ensures At(HEAD, x[i..] + (header + rest)).None?
    {
      NoHeadAcross(x[i..], header, rest);
      assert x[i..] + header + rest == x[i..] + (header + rest);
    }
  }

  lemma NoHeadInTwo(x: string, y: string, rest: string)
    requires NoHeadFrom(x, y + rest) && NoHeadFrom(y, rest)
    ensures NoHeadFrom(x + y, rest)
  {
    hide At;
    forall i | 0 <= i < |x + y|
      ensures At(HEAD, (x + y)[i..] + rest).None?
    {
      if i < |x| {
        assert (x + y)[i..] + rest == x[i..] + (y + rest);
      } else {
        assert (x + y)[i..] == y[i - |x|..];
      }
    }
  }

  lemma NoHeadAtBrace(c: char, rest: string)
    requires c == '{' || c == '}'
    ensures NoHeadFrom([c], rest)
  {
    var t := [c][0..] + rest;
    assert t[0] == c && FUNCTION[0] == 'f';
  }

  /** Behind its first character, a header starts no head, whatever follows its brace. */
  lemma NoHeadInHeader(name: string, header: string, rest: string)
    requires HeaderOk(name, header)
    ensures header != "" && NoHeadFrom(header[1..], rest)
  {
    hide At, HeaderAt, NoHeadFrom;
    HeaderHasShape(header);
    var inner := header[1..|header| - 1];
    assert header[1..] == inner + "{";
    assert "" + inner + "{" == header[1..];
    HeadIsValid();
    if Found(HEAD, inner) {
      FoundWithin(HEAD, "", inner, "{");
    }
    NoHeadBefore(inner, "{" + rest);
    NoHeadAtBrace('{', rest);
    NoHeadInTwo(inner, "{", rest);
  }

  lemma NoHeadInBody(body: string, rest: string)
    requires !Found(HEAD, body)
    ensures NoHeadFrom(body + "}", rest)
  {
    hide At, NoHeadFrom;
    NoHeadBefore(body, "}" + rest);
    NoHeadAtBrace('}', rest);
    NoHeadInTwo(body, "}", rest);
  }

  /** Text outside functions starts no head where it stands. */
  lemma NoHeadOutside(parts: seq<Part>)
    requires WellFormed(parts) && parts != [] && parts[0].Outside?
    ensures NoHeadFrom(parts[0].text, Render(parts[1..]))
  {
    hide At, NoHeadFrom;
    Tail(parts);
    var x, rest := parts[0].text, parts[1..];
    if rest == [] {
      NoHeadBefore(x, "");
    } else {
      Tail(rest);
      var d := rest[0];
      NoHeadBeforeHeader(x, d.header, d.body + "}" + Render(rest[1..]));
      assert d.header + (d.body + "}" + Render(rest[1..])) == Render(rest);
    }
  }

  // ---- Reading and replacing ----

  lemma {:induction false} SkipText(x: string, rest: string, name: string, b: string)
    requires NoHeadFrom(x, rest)
    ensures Chunks(x + rest) == Chunks(rest)
    ensures ReplaceFunctionBody(x + rest, name, b) == x + ReplaceFunctionBody(rest, name, b)
    decreases |x|
  {
    hide At, HeaderAt;
    if x == "" {
      assert x + rest == rest;
    } else {
      var t := x + rest;
      assert x[0..] + rest == t;
      if HeaderAt(t).Some? {
        HeaderIsHead(t);
      }
      assert t[1..] == x[1..] + rest;
      assert NoHeadFrom(x[1..], rest) by {
        assert forall i :: 0 <= i < |x[1..]| ==> x[1..][i..] == x[i + 1..];
      }
      SkipText(x[1..], rest, name, b);
      assert [x[0]] + x[1..] == x;
    }
  }

  function ChunksOf(parts: seq<Part>): seq<Chunk> {
    if parts == [] then []
    else (if parts[0].Declared? then [Chunk(parts[0].name, parts[0].header, parts[0].body)] else [])
         + ChunksOf(parts[1..])
  }

  /** The parts with the body of the first function of that name exchanged. */
  function WithBody(parts: seq<Part>, name: string, b: string): seq<Part> {
    if parts == [] then []
    else if parts[0].Declared? && parts[0].name == name then [parts[0].(body := b)] + parts[1..]
    else [parts[0]] + WithBody(parts[1..], name, b)
  }

  function BodyIn(parts: seq<Part>, name: string): Option<string> {
    if parts == [] then None
    else if parts[0].Declared? && parts[0].name == name then Some(parts[0].body)
    else BodyIn(parts[1..], name)
  }

  /** A function part read on its own, with anything behind it. */
  lemma DeclaredText(d: Part, rest: string)
    requires d.Declared? && PartOk(d)
    ensures var t := d.header + (d.body + "}" + rest);
            && HeaderAt(t) == HeaderAt(d.header)
            && t[..|d.header|] == d.header && t[|d.header|..] == d.body + "}" + rest
            && BodyOf(t[|d.header|..]) == d.body && FromClose(t, |d.header|) == "}" + rest
  {
    hide HeaderAt, Walk;
    var t := d.header + (d.body + "}" + rest);
    HeaderIsLocal(d.header, t, HeaderAt(d.header).value);
    var y := "}" + rest;
    assert d.body + "}" + rest == d.body + y;
    WalkPast(d.body, y, 1, 1);
    OneStep(rest);
    assert t[|d.header| + |d.body|..] == y;
  }

  lemma OneStep(rest: string)
    ensures Walk("}" + rest, 1) == 1
  {
    assert ("}" + rest)[1..] == rest;
  }

  lemma {:induction false} ChunksOfRender(parts: seq<Part>)
    requires WellFormed(parts)
    ensures Chunks(Render(parts)) == ChunksOf(parts)
  {
    hide At, HeaderAt, BodyOf, NoHeadFrom, WellFormed;
    if parts != [] {
      Tail(parts);
      var p, rest := parts[0], Render(parts[1..]);
      ChunksOfRender(parts[1..]);
      if p.Outside? {
        NoHeadOutside(parts);
        SkipText(p.text, rest, "", "");
      } else {
        ChunkOfFunction(p, rest);
      }
    }
  }

  lemma ChunkOfFunction(d: Part, rest: string)
    requires d.Declared? && PartOk(d)
    ensures Chunks(Text(d) + rest) == [Chunk(d.name, d.header, d.body)] + Chunks(rest)
  {
    hide At, HeaderAt, BodyOf, NoHeadFrom, Found, Quoted, Balanced;
    DeclaredText(d, rest);
    NoHeadInBody(d.body, rest);
    SkipText(d.body + "}", rest, "", "");
    assert Text(d) + rest == d.header + (d.body + "}" + rest);
  }

  lemma {:induction false} ReplaceInRender(parts: seq<Part>, name: string, b: string)
    requires WellFormed(parts)
    ensures ReplaceFunctionBody(Render(parts), name, b) == Render(WithBody(parts, name, b))
  {
    hide At, HeaderAt, NoHeadFrom, WellFormed, ReplaceFunctionBody, FromClose;
    if parts == [] {
      NothingToReplace(name, b);
    } else {
      Tail(parts);
      var p, rest := parts[0], Render(parts[1..]);
      ReplaceInRender(parts[1..], name, b);
      if p.Outside? {
        NoHeadOutside(parts);
        SkipText(p.text, rest, name, b);
      } else {
        assert Render(parts) == p.header + (p.body + "}" + rest);
        ReplaceInFunction(p, rest, name, b);
        var edited := p.(body := b);
        assert p.name == name ==> WithBody(parts, name, b)[1..] == parts[1..];
        assert p.name == name ==> Render(WithBody(parts, name, b)) == Text(edited) + rest;
        assert p.name != name ==> WithBody(parts, name, b)[1..] == WithBody(parts[1..], name, b);
      }
    }
  }

  lemma NothingToReplace(name: string, b: string)
    ensures ReplaceFunctionBody("", name, b) == ""
  {
  }

  lemma ReplaceInFunction(d: Part, rest: string, name: string, b: string)
    requires d.Declared? && PartOk(d)
    ensures ReplaceFunctionBody(d.header + (d.body + "}" + rest), name, b)
            == if d.name == name then d.header + (b + "}") + rest
               else d.header + (d.body + "}") + ReplaceFunctionBody(rest, name, b)
  {
    hide At, HeaderAt, NoHeadFrom, FromClose, Balanced, TextOk, Walk, BodyOf;
    var t := d.header + (d.body + "}" + rest);
    DeclaredText(d, rest);
    if d.name == name {
      assert ReplaceFunctionBody(t, name, b) == d.header + b + ("}" + rest);
    } else {
      NoHeadInHeader(d.name, d.header, d.body + "}" + rest);
      assert !Found(HEAD, d.body) by { assert TextOk(d.body); BodyHasNone(d.body); }
      NoHeadInBody(d.body, rest);
      SkipText(d.header[1..], d.body + "}" + rest, name, b);
      SkipText(d.body + "}", rest, name, b);
      assert t[1..] == d.header[1..] + (d.body + "}" + rest);
      assert [d.header[0]] + d.header[1..] == d.header;
    }
  }

  lemma BodyHasNone(x: string)
    requires TextOk(x)
    ensures !Found(HEAD, x)
  {
  }

  lemma {:induction false} FindInChunks(parts: seq<Part>, name: string)
    ensures FirstNamed(ChunksOf(parts), name) == BodyIn(parts, name)
  {
    if parts != [] {
      FindInChunks(parts[1..], name);
      var c := ChunksOf(parts);
      if parts[0].Declared? {
        assert c[1..] == ChunksOf(parts[1..]);
      } else {
        assert c == ChunksOf(parts[1..]);
      }
    }
  }

  /** Reading a function body of the text is reading it from the parts. */
  lemma FindInRender(parts: seq<Part>, name: string)
    requires WellFormed(parts)
    ensures FindFunctionBody(Render(parts), name) == BodyIn(parts, name)
  {
    ChunksOfRender(parts);
    FindInChunks(parts, name);
  }
}
