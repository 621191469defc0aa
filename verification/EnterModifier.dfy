/** The reentrancy modifier: the header of `enter` rewritten, in the text and in its part. */
module EnterModifier {
  import opened Wrappers
  import opened SolidityText
  import opened Patterns
  import opened FunctionHeads
  import opened Insertions
  import opened FunctionBodies
  import opened SourceParts
  import opened SourceTests
  import opened SourceEditing
  import opened SourceEdits
  import opened PatchTexts

  const ENTER := "enter"
  const EXTERNAL := Pattern(FUNCTION, [Piece(true, Literal(ENTER)), PARENTHESIS, Gap(")"), Gap("external")])
  const ALREADY := Pattern(FUNCTION, [Piece(true, Literal(ENTER)), PARENTHESIS, Gap(")"), Gap("external"),
                                      Piece(true, Literal("nonReentrant"))])

  /** `function\s+enter\s*\(\s*\)\s*external(?!\s+nonReentrant)`. */
  function ExternalAt(t: string): (r: Option<nat>)
    ensures r.Some? ==> r.value <= |t|
  {
    if At(ALREADY, t).Some? then None else At(EXTERNAL, t)
  }

  function AddModifier(t: string): string {
    if t == "" then ""
    else if ExternalAt(t).Some? then EnterHeader() + t[ExternalAt(t).value..]
    else [t[0]] + AddModifier(t[1..])
  }

  function NewHeader(header: string): string
    requires ExternalAt(header).Some?
  {
    EnterHeader() + header[ExternalAt(header).value..]
  }

  function ModifierParts(parts: seq<Part>): seq<Part> {
    if parts == [] then []
    else if parts[0].Declared? && ExternalAt(parts[0].header).Some? then
      [parts[0].(header := NewHeader(parts[0].header))] + parts[1..]
    else [parts[0]] + ModifierParts(parts[1..])
  }

  /** `\)\s*external\s+nonReentrant`, behind the parameters. */
  const MODIFIER := Pattern(")", [Gap("external"), Piece(true, Literal("nonReentrant"))])

  /** `function\s+enter\s*\([^)]*\)\s*external\s+nonReentrant`. */
  predicate NonReentrantAt(t: string) {
    At(Named(ENTER), t).Some? &&
    var close := Skip(t, At(Named(ENTER), t).value, NotClosing);
    close < |t| && At(MODIFIER, t[close..]).Some?
  }

  // ---- The patterns start with the head of enter ----

  lemma EnterIsName()
    ensures IsName(ENTER)
  {
  }

  lemma EnterPatternsAreValid()
    ensures Valid(EXTERNAL) && Valid(ALREADY) && Valid(MODIFIER)
  {
    hide Sane;
    LiteralsAreSane(EXTERNAL.rest);
    LiteralsAreSane(ALREADY.rest);
    LiteralsAreSane(MODIFIER.rest);
  }

  lemma EnterPatternsHaveNoBrace()
    ensures !Uses(EXTERNAL, '{') && !Uses(ALREADY, '{') && !Uses(MODIFIER, '{')
  {
  }

  lemma {:induction false} RestPrefix(ps: seq<Piece>, qs: seq<Piece>, t: string)
    requires RestAt(ps + qs, t).Some?
    ensures RestAt(ps, t).Some? && RestAt(ps, t).value <= RestAt(ps + qs, t).value
    decreases |ps|
  {
    hide PieceAt;
    if ps != [] {
      assert (ps + qs)[1..] == ps[1..] + qs;
      var k := PieceAt(ps[0], t).value;
      RestPrefix(ps[1..], qs, t[k..]);
    }
  }

  lemma ExternalIsEnter(t: string)
    requires At(EXTERNAL, t).Some?
    ensures At(Named(ENTER), t).Some? && At(HEAD, t).Some?
  {
    hide RestAt;
    assert EXTERNAL.rest == Named(ENTER).rest + [Gap(")"), Gap("external")];
    RestPrefix(Named(ENTER).rest, [Gap(")"), Gap("external")], t[|FUNCTION|..]);
    EnterIsName();
    NamedIsHead(ENTER, t);
  }

  lemma {:induction false} ModifyPast(x: string, rest: string)
    requires NoHeadFrom(x, rest)
    ensures AddModifier(x + rest) == x + AddModifier(rest)
  {
    hide At;
    if x == "" {
      assert x + rest == rest;
    } else {
      var t := x + rest;
      assert x[0..] + rest == t;
      if At(EXTERNAL, t).Some? {
        ExternalIsEnter(t);
      }
      assert t[1..] == x[1..] + rest;
      assert NoHeadFrom(x[1..], rest) by {
        assert forall i :: 0 <= i < |x[1..]| ==> x[1..][i..] == x[i + 1..];
      }
      ModifyPast(x[1..], rest);
      assert [x[0]] + x[1..] == x;
    }
  }

  lemma ExternalOfHeader(name: string, header: string, rest: string)
    requires HeaderOk(name, header)
    ensures ExternalAt(header + rest) == ExternalAt(header)
  {
    hide At, HeaderOk;
    EnterPatternsAreValid();
    EnterPatternsHaveNoBrace();
    HeaderDecides(EXTERNAL, name, header, rest);
    HeaderDecides(ALREADY, name, header, rest);
  }

  lemma ModifyFunction(d: Part, rest: string)
    requires d.Declared? && PartOk(d)
    ensures AddModifier(Text(d) + rest)
            == match ExternalAt(d.header)
               case Some(_) => NewHeader(d.header) + (d.body + "}") + rest
               case None => Text(d) + AddModifier(rest)
  {
    hide HeaderOk, TextOk, Balanced, ExternalAt, EnterHeader, AddModifier;
    var inside := d.body + "}" + rest;
    assert Text(d) + rest == d.header + inside;
    ExternalOfHeader(d.name, d.header, inside);
    if ExternalAt(d.header).Some? {
      var n := ExternalAt(d.header).value;
      HeaderBraces(d.name, d.header);
      ModifyHere(d.header, inside);
      assert EnterHeader() + (d.header[n..] + inside) == NewHeader(d.header) + (d.body + "}") + rest;
    } else {
      ModifyBehind(d, rest);
    }
  }

  lemma ModifyHere(header: string, inside: string)
    requires header != "" && ExternalAt(header + inside).Some? && ExternalAt(header + inside).value <= |header|
    ensures var n := ExternalAt(header + inside).value;
            AddModifier(header + inside) == EnterHeader() + (header[n..] + inside)
  {
    hide At, ExternalAt, EnterHeader;
    var n := ExternalAt(header + inside).value;
    assert (header + inside)[n..] == header[n..] + inside;
  }

  lemma ModifyBehind(d: Part, rest: string)
    requires d.Declared? && PartOk(d) && ExternalAt(d.header + (d.body + "}" + rest)).None?
    ensures AddModifier(d.header + (d.body + "}" + rest)) == Text(d) + AddModifier(rest)
  {
    hide At, HeaderAt, NoHeadFrom, Balanced, Found, ExternalAt, EnterHeader;
    var inside := d.body + "}" + rest;
    var t := d.header + inside;
    NoHeadInHeader(d.name, d.header, inside);
    NoHeadInBody(d.body, rest);
    ModifyPast(d.header[1..], inside);
    ModifyPast(d.body + "}", rest);
    assert t[1..] == d.header[1..] + inside;
    ModifyStep(t);
    hide AddModifier;
    BehindHeader(d.header, d.body + "}", AddModifier(rest));
  }

  lemma ModifyStep(t: string)
    requires t != "" && ExternalAt(t).None?
    ensures AddModifier(t) == [t[0]] + AddModifier(t[1..])
  {
    hide ExternalAt;
  }

  lemma BehindHeader(header: string, body: string, rest: string)
    requires header != ""
    ensures [header[0]] + (header[1..] + (body + rest)) == header + body + rest
  {
  }

  lemma {:induction false} ModifyRender(parts: seq<Part>)
    requires WellFormed(parts)
    ensures AddModifier(Render(parts)) == Render(ModifierParts(parts))
  {
    hide WellFormed, PartOk, NoHeadFrom, ExternalAt, EnterHeader;
    if parts != [] {
      hide AddModifier;
      Tail(parts);
      var p, rest := parts[0], Render(parts[1..]);
      ModifyRender(parts[1..]);
      if p.Outside? {
        NoHeadOutside(parts);
        ModifyPast(p.text, rest);
      } else {
        ModifyFunction(p, rest);
      }
      RenderModified(parts);
    }
  }

  lemma RenderModified(parts: seq<Part>)
    requires parts != []
    ensures var p := parts[0];
            Render(ModifierParts(parts))
            == if p.Declared? && ExternalAt(p.header).Some? then
                 NewHeader(p.header) + (p.body + "}") + Render(parts[1..])
               else Text(p) + Render(ModifierParts(parts[1..]))
  {
    hide ExternalAt, NewHeader;
    var q := ModifierParts(parts);
    if parts[0].Declared? && ExternalAt(parts[0].header).Some? {
      assert q[1..] == parts[1..];
    } else {
      assert q[1..] == ModifierParts(parts[1..]);
    }
  }

  // ---- The rewritten header ----

  lemma EnterHeaderLetters()
    ensures var e := EnterHeader();
            |e| == 38 && forall i :: 0 <= i < |e| ==> e[i] != '{' && e[i] != '}' && e[i] != ';' && e[i] != '"'
  {
  }

  lemma EnterHeaderOnce()
    ensures forall i :: 0 < i < |EnterHeader()| ==> EnterHeader()[i] != 'f'
  {
  }

  /** What is left of the old header: text without braces, up to its opening brace. */
  ghost predicate HeaderRest(x: string) {
    && x != "" && x[|x| - 1] == '{' && !Found(HEAD, x)
    && (forall i :: 0 <= i < |x| - 1 ==> x[i] != '{')
    && ';' !in x && '}' !in x && '"' !in x
  }

  lemma RestOfHeader(name: string, header: string)
    requires HeaderOk(name, header) && ExternalAt(header).Some?
    ensures name == ENTER && 0 < ExternalAt(header).value && HeaderRest(header[ExternalAt(header).value..])
  {
    hide At, HeaderAt, Found;
    var n := ExternalAt(header).value;
    EnterPatternsAreValid();
    EnterPatternsHaveNoBrace();
    ExternalIsEnter(header);
    EnterIsName();
    NameDecides(ENTER, name, header);
    HeaderBraces(name, header);
    if n == |header| {
      AtUses(EXTERNAL, header, n - 1);
    }
    AtEnds(EXTERNAL, header);
    var x := header[n..];
    assert header[1..] == header[1..n] + x + "";
    HeadIsValid();
    if Found(HEAD, x) {
      FoundWithin(HEAD, header[1..n], x, "");
    }
  }

  lemma HeaderBraces(name: string, header: string)
    requires HeaderOk(name, header)
    ensures header != "" && header[|header| - 1] == '{' && forall i :: 0 <= i < |header| - 1 ==> header[i] != '{'
  {
    hide HeaderAt, Found;
    HeaderHasShape(header);
    assert forall i :: 0 <= i < |header| - 1 ==> header[i] in header[..|header| - 1];
  }

  lemma NewHeaderScan(x: string)
    requires HeaderRest(x)
    ensures HeaderAt(EnterHeader() + x) == Some(Header(ENTER, 14, 15, |EnterHeader() + x|))
  {
    hide Skip, HeaderAt, Found;
    var t := EnterHeader() + x;
    EnterHeaderLetters();
    EnterPositions(x);
    SkipIs(t, 16, NotOpeningBrace, |t| - 1);
    ScannedIsMatch(t, 9, 14, Header(ENTER, 14, 15, |t|));
  }

  lemma EnterPositions(x: string)
    ensures var t := EnterHeader() + x;
            && FUNCTION <= t && t[9..14] == ENTER && t[14] == '(' && t[15] == ')'
            && Skip(t, 8, IsSpace) == 9 && Skip(t, 9, IsWord) == 14 && Skip(t, 14, IsSpace) == 14
            && Skip(t, 15, NotClosing) == 15
  {
    hide Skip;
    var y := ") external nonReentrant" + x;
    assert EnterHeader() + x == "function enter(" + y;
    EnterOpens(y);
  }

  lemma EnterOpens(y: string)
    requires y != "" && y[0] == ')'
    ensures var t := "function enter(" + y;
            && FUNCTION <= t && t[9..14] == ENTER && t[14] == '(' && t[15] == ')'
            && Skip(t, 8, IsSpace) == 9 && Skip(t, 9, IsWord) == 14 && Skip(t, 14, IsSpace) == 14
            && Skip(t, 15, NotClosing) == 15
  {
    hide Skip;
    var e := "function enter(";
    var t := e + y;
    assert e[..8] == FUNCTION && e[9..14] == ENTER && e[8] == ' ' && e[14] == '(';
    assert t[..8] == e[..8] && t[9..14] == e[9..14];
    assert forall k :: 9 <= k < 14 ==> t[k] == ENTER[k - 9] && ENTER[k - 9] in ENTER;
    EnterIsName();
    SkipIs(t, 8, IsSpace, 9);
    SkipIs(t, 9, IsWord, 14);
    SkipIs(t, 14, IsSpace, 14);
    SkipIs(t, 15, NotClosing, 15);
  }

  /** The rewritten header is a header of `enter` again, and it has the modifier. */
  lemma NewHeaderOk(x: string)
    requires HeaderRest(x)
    ensures HeaderOk(ENTER, EnterHeader() + x) && NonReentrantAt(EnterHeader() + x)
  {
    hide HeaderAt, At, EnterHeader, Found;
    var t := EnterHeader() + x;
    NewHeaderScan(x);
    EnterHeaderLetters();
    EnterHeaderOnce();
    HeadIsValid();
    var y := EnterHeader()[1..];
    assert t[1..] == y + x;
    if Found(HEAD, t[1..]) {
      FoundAfter(HEAD, y, x);
    }
    assert t[..|t| - 1] == EnterHeader() + x[..|x| - 1];
    NewHeaderHasModifier(x);
  }

  lemma NewHeaderHasModifier(x: string)
    requires HeaderRest(x)
    ensures NonReentrantAt(EnterHeader() + x)
  {
    hide HeaderAt, Found;
    var t := EnterHeader() + x;
    NewHeaderScan(x);
    HeaderIsHead(t);
    EnterPositions(x);
    ModifierMatches(x);
  }

  lemma ModifierMatches(x: string)
    ensures At(MODIFIER, (EnterHeader() + x)[15..]).Some?
  {
    hide PieceAt, RestAt;
    var v := " external nonReentrant" + x;
    ModifierText(x);
    assert (")" + v)[1..] == v;
    ExternalPiece(x);
    NonReentrantPiece(x);
    assert v[9..] == " nonReentrant" + x;
    TwoPieces(Gap("external"), Piece(true, Literal("nonReentrant")), v, 9, 13);
  }

  lemma ModifierText(x: string)
    ensures |EnterHeader()| > 15 && (EnterHeader() + x)[15..] == ")" + (" external nonReentrant" + x)
  {
    assert EnterHeader() == "function enter(" + (")" + " external nonReentrant");
    assert |"function enter("| == 15;
    assert (EnterHeader() + x)[15..] == EnterHeader()[15..] + x;
  }

  lemma ExternalPiece(x: string)
    ensures PieceAt(Gap("external"), " external nonReentrant" + x) == Some(9)
  {
    hide Skip;
    var r := " nonReentrant" + x;
    var v := " external" + r;
    assert " external nonReentrant" + x == v;
    SkipIs(v, 0, IsSpace, 1);
    assert v[1..] == "external" + r;
  }

  lemma NonReentrantPiece(x: string)
    ensures PieceAt(Piece(true, Literal("nonReentrant")), " nonReentrant" + x) == Some(13)
  {
    hide Skip;
    var v := " nonReentrant" + x;
    SkipIs(v, 0, IsSpace, 1);
    assert v[1..] == "nonReentrant" + x;
  }

  // ---- On parts ----

  ghost predicate NoExternal(parts: seq<Part>) {
    forall i :: 0 <= i < |parts| && parts[i].Declared? ==> ExternalAt(parts[i].header).None?
  }

  lemma {:induction false} ModifiedAt(parts: seq<Part>) returns (at: Option<nat>)
    ensures at.None? ==> NoExternal(parts) && ModifierParts(parts) == parts
    ensures at.Some? ==>
              && at.value < |parts| && parts[at.value].Declared? && ExternalAt(parts[at.value].header).Some?
              && ModifierParts(parts)
                 == parts[at.value := parts[at.value].(header := NewHeader(parts[at.value].header))]
  {
    hide ExternalAt, NewHeader;
    if parts == [] {
      at := None;
    } else if parts[0].Declared? && ExternalAt(parts[0].header).Some? {
      at := Some(0);
    } else {
      at := ModifiedAt(parts[1..]);
      if at.Some? {
        var p := parts[1..][at.value];
        UpdateBehind(parts, at.value, p.(header := NewHeader(p.header)));
        at := Some(at.value + 1);
      } else {
        assert forall i :: 0 < i < |parts| ==> parts[i] == parts[1..][i - 1];
      }
    }
  }

  lemma ModifiedOk(parts: seq<Part>)
    requires WellFormed(parts)
    ensures WellFormed(ModifierParts(parts))
  {
    hide WellFormed, HeaderOk, HeaderRest, TextOk, Balanced, ExternalAt, EnterHeader;
    var at := ModifiedAt(parts);
    if at.Some? {
      var p := parts[at.value];
      BodyOk(parts, at.value);
      RestOfHeader(p.name, p.header);
      NewHeaderOk(p.header[ExternalAt(p.header).value..]);
      OnePartOk(parts, at.value, p.(header := NewHeader(p.header)));
    }
  }

  lemma NonReentrantOfHeader(name: string, header: string, rest: string)
    requires HeaderOk(name, header)
    ensures NonReentrantAt(header + rest) <==> NonReentrantAt(header)
  {
    hide HeaderOk, At, HeaderAt, Skip;
    var t := header + rest;
    EnterIsName();
    NamedIsValid(ENTER);
    EnterHasNoBrace();
    HeaderDecides(Named(ENTER), name, header, rest);
    if At(Named(ENTER), header).Some? {
      var n := At(Named(ENTER), header).value;
      ParametersClose(name, header, n);
      SkipPrefix(header, t, n, NotClosing, |header|);
      ModifierOfHeader(name, header, rest, Skip(header, n, NotClosing));
    }
  }

  lemma EnterHasNoBrace()
    ensures !Uses(Named(ENTER), '{')
  {
  }

  lemma ParametersClose(name: string, header: string, n: nat)
    requires HeaderOk(name, header) && At(Named(ENTER), header) == Some(n)
    ensures Skip(header, n, NotClosing) < |header|
  {
    hide At, HeaderAt, Skip, Found;
    EnterIsName();
    NamedIsHead(ENTER, header);
    HeaderIsHead(header);
    HeaderHasShape(header);
  }

  lemma ModifierOfHeader(name: string, header: string, rest: string, i: nat)
    requires HeaderOk(name, header) && i < |header|
    ensures At(MODIFIER, (header + rest)[i..]) == At(MODIFIER, header[i..])
  {
    hide At, HeaderOk, Uses;
    HeaderBraces(name, header);
    EnterPatternsAreValid();
    EnterPatternsHaveNoBrace();
    var x := header[i..|header| - 1];
    assert header[i..] == x + "{" && (header + rest)[i..] == x + ("{" + rest);
    AtInContext(MODIFIER, x, "{");
    AtInContext(MODIFIER, x, "{" + rest);
  }

  lemma NonReentrantIsHeadTest()
    ensures HeadTest(NonReentrantAt)
  {
    hide HeaderOk, At;
    EnterIsName();
    forall t | NonReentrantAt(t)
      ensures At(HEAD, t).Some?
    {
      NamedIsHead(ENTER, t);
    }
    forall name, header, rest | HeaderOk(name, header)
      ensures NonReentrantAt(header + rest) <==> NonReentrantAt(header)
    {
      NonReentrantOfHeader(name, header, rest);
    }
  }

  /** `/function\s+enter\s*\([^)]*\)\s*external\s+nonReentrant/` reads only headers. */
  lemma ModifierTest(parts: seq<Part>)
    requires WellFormed(parts)
    ensures Somewhere(NonReentrantAt, Render(parts)) <==> SomeHeader(NonReentrantAt, parts)
  {
    hide HeadTest, WellFormed, NonReentrantAt;
    NonReentrantIsHeadTest();
    SomewhereInRender(NonReentrantAt, parts);
  }
}
