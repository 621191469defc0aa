/** The disclosure patch: it tests the schema function but edits the first description in the text. */
module DisclosurePatch {
  import opened Wrappers
  import opened SolidityText
  import opened Patterns
  import opened FunctionHeads
  import opened Insertions
  import opened FunctionBodies
  import opened SourceEditing
  import opened SourcePatches
  import opened SourceEdits
  import opened ReceiveBody
  import opened PatchTexts
  import opened EditEffects

  const SCHEMA := "vaultUISchema"
  const REQUEST_DRAW := "requestDraw"

  // ---- The tests ----

  function Lower(c: char): char {
    if 'A' <= c <= 'Z' then (c as int + 32) as char else c
  }

  predicate EndsLine(c: char) {
    c == '\n' || c == '\r' || c == '\U{2028}' || c == '\U{2029}'
  }

  /** The text starts with a word, in upper or lower case. */
  predicate Spelled(word: string, t: string) {
    |word| <= |t| && forall k :: 0 <= k < |word| ==> Lower(t[k]) == word[k]
  }

  /** `/AI.{0,limit}word/i`, from the start of the text. */
  ghost predicate AiAnd(limit: nat, word: string, t: string) {
    Spelled("ai", t)
    && exists n ::
         2 <= n <= 2 + limit && n <= |t| && Spelled(word, t[n..]) && forall k :: 2 <= k < n ==> !EndsLine(t[k])
  }

  ghost predicate DisclosesAt(t: string) {
    AiAnd(30, "provider", t) || AiAnd(20, "oracle", t) || AiAnd(20, "selected", t) || Spelled("flap ai", t)
  }

  /** `/AI.{0,30}provider|AI.{0,20}oracle|AI.{0,20}selected|Flap AI/i.test(body)`. */
  ghost predicate Discloses(body: string) {
    exists i :: 0 <= i <= |body| && DisclosesAt(body[i..])
  }

  ghost predicate Undisclosed(body: string) {
    body != "" && !Discloses(body)
  }

  /** The contract asks the AI oracle, and has a draw to ask it for. */
  ghost predicate Lottery(t: string) {
    Found(CONSUMER, t) && Found(Named(REQUEST_DRAW), t)
  }

  /** `extractVaultUISchemaBody`: "" when the function is missing or empty, which the patch treats alike. */
  function SchemaBody(t: string): string {
    match NamePos(t, SCHEMA)
    case None => ""
    case Some(o) => BodyAt(t, o)
  }

  ghost predicate Fires(t: string) {
    Lottery(t) && Undisclosed(SchemaBody(t))
  }

  ghost function Disclose(t: string): string {
    if Fires(t) then InsertFirst(Description, t, Disclosure()) else t
  }

  // ---- The tests after the edit ----

  /** Every text with the disclosure in it discloses. */
  lemma DisclosureDiscloses(x: string, y: string)
    ensures Discloses(x + Disclosure() + y)
  {
    hide AiAnd, Disclosure;
    SaysFlapAi();
    var t, d := x + Disclosure() + y, Disclosure();
    assert t[|x| + 21..] == d[21..] + y;
    assert forall k :: 0 <= k < 7 ==> t[|x| + 21..][k] == d[21..][k];
    assert DisclosesAt(t[|x| + 21..]);
  }

  lemma SaysFlapAi()
    ensures |Disclosure()| > 28 && Spelled("flap ai", Disclosure()[21..])
  {
    DisclosureParts();
    var a, b := "; winner selected by Flap AI", " provider (not on-chain VRF)";
    assert (a + b)[21..] == a[21..] + b;
    assert a[21..] == "Flap AI";
    assert Spelled("flap ai", "Flap AI");
  }

  lemma RequestDrawPattern()
    ensures IsName(REQUEST_DRAW)
    ensures !Uses(Named(REQUEST_DRAW), '"') && !Uses(Named(REQUEST_DRAW), ';')
  {
    UsesTwo(Named(REQUEST_DRAW), Piece(true, Literal(REQUEST_DRAW)), PARENTHESIS, '"');
    UsesTwo(Named(REQUEST_DRAW), Piece(true, Literal(REQUEST_DRAW)), PARENTHESIS, ';');
  }

  lemma ConsumerPattern()
    ensures Valid(CONSUMER) && Never(CONSUMER, '"') && !Uses(CONSUMER, ';') && 'u' in CONSUMER.first
  {
    hide Uses, Valid;
    TestsAreValid();
    ConsumerLetters();
    UsesNone(CONSUMER, '"');
    UsesNone(CONSUMER, ';');
  }

  lemma ConsumerLetters()
    ensures '"' !in "FlapAIConsumerBase" && ';' !in "FlapAIConsumerBase" && 'u' in "FlapAIConsumerBase"
  {
    assert "FlapAIConsumerBase"[10] == 'u';
  }

  /** The inserted text neither makes nor unmakes a lottery. */
  lemma SameLottery(t: string, p: nat)
    requires p < |t| && t[p] == '"'
    ensures Lottery(Inserted(t, p, Disclosure())) <==> Lottery(t)
  {
    hide Found, Valid, Uses, Disclosure;
    RequestDrawPattern();
    NamedIsValid(REQUEST_DRAW);
    ConsumerPattern();
    SameFound(CONSUMER, t, p);
    assert FUNCTION[1] == 'u';
    SameFound(Named(REQUEST_DRAW), t, p);
  }

  lemma SameFound(p: Pattern, t: string, at: nat)
    requires Valid(p) && Never(p, '"') && !Uses(p, ';') && 'u' in p.first && at < |t| && t[at] == '"'
    ensures Found(p, Inserted(t, at, Disclosure())) <==> Found(p, t)
  {
    hide Found, Valid, Uses, Disclosure;
    var a, b := t[..at], t[at + 1..];
    AroundQuote(t, at, Disclosure());
    if Found(p, t) {
      DisclosureKeeps(p, a, b);
    }
    if Found(p, Inserted(t, at, Disclosure())) {
      DisclosureAddsNone(p, 'u', a, b);
    }
  }

  lemma AroundQuote(t: string, p: nat, d: string)
    requires p < |t| && t[p] == '"'
    ensures t == t[..p] + "\"" + t[p + 1..] && Inserted(t, p, d) == t[..p] + d + ("\"" + t[p + 1..])
  {
    assert t[p..] == "\"" + t[p + 1..];
  }

  // ---- The first description is the same one, with its quote moved ----

  lemma {:induction false} FirstIsQuote(t: string)
    requires First(Description, t).Some?
    ensures First(Description, t).value < |t| && t[First(Description, t).value] == '"'
  {
    hide DescriptionAt;
    if DescriptionAt(t).None? {
      FirstIsQuote(t[1..]);
    }
  }

  lemma DescriptionMoves(t: string, p: nat)
    requires DescriptionAt(t) == Some(p)
    ensures DescriptionAt(Inserted(t, p, Disclosure())) == Some(p + |Disclosure()|)
  {
    hide Disclosure, At, Skip;
    var n := At(OPENING, t).value;
    TargetsAreValid();
    AtIsLocal(OPENING, t, Inserted(t, p, Disclosure()), n);
    QuoteMoves(t, n, p);
  }

  lemma QuoteMoves(t: string, i: nat, p: nat)
    requires i <= p < |t| && p == Skip(t, i, NotQuote)
    ensures Skip(Inserted(t, p, Disclosure()), i, NotQuote) == p + |Disclosure()|
  {
    hide Disclosure;
    var u, d := Inserted(t, p, Disclosure()), Disclosure();
    DisclosureLetters();
    forall k | i <= k < p + |d|
      ensures NotQuote(u[k])
    {
      if k >= p {
        assert u[k] == d[k - p];
      }
    }
    SkipIs(u, i, NotQuote, p + |d|);
  }

  /** Inserting at a later quote creates no description here. */
  lemma NoneBefore(t: string, p: nat)
    requires DescriptionAt(t).None? && p < |t| && t[p] == '"'
    ensures DescriptionAt(Inserted(t, p, Disclosure())).None?
  {
    hide Disclosure, At;
    var u := Inserted(t, p, Disclosure());
    AroundQuote(t, p, Disclosure());
    DisclosureOpensAround(t[..p], t[p + 1..]);
    DisclosureStarts();
    assert u[0..] == u;
    if At(OPENING, u).Some? {
      TargetsAreValid();
      AtIsLocal(OPENING, u, t, At(OPENING, u).value);
    }
  }

  lemma {:induction false} FirstDescriptionMoves(t: string)
    requires First(Description, t).Some?
    ensures First(Description, Inserted(t, First(Description, t).value, Disclosure()))
            == Some(First(Description, t).value + |Disclosure()|)
  {
    hide Disclosure, DescriptionAt;
    var p := First(Description, t).value;
    FirstIsQuote(t);
    if DescriptionAt(t).Some? {
      DescriptionMoves(t, p);
    } else {
      FirstDescriptionMoves(t[1..]);
      InsertedRest(t, p);
      NoneBefore(t, p);
    }
  }

  lemma InsertedRest(t: string, p: nat)
    requires 0 < p <= |t|
    ensures Inserted(t, p, Disclosure()) != ""
    ensures Inserted(t, p, Disclosure())[1..] == Inserted(t[1..], p - 1, Disclosure())
  {
    hide Disclosure;
  }

  // ---- The schema function is found again ----

  /** A name and an opening parenthesis match when a whole header follows. */
  lemma HeaderFollows(t: string, nameStart: nat, nameEnd: nat, open: nat, o: nat)
    requires FUNCTION <= t && |FUNCTION| < nameStart < nameEnd <= open < o <= |t| && t[open] == '('
    requires nameStart == Skip(t, |FUNCTION|, IsSpace) && nameEnd == Skip(t, nameStart, IsWord)
    requires open == Skip(t, nameEnd, IsSpace) && HeaderAt(t[o..]).Some?
    ensures HeaderAt(t).Some? && HeaderAt(t).value.name == t[nameStart..nameEnd]
  {
    hide Skip;
    var h := HeaderAt(t[o..]).value;
    HeaderHasShape(t[o..]);
    var close := Skip(t, open + 1, NotClosing);
    assert t[o..][h.close] == t[o + h.close] && t[o..][h.length - 1] == t[o + h.length - 1];
    assert close <= o + h.close;
    var brace := Skip(t, close + 1, NotOpeningBrace);
    assert brace <= o + h.length - 1;
    ScannedIsMatch(t, nameStart, nameEnd, Header(t[nameStart..nameEnd], open, close, brace + 1));
  }

  /** A header whose parenthesis opens in the common part of two texts is one in the text with a later header. */
  lemma SameName(t: string, u: string, n: nat, o: nat)
    requires n <= o < |t| && SameUpTo(t, u, n) && HeaderAt(t[o..]).Some?
    requires HeaderAt(u).Some? && HeaderAt(u).value.open < n
    ensures HeaderAt(t).Some? && HeaderAt(t).value.name == HeaderAt(u).value.name
  {
    hide HeaderAt, Skip;
    var g := HeaderAt(u).value;
    var nameStart, nameEnd := MatchIsScanned(u);
    SkipPrefix(u, t, |FUNCTION|, IsSpace, n);
    SkipPrefix(u, t, nameStart, IsWord, n);
    SkipPrefix(u, t, nameEnd, IsSpace, n);
    assert u[..|FUNCTION|] == t[..|FUNCTION|] && u[nameStart..nameEnd] == t[nameStart..nameEnd];
    HeaderFollows(t, nameStart, nameEnd, g.open, o);
  }

  lemma OpensBefore(t: string, p: nat)
    requires p <= |t| && HeaderAt(Inserted(t, p, Disclosure())).Some?
    ensures HeaderAt(Inserted(t, p, Disclosure())).value.open < p
  {
    hide Disclosure, HeaderAt;
    var u := Inserted(t, p, Disclosure());
    HeaderHasShape(u);
    DisclosureStarts();
    assert u[p] == Disclosure()[0];
  }

  lemma NoHeaderHere(t: string)
    requires t != "" && t[0] != 'f'
    ensures HeaderAt(t).None?
  {
    assert FUNCTION[0] == 'f';
  }

  lemma {:induction false} SchemaBehind(d: string, t: string, o: nat)
    requires (forall i :: 0 <= i < |d| ==> d[i] != 'f') && NamePos(t, SCHEMA) == Some(o)
    ensures NamePos(d + t, SCHEMA) == Some(|d| + o)
  {
    hide HeaderAt;
    if d == "" {
      assert d + t == t;
    } else {
      var u := d + t;
      assert u[0] == d[0];
      NoHeaderHere(u);
      assert u[1..] == d[1..] + t;
      SchemaBehind(d[1..], t, o);
    }
  }

  /** An edit before the schema function only moves it. */
  lemma {:induction false} SchemaAfterEdit(t: string, p: nat, o: nat)
    requires NamePos(t, SCHEMA) == Some(o) && p <= o
    ensures NamePos(Inserted(t, p, Disclosure()), SCHEMA) == Some(o + |Disclosure()|)
  {
    hide Disclosure, HeaderAt;
    var u := Inserted(t, p, Disclosure());
    if p == 0 {
      DisclosureLetters();
      assert u == Disclosure() + t;
      SchemaBehind(Disclosure(), t, o);
    } else {
      assert t[1..][o - 1..] == t[o..];
      InsertedRest(t, p);
      SchemaAfterEdit(t[1..], p - 1, o - 1);
      if HeaderAt(u).Some? {
        OpensBefore(t, p);
        SameName(t, u, p, o);
      }
    }
  }

  /** A header in front of another is complete there, so it does not depend on how the other goes on. */
  lemma HeaderInFront(t: string, u: string, o: nat)
    requires 0 < o < |t| && SameUpTo(t, u, o) && HeaderAt(t[o..]).Some?
    requires o < |u| && HeaderAt(u[o..]).Some? && HeaderAt(u).Some?
    ensures HeaderAt(t).Some? && HeaderAt(t).value.name == HeaderAt(u).value.name
  {
    hide HeaderAt, At;
    var h := HeaderAt(u[o..]).value;
    var y, header, rest := u[..o], u[o..][..h.length], u[o..][h.length..];
    HeaderIsLocal(u[o..], header, h);
    assert u == y + header + rest;
    HeaderIsHead(u);
    if At(HEAD, y).None? {
      NoHeadAcross(y, header, rest);
    }
    HeadIsValid();
    AtIsLocal(HEAD, y, u, At(HEAD, y).value);
    SameName(t, u, o, o);
  }

  /** The first header of a name stays the first when the text changes behind its start. */
  lemma {:induction false} NamePosAgain(t: string, u: string, name: string, o: nat)
    requires NamePos(t, name) == Some(o) && o < |u| && SameUpTo(t, u, o)
    requires HeaderAt(u[o..]).Some? && HeaderAt(u[o..]).value.name == name
    ensures NamePos(u, name) == Some(o)
    decreases |t|
  {
    hide HeaderAt;
    if o == 0 {
      assert u[0..] == u;
    } else {
      assert t[1..][o - 1..] == t[o..] && u[1..][o - 1..] == u[o..];
      NamePosAgain(t[1..], u[1..], name, o - 1);
      if HeaderAt(u).Some? {
        HeaderInFront(t, u, o);
      }
    }
  }

  // ---- The edit inside the schema function's header ----

  /** The scan up to the parenthesis does not see an edit behind it. */
  lemma SameScan(t: string, u: string, nameStart: nat, nameEnd: nat, h: Header, p: nat)
    requires Scanned(t, nameStart, nameEnd, h) && h.open < p && SameUpTo(t, u, p)
    ensures FUNCTION <= u && nameStart == Skip(u, |FUNCTION|, IsSpace) && nameEnd == Skip(u, nameStart, IsWord)
    ensures h.open == Skip(u, nameEnd, IsSpace) && u[h.open] == '(' && h.name == u[nameStart..nameEnd]
  {
    hide Skip;
    SkipPrefix(t, u, |FUNCTION|, IsSpace, p);
    SkipPrefix(t, u, nameStart, IsWord, p);
    SkipPrefix(t, u, nameEnd, IsSpace, p);
    assert t[nameStart..nameEnd] == u[nameStart..nameEnd] && t[..|FUNCTION|] == u[..|FUNCTION|];
  }

  /** The end of the parameters after the edit: where it was, or in the inserted text. */
  lemma ParametersEnd(t: string, h: Header, p: nat) returns (close: nat)
    requires h.open < p < h.length - 1 && h.open < h.close < h.length <= |t| && t[p] == '"'
    requires h.close == Skip(t, h.open + 1, NotClosing) && t[h.close] == ')'
    ensures var u := Inserted(t, p, Disclosure());
            h.open < close < |u| && close == Skip(u, h.open + 1, NotClosing)
    ensures close == h.close < p || p <= close < p + |Disclosure()|
  {
    hide Disclosure, Skip;
    var u, d := Inserted(t, p, Disclosure()), Disclosure();
    DisclosureStarts();
    ClosesItself();
    close := Skip(u, h.open + 1, NotClosing);
    assert h.close != p;
    if h.close < p {
      SkipPrefix(t, u, h.open + 1, NotClosing, p);
    } else {
      assert u[p + |d| - 1] == d[|d| - 1];
    }
  }

  /** An edit behind the parenthesis leaves a header, up to the next brace. */
  lemma HeaderWidens(t: string, p: nat)
    requires HeaderAt(t).Some? && HeaderAt(t).value.open < p < HeaderAt(t).value.length - 1 && t[p] == '"'
    ensures var u := Inserted(t, p, Disclosure());
            && HeaderAt(u).Some? && HeaderAt(u).value.name == HeaderAt(t).value.name
            && Skip(t, p, NotOpeningBrace) < |t|
            && HeaderAt(u).value.length == |Disclosure()| + Skip(t, p, NotOpeningBrace) + 1
  {
    hide Disclosure, Skip, HeaderAt, HeaderShape, Scanned;
    var h := HeaderAt(t).value;
    HeaderHasShape(t);
    var nameStart, nameEnd := MatchIsScanned(t);
    var close := WidenedScan(t, h, nameStart, nameEnd, p);
    var length := |Disclosure()| + Skip(t, p, NotOpeningBrace) + 1;
    ScannedIsMatch(Inserted(t, p, Disclosure()), nameStart, nameEnd, Header(h.name, h.open, close, length));
  }

  lemma WidenedScan(t: string, h: Header, nameStart: nat, nameEnd: nat, p: nat) returns (close: nat)
    requires Scanned(t, nameStart, nameEnd, h) && HeaderShape(t, h)
    requires h.open < p < h.length - 1 && t[p] == '"'
    ensures Skip(t, p, NotOpeningBrace) < |t|
    ensures Scanned(Inserted(t, p, Disclosure()), nameStart, nameEnd,
                    Header(h.name, h.open, close, |Disclosure()| + Skip(t, p, NotOpeningBrace) + 1))
  {
    hide Disclosure, Skip, HeaderShape;
    var u, d := Inserted(t, p, Disclosure()), Disclosure();
    SameScan(t, u, nameStart, nameEnd, h, p);
    ShapeBounds(t, h);
    hide SameUpTo, Inserted;
    close := ParametersEnd(t, h, p);
    NextBrace(t, h, p, close);
    BraceAfterEdit(t, p, close, Skip(t, p, NotOpeningBrace));
  }

  lemma ShapeBounds(t: string, h: Header)
    requires HeaderShape(t, h)
    ensures h.open < h.close < h.length <= |t| && t[h.close] == ')'
  {
  }

  lemma NextBrace(t: string, h: Header, p: nat, close: nat)
    requires HeaderShape(t, h) && h.open < p < h.length - 1
    requires close == h.close || p <= close
    ensures Skip(t, p, NotOpeningBrace) < |t| && forall k :: close < k < p ==> t[k] != '{'
  {
    hide Skip;
    assert t[h.length - 1] == '{';
  }

  lemma BraceAfterEdit(t: string, p: nat, close: nat, q: nat)
    requires p <= q < |t| && q == Skip(t, p, NotOpeningBrace) && close < p + |Disclosure()|
    requires forall k :: close < k < p ==> t[k] != '{'
    ensures Skip(Inserted(t, p, Disclosure()), close + 1, NotOpeningBrace) == |Disclosure()| + q
  {
    hide Disclosure, Skip;
    var u, d := Inserted(t, p, Disclosure()), Disclosure();
    DisclosureLetters();
    forall k | close < k < |d| + q
      ensures NotOpeningBrace(u[k])
    {
      if p <= k < p + |d| {
        assert u[k] == d[k - p];
      } else if k >= p + |d| {
        assert u[k] == t[k - |d|];
      }
    }
    assert u[|d| + q] == t[q];
    SkipIs(u, close + 1, NotOpeningBrace, |d| + q);
  }

  // ---- When the patch is idempotent ----

  /** The edited description lies in the body the test reads. */
  predicate InSchema(t: string) {
    NamePos(t, SCHEMA).Some? && First(Description, t).Some? &&
    var start, p := BodyStart(t, NamePos(t, SCHEMA).value), First(Description, t).value;
    start <= p < start + Walk(t[start..], 1)
  }

  /** The edited description is part of the schema function's header. */
  predicate InHeader(t: string) {
    NamePos(t, SCHEMA).Some? && First(Description, t).Some? &&
    var o, p := NamePos(t, SCHEMA).value, First(Description, t).value;
    o < p < BodyStart(t, o)
  }

  /**
   * The body the test reads after an edit outside the schema function's body: an edit in its parameters
   * closes them, so that the body starts at the next brace.
   */
  function Reread(t: string): string
    requires First(Description, t).Some?
  {
    var brace := Skip(t, First(Description, t).value, NotOpeningBrace);
    if InHeader(t) && brace < |t| then BodyOf(t[brace + 1..]) else SchemaBody(t)
  }

  lemma EditedBefore(t: string, p: nat, o: nat)
    requires NamePos(t, SCHEMA) == Some(o) && p <= o
    ensures SchemaBody(Inserted(t, p, Disclosure())) == SchemaBody(t)
  {
    hide Disclosure, HeaderAt, NamePos, BodyOf;
    var u, n := Inserted(t, p, Disclosure()), |Disclosure()|;
    SchemaAfterEdit(t, p, o);
    assert u[o + n..] == t[o..];
    var start := BodyStart(t, o);
    assert u[start + n..] == t[start..];
  }

  lemma EditedHeader(t: string, p: nat, o: nat)
    requires NamePos(t, SCHEMA) == Some(o) && o < p < BodyStart(t, o) && t[p] == '"'
    ensures var brace := Skip(t, p, NotOpeningBrace);
            brace < |t| && SchemaBody(Inserted(t, p, Disclosure())) == BodyOf(t[brace + 1..])
  {
    hide Disclosure, HeaderAt, NamePos, BodyOf, Skip, Inserted;
    var u, d := Inserted(t, p, Disclosure()), Disclosure();
    WidenedAt(t, p, o);
    NamePosAgain(t, u, SCHEMA, o);
    InsertedAhead(t, p, Skip(t, p, NotOpeningBrace) + 1, d);
  }

  /** The header after the edit reaches to the next brace. */
  lemma WidenedAt(t: string, p: nat, o: nat)
    requires o < |t| && HeaderAt(t[o..]).Some? && o < p < BodyStart(t, o) && t[p] == '"'
    ensures var u, brace := Inserted(t, p, Disclosure()), Skip(t, p, NotOpeningBrace);
            && brace < |t| && o < |u| && SameUpTo(t, u, o)
            && HeaderAt(u[o..]).Some? && HeaderAt(u[o..]).value.name == HeaderAt(t[o..]).value.name
            && BodyStart(u, o) == |Disclosure()| + brace + 1
  {
    hide Disclosure, HeaderAt, Skip;
    HeaderEndsInBrace(t[o..]);
    assert t[o..][HeaderAt(t[o..]).value.length - 1] == t[BodyStart(t, o) - 1];
    OpensEarly(t, p, o);
    InsertedBehind(t, p, o, Disclosure());
    hide Inserted, SameUpTo;
    HeaderWidens(t[o..], p - o);
    SkipShift(t, o, p, NotOpeningBrace);
  }

  /** A quote lies behind the parenthesis of the header it is in. */
  lemma OpensEarly(t: string, p: nat, o: nat)
    requires o < p < |t| && t[p] == '"' && HeaderAt(t[o..]).Some?
    ensures HeaderAt(t[o..]).value.open < p - o && t[o..][p - o] == '"'
  {
    hide HeaderAt;
    HeaderHasShape(t[o..]);
    assert t[o..][p - o] == t[p];
  }

  lemma InsertedBehind(t: string, p: nat, o: nat, d: string)
    requires o <= p <= |t|
    ensures Inserted(t, p, d)[o..] == Inserted(t[o..], p - o, d) && SameUpTo(t, Inserted(t, p, d), o)
  {
  }

  lemma InsertedAhead(t: string, p: nat, n: nat, d: string)
    requires p <= n <= |t|
    ensures Inserted(t, p, d)[|d| + n..] == t[n..]
  {
  }

  lemma SchemaStays(t: string, p: nat, o: nat)
    requires NamePos(t, SCHEMA) == Some(o) && BodyStart(t, o) <= p <= |t|
    ensures NamePos(Inserted(t, p, Disclosure()), SCHEMA) == Some(o)
    ensures var start := BodyStart(t, o);
            SchemaBody(Inserted(t, p, Disclosure())) == BodyOf(t[start..p] + (Disclosure() + t[p..]))
            && SchemaBody(t) == BodyOf(t[start..p] + t[p..])
  {
    hide Disclosure, HeaderAt, NamePos, BodyOf, SameUpTo;
    var u, start := Inserted(t, p, Disclosure()), BodyStart(t, o);
    SliceAcross(t, Disclosure(), start, p);
    SchemaFound(t, u, o);
  }

  lemma SchemaFound(t: string, u: string, o: nat)
    requires NamePos(t, SCHEMA) == Some(o) && SameUpTo(t, u, BodyStart(t, o))
    ensures NamePos(u, SCHEMA) == Some(o) && SchemaBody(u) == BodyOf(u[BodyStart(t, o)..])
  {
    hide HeaderAt, NamePos, BodyOf;
    NamePosIsStable(t, u, SCHEMA, o);
  }

  lemma SliceAcross(t: string, d: string, start: nat, p: nat)
    requires start <= p <= |t|
    ensures var u := t[..p] + d + t[p..];
            SameUpTo(t, u, start) && u[start..] == t[start..p] + (d + t[p..]) && t[start..] == t[start..p] + t[p..]
  {
  }

  /** An edit inside the body becomes part of what the test reads. */
  lemma EditedInside(a: string, rest: string)
    requires rest != "" && Walk(a + rest, 1) > |a|
    ensures Discloses(BodyOf(a + (Disclosure() + rest)))
  {
    hide Disclosure, Walk, After, Discloses;
    var d := Disclosure();
    var depth := WalkSplits(a, rest, 1);
    assert d + "" == d;
    DisclosureHasNoBraces();
    PlainTextKeepsDepth(d, "", depth);
    assert After("", depth) == Some(depth) by { NothingRead(depth); }
    WalkPast(a, d + rest, 1, depth);
    WalkPast(d, rest, depth, depth);
    WalkPositive(rest, depth);
    var w := Walk(rest, depth);
    assert Walk(a + (d + rest), 1) == |a| + |d| + w;
    ReadPast(a, d, rest, w - 1);
    DisclosureDiscloses(a, rest[..w - 1]);
  }

  lemma ReadPast(a: string, d: string, rest: string, n: nat)
    requires n < |rest| && Walk(a + (d + rest), 1) == |a| + |d| + n + 1
    ensures BodyOf(a + (d + rest)) == a + d + rest[..n]
  {
    hide Walk;
    SliceEnd(a, d, rest, n);
  }

  lemma DisclosureHasNoBraces()
    ensures NoBraces(Disclosure())
  {
    hide Disclosure;
    DisclosureLetters();
  }

  lemma SliceEnd(a: string, d: string, rest: string, n: nat)
    requires n <= |rest|
    ensures (a + (d + rest))[..|a| + |d| + n] == a + d + rest[..n]
  {
  }

  lemma NothingRead(depth: nat)
    requires depth > 0
    ensures After("", depth) == Some(depth)
  {
  }

  lemma EditedBehind(t: string, p: nat, o: nat)
    requires NamePos(t, SCHEMA) == Some(o) && BodyStart(t, o) <= p < |t|
    ensures var start, b := BodyStart(t, o), SchemaBody(Inserted(t, p, Disclosure()));
            if p < start + Walk(t[start..], 1) then Discloses(b) else b == SchemaBody(t)
  {
    hide Disclosure, HeaderAt, NamePos, BodyOf, Walk, Inserted, Discloses, SchemaBody;
    var start := BodyStart(t, o);
    SchemaStays(t, p, o);
    var a, rest := t[start..p], t[p..];
    SliceAcross(t, "", start, p);
    if Walk(a + rest, 1) <= |a| {
      WalkStopsEarly(a, rest, Disclosure() + rest);
    } else {
      EditedInside(a, rest);
    }
  }

  /** After it fired, the patch fires again exactly when it edited a description its test does not read. */
  lemma FiresAgainIff(t: string)
    requires Fires(t) && First(Description, t).Some?
    ensures Fires(Inserted(t, First(Description, t).value, Disclosure()))
            <==> !InSchema(t) && Undisclosed(Reread(t))
  {
    hide Disclosure, HeaderAt, NamePos, BodyAt, Walk, First, Inserted, Discloses, Lottery;
    var p, o := First(Description, t).value, NamePos(t, SCHEMA).value;
    FirstIsQuote(t);
    SameLottery(t, p);
    if p <= o {
      EditedBefore(t, p, o);
    } else if p < BodyStart(t, o) {
      EditedHeader(t, p, o);
    } else {
      EditedBehind(t, p, o);
    }
  }

  /**
   * Applying the patch twice is applying it once exactly when it does not fire, finds no description, edits
   * one inside the schema function, or edits the function's header so that its new body needs no disclosure;
   * otherwise the second application adds the text again.
   */
  lemma DiscloseIdempotentIff(t: string)
    ensures var u := Disclose(t);
            Disclose(u) == u
            <==> !Fires(t) || First(Description, t).None? || InSchema(t) || !Undisclosed(Reread(t))
  {
    hide Disclosure, Fires, InSchema, First, Reread, Undisclosed;
    if Fires(t) && First(Description, t).Some? {
      FiresAgainIff(t);
      FirstDescriptionMoves(t);
      DisclosureStarts();
    }
  }

  /** An edit in a header whose parameters hold no brace leaves the body as it was. */
  lemma HeaderEditKeepsBody(t: string)
    requires InHeader(t)
    requires var o := NamePos(t, SCHEMA).value; forall k :: o <= k < BodyStart(t, o) - 1 ==> t[k] != '{'
    ensures Reread(t) == SchemaBody(t)
  {
    hide HeaderAt, NamePos, BodyOf, First, Skip;
    var o, p := NamePos(t, SCHEMA).value, First(Description, t).value;
    HeaderHasShape(t[o..]);
    var q := BodyStart(t, o) - 1;
    assert t[q] == t[o..][q - o];
    FirstIsQuote(t);
    SkipIs(t, p, NotOpeningBrace, q);
  }

  // ---- A description outside the schema function ----

  const CONTRACT := "contract V is FlapAIConsumerBase{"
  const SCHEMA_HEADER := "function vaultUISchema(){"
  const DRAW := "function requestDraw()"
  const DESCRIBED := "schema.description" + ("=" + ("unicode\"" + "\";}}"))

  /** A lottery whose description is set in the draw, not in the schema function. */
  function Elsewhere(): string {
    CONTRACT + (SCHEMA_HEADER + ("x" + ("}" + (DRAW + ("{" + DESCRIBED)))))
  }

  function Before(): string {
    CONTRACT + (SCHEMA_HEADER + ("x}" + DRAW))
  }

  lemma SchemaName()
    ensures FUNCTION <= SCHEMA_HEADER && SCHEMA_HEADER[9..22] == SCHEMA
    ensures Skip(SCHEMA_HEADER, 8, IsSpace) == 9 && Skip(SCHEMA_HEADER, 9, IsWord) == 22
  {
    hide Skip;
    SkipIs(SCHEMA_HEADER, 8, IsSpace, 9);
    SkipIs(SCHEMA_HEADER, 9, IsWord, 22);
  }

  lemma SchemaParameters()
    ensures SCHEMA_HEADER[22] == '(' && Skip(SCHEMA_HEADER, 22, IsSpace) == 22
    ensures Skip(SCHEMA_HEADER, 23, NotClosing) == 23 && Skip(SCHEMA_HEADER, 24, NotOpeningBrace) == 24
  {
    hide Skip;
    SkipIs(SCHEMA_HEADER, 22, IsSpace, 22);
    SkipIs(SCHEMA_HEADER, 23, NotClosing, 23);
    SkipIs(SCHEMA_HEADER, 24, NotOpeningBrace, 24);
  }

  lemma SchemaMatch(rest: string)
    ensures HeaderAt(SCHEMA_HEADER + rest) == Some(Header(SCHEMA, 22, 23, 25))
  {
    hide Skip, HeaderAt;
    SchemaName();
    SchemaParameters();
    ScannedIsMatch(SCHEMA_HEADER, 9, 22, Header(SCHEMA, 22, 23, 25));
    HeaderIsLocal(SCHEMA_HEADER, SCHEMA_HEADER + rest, Header(SCHEMA, 22, 23, 25));
  }

  lemma ContractLetters()
    ensures |CONTRACT| == 33 && forall i :: 0 <= i < |CONTRACT| ==> CONTRACT[i] != 'f'
  {
  }

  lemma SchemaElsewhere()
    ensures NamePos(Elsewhere(), SCHEMA) == Some(33) && BodyStart(Elsewhere(), 33) == 58
    ensures SchemaBody(Elsewhere()) == "x" && Walk(Elsewhere()[58..], 1) == 2
  {
    hide HeaderAt, Walk;
    var rest := "}" + (DRAW + ("{" + DESCRIBED));
    var u, t := SCHEMA_HEADER + ("x" + rest), Elsewhere();
    SchemaMatch("x" + rest);
    assert u[0..] == u;
    assert NamePos(u, SCHEMA) == Some(0);
    ContractLetters();
    SchemaBehind(CONTRACT, u, 0);
    assert t[33..] == u && t[58..] == u[25..];
    assert |SCHEMA_HEADER| == 25 && u[25..] == "x" + rest;
    BodyOfX(rest);
  }

  lemma BodyOfX(rest: string)
    requires rest != "" && rest[0] == '}'
    ensures Walk("x" + rest, 1) == 2 && BodyOf("x" + rest) == "x"
  {
    assert ("x" + rest)[1..] == rest;
    assert Walk(rest, 1) == 1;
  }

  lemma DescribedOpens()
    ensures DescriptionAt(DESCRIBED) == Some(27)
  {
    hide Skip;
    var t := DESCRIBED;
    var r := "=" + ("unicode\"" + "\";}}");
    EqualsThenUnicode("\";}}");
    assert |"schema.description"| == 18 && t[18..] == r;
    assert t[27] == r[9];
    SkipIs(t, 27, NotQuote, 27);
  }

  lemma EqualsThenUnicode(x: string)
    ensures RestAt(OPENING.rest, "=" + ("unicode\"" + x)) == Some(9)
  {
    hide Skip, RestAt;
    var y := "unicode\"" + x;
    var t := "=" + y;
    SkipIs(t, 0, IsSpace, 0);
    SkipIs(y, 0, IsSpace, 0);
    assert t[0..] == t && y[0..] == y && t[1..] == y;
    TwoPieces(Gap("="), Gap("unicode\""), t, 1, 8);
  }

  lemma FirstElsewhere()
    ensures First(Description, Elsewhere()) == Some(|Before()| + 28) && |Before()| > 60
  {
    hide First, DescriptionAt;
    DescribedOpens();
    assert First(Description, DESCRIBED) == Some(27) by { FirstIsHere(DESCRIBED); }
    var brace := "{" + DESCRIBED;
    assert "x}" == "x" + "}";
    assert Elsewhere() == Before() + brace;
    LettersElsewhere();
    SkipsTo(Before(), DESCRIBED);
  }

  lemma FirstIsHere(t: string)
    requires t != "" && DescriptionAt(t).Some?
    ensures First(Description, t) == DescriptionAt(t)
  {
  }

  lemma SkipsTo(x: string, rest: string)
    requires ';' !in x && '"' !in x && First(Description, rest).Some?
    ensures First(Description, x + ("{" + rest))
            == Insertions.Behind(Insertions.Behind(First(Description, rest), 1), |x|)
  {
    hide *;
    NoTargetIn(Description, x);
    QuotedWithout(x);
    FirstBehindBrace(rest);
    BraceDelimits(rest);
    DelimitedIsSeparate(x, "{" + rest);
    FirstInContext(Description, x, "{" + rest);
  }

  lemma BraceDelimits(rest: string)
    ensures Delimited("{" + rest)
  {
  }

  lemma FirstBehindBrace(rest: string)
    ensures First(Description, "{" + rest) == Insertions.Behind(First(Description, rest), 1)
  {
    hide First;
    NoTargetStarts(Description, '{', rest);
    assert "{" + rest == ['{'] + rest;
  }

  lemma LettersElsewhere()
    ensures ';' !in Before() && '"' !in Before()
  {
    PlainContract();
    PlainHeaders();
    NoQuote("x}", DRAW);
    NoQuote(SCHEMA_HEADER, "x}" + DRAW);
    NoQuote(CONTRACT, SCHEMA_HEADER + ("x}" + DRAW));
  }

  lemma PlainContract()
    ensures ';' !in CONTRACT && '"' !in CONTRACT && ';' !in "x}" && '"' !in "x}"
  {
  }

  lemma PlainHeaders()
    ensures ';' !in SCHEMA_HEADER && '"' !in SCHEMA_HEADER && ';' !in DRAW && '"' !in DRAW
  {
  }

  lemma NoQuote(a: string, b: string)
    requires ';' !in a && '"' !in a && ';' !in b && '"' !in b
    ensures ';' !in a + b && '"' !in a + b
  {
  }

  lemma LotteryElsewhere()
    ensures Lottery(Elsewhere())
  {
    hide Found, Elsewhere;
    ConsumesElsewhere();
    DrawsElsewhere();
  }

  lemma ConsumesElsewhere()
    ensures Found(CONSUMER, Elsewhere())
  {
    hide Found, At, Uses, Valid;
    ConsumerPattern();
    ContractConsumes();
    var rest := SCHEMA_HEADER + ("x" + ("}" + (DRAW + ("{" + DESCRIBED))));
    assert Elsewhere() == "" + CONTRACT + rest;
    Within(CONSUMER, "", CONTRACT, rest, Elsewhere());
  }

  lemma DrawsElsewhere()
    ensures Found(Named(REQUEST_DRAW), Elsewhere())
  {
    hide Found, At, Uses, Valid;
    RequestDrawPattern();
    NamedIsValid(REQUEST_DRAW);
    DrawIsNamed();
    var front, rest := CONTRACT + (SCHEMA_HEADER + ("x" + "}")), "{" + DESCRIBED;
    assert Elsewhere() == front + DRAW + rest;
    Within(Named(REQUEST_DRAW), front, DRAW, rest, Elsewhere());
  }

  lemma ContractConsumes()
    ensures Found(CONSUMER, CONTRACT)
  {
    assert CONSUMER.first <= CONTRACT[14..];
    assert At(CONSUMER, CONTRACT[14..]).Some?;
  }

  lemma DrawIsNamed()
    ensures Found(Named(REQUEST_DRAW), DRAW)
  {
    hide Skip, At;
    SkipIs(DRAW, 8, IsSpace, 9);
    SkipIs(DRAW, 9, IsWord, 20);
    SkipIs(DRAW, 20, IsSpace, 20);
    assert DRAW[9..20] == REQUEST_DRAW && DRAW[0..] == DRAW && FUNCTION <= DRAW;
    ScanIsHead(DRAW, 9, 20, 20);
    FoundHere(Named(REQUEST_DRAW), DRAW, 0);
  }

  lemma XDisclosesNothing()
    ensures !Discloses("x")
  {
    assert Lower('x') == 'x';
    forall i | 0 <= i <= |"x"|
      ensures !DisclosesAt("x"[i..])
    {
      assert |"x"[i..]| < 2;
    }
  }

  /** On this text the patch adds its disclosure twice. */
  lemma DisclosedTwice()
    ensures Fires(Elsewhere()) && Disclose(Disclose(Elsewhere())) != Disclose(Elsewhere())
  {
    hide Disclosure, NamePos, First, Disclose, SchemaBody, HeaderAt, Elsewhere, Lottery, Discloses;
    SchemaElsewhere();
    FirstElsewhere();
    LotteryElsewhere();
    XDisclosesNothing();
    DiscloseIdempotentIff(Elsewhere());
  }
}
