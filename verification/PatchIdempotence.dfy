/** The whole sequence of patches: what a second application does, and when it changes nothing. */
module PatchIdempotence {
  import opened Wrappers
  import opened SolidityText
  import opened Patterns
  import opened FunctionHeads
  import opened Insertions
  import opened FunctionBodies
  import opened SourceEditing
  import opened SourcePatches
  import opened SourceParts
  import opened SourceTests
  import opened SourceEdits
  import opened EnterModifier
  import opened PatchTexts
  import opened EditEffects
  import opened DisclosurePatch
  import opened PatchSteps
  import opened CommonPatches
  import opened PatchSettling

  // ---- The whole sequence ----

  /** No step but the disclosure has anything left to do. */
  ghost predicate Settled(parts: seq<Part>) {
    CapDone(parts) && ModifierDone(parts) && ResetDone(parts)
    && BodyDone(parts, REQUEST_DRAW, Bounded) && BodyDone(parts, REQUEST_ELIMINATION, Bounded)
  }

  lemma InsertKeepsHeaders(parts: seq<Part>)
    requires KeywordsEnd(parts)
    ensures KeywordsEnd(InsertParts(Anchor, parts, CapDeclaration()))
  {
    hide ExternalAt, First, InsertFirst, CapDeclaration;
    var at := InsertedAt(Anchor, parts, CapDeclaration());
  }

  lemma CapKeepsHeaders(parts: seq<Part>)
    requires KeywordsEnd(parts)
    ensures KeywordsEnd(CapParts(parts))
  {
    hide ExternalAt, FoundParts, BodyIn, WithBody, InsertParts, CapDeclaration, Checked, WithCap;
    var inserted := InsertParts(Anchor, parts, CapDeclaration());
    InsertKeepsHeaders(parts);
    var b := BodyIn(inserted, ENTER);
    if b.Some? && b.value != "" && !Checked(b.value) {
      var k := WithBodyAt(inserted, ENTER, WithCap(b.value));
    }
  }

  /** Everything done before the disclosure stays done after every later step. */
  lemma EarlyStepsStay(parts: seq<Part>, after: seq<Part>)
    requires CapDone(parts) && ModifierDone(parts) && Edited(parts, after)
    ensures CapDone(after) && ModifierDone(after)
  {
    hide CapDone, ModifierDone, Edited;
    CapStays(parts, after);
    ModifierStays(parts, after);
  }

  lemma CommonSettles(parts: seq<Part>)
    requires WellFormed(parts) && KeywordsEnd(parts)
    ensures Settled(CommonParts(parts)) && WellFormed(CommonParts(parts))
  {
    hide WellFormed, KeywordsEnd, CapDone, ModifierDone, ResetDone, BodyDone, Edited, PartsAddNone;
    hide CapParts, ModifyParts, DiscloseParts, ResetParts, BoundParts;
    var p1 := CapParts(parts);
    CapInRender(parts);
    CapSettles(parts);
    CapKeepsHeaders(parts);
    var p2 := ModifyParts(p1);
    ModifyInRender(p1);
    ModifierSettles(p1);
    CapStaysModified(p1);
    var p3 := DiscloseParts(p2);
    DiscloseInRender(p2);
    EarlyStepsStay(p2, p3);
    LateStepsSettle(p3);
  }

  lemma LateStepsSettle(p3: seq<Part>)
    requires WellFormed(p3) && CapDone(p3) && ModifierDone(p3)
    ensures var p6 := BoundParts(BoundParts(ResetParts(p3), REQUEST_DRAW), REQUEST_ELIMINATION);
            Settled(p6) && WellFormed(p6)
  {
    hide WellFormed, CapDone, ModifierDone, ResetDone, BodyDone, Edited, PartsAddNone, ResetParts, BoundParts;
    var p4 := ResetParts(p3);
    ResetInRender(p3);
    EarlyStepsStay(p3, p4);
    ResetSettles(p3);
    var p5 := BoundParts(p4, REQUEST_DRAW);
    BoundInRender(p4, REQUEST_DRAW);
    EarlyStepsStay(p4, p5);
    ResetStays(p4, p5);
    BoundSettles(p4, REQUEST_DRAW);
    var p6 := BoundParts(p5, REQUEST_ELIMINATION);
    BoundInRender(p5, REQUEST_ELIMINATION);
    EarlyStepsStay(p5, p6);
    ResetStays(p5, p6);
    Names();
    OtherBodyStays(p5, REQUEST_DRAW, REQUEST_ELIMINATION, Bounded);
    BoundSettles(p5, REQUEST_ELIMINATION);
  }

  lemma DisclosureKeepsSettled(parts: seq<Part>)
    requires WellFormed(parts) && Settled(parts)
    ensures Settled(DiscloseParts(parts))
  {
    hide WellFormed, CapDone, ModifierDone, ResetDone, BodyDone, Edited, PartsAddNone, DiscloseParts;
    var after := DiscloseParts(parts);
    DiscloseInRender(parts);
    EarlyStepsStay(parts, after);
    ResetStays(parts, after);
    BoundStays(parts, after, REQUEST_DRAW);
    BoundStays(parts, after, REQUEST_ELIMINATION);
  }

  /** On settled source the whole sequence only discloses. */
  lemma SettledOnlyDiscloses(parts: seq<Part>)
    requires WellFormed(parts) && Settled(parts)
    ensures CommonParts(parts) == DiscloseParts(parts)
  {
    hide WellFormed, CapDone, ModifierDone, ResetDone, BodyDone, CapParts, ModifyParts, DiscloseParts, ResetParts,
         PatchParts;
    CapIdle(parts);
    ModifierIdle(parts);
    DisclosureKeepsSettled(parts);
    var after := DiscloseParts(parts);
    ResetIdle(after);
    var edit := b => WithCheck(b);
    PatchIdle(after, REQUEST_DRAW, Bounded, edit);
    PatchIdle(after, REQUEST_ELIMINATION, Bounded, edit);
  }

  // ---- When the disclosure fires again ----

  ghost predicate HasDescription(parts: seq<Part>) {
    exists i :: 0 <= i < |parts| && First(Description, Content(parts[i])).Some?
  }

  lemma {:induction false} DescriptionFound(x: string)
    requires Quoted(x)
    ensures First(Description, x).Some? <==> Found(OPENING, x)
  {
    hide At;
    if x == "" {
      TargetsAreValid();
      TooShort(OPENING, x);
    } else {
      QuotedSuffix(x, 1);
      DescriptionFound(x[1..]);
      AnchorBehind(OPENING, x);
      assert x[0..] == x;
      if Found(OPENING, x) && At(OPENING, x).None? {
        var i := FoundAt(OPENING, x);
        assert x[1..][i - 1..] == x[i..];
        FoundHere(OPENING, x[1..], i - 1);
      }
      if At(OPENING, x).Some? {
        FoundHere(OPENING, x, 0);
        assert Closes(x);
      }
    }
  }

  lemma PatchKeepsDescription(parts: seq<Part>, name: string, done: string -> bool, edit: string -> string)
    requires WellFormed(parts)
    requires forall b :: b != "" && !done(b) && TextOk(b) && Balanced(b) ==>
                           TextOk(edit(b)) && (Found(OPENING, edit(b)) <==> Found(OPENING, b))
    ensures HasDescription(PatchParts(parts, name, done, edit)) <==> HasDescription(parts)
  {
    hide WellFormed, Found, Quoted, Balanced, First, BodyIn, WithBody;
    var b := BodyIn(parts, name);
    if b.Some? && b.value != "" && !done(b.value) {
      BodyInIsOk(parts, name);
      var k := WithBodyAt(parts, name, edit(b.value));
      DescriptionFound(b.value);
      DescriptionFound(edit(b.value));
      var after := WithBody(parts, name, edit(b.value));
      assert forall i :: 0 <= i < |parts| && i != k ==> after[i] == parts[i];
      assert Content(after[k]) == edit(b.value) && Content(parts[k]) == b.value;
    }
  }

  lemma ResetKeepsDescription(parts: seq<Part>)
    requires WellFormed(parts)
    ensures HasDescription(ResetParts(parts)) <==> HasDescription(parts)
  {
    hide WellFormed, Found, Quoted, Balanced, HasDescription, Extended, PatchParts, FoundParts, TextOk;
    forall b | b != "" && !Resets(b) && TextOk(b) && Balanced(b)
      ensures TextOk(WithReset(b)) && (Found(OPENING, WithReset(b)) <==> Found(OPENING, b))
    {
      ExtendedIsOk(b);
      OpeningAfterReset(b);
    }
    PatchKeepsDescription(parts, FULFILL, Resets, WithReset);
  }

  lemma OpeningAfterReset(b: string)
    ensures Found(OPENING, WithReset(b)) <==> Found(OPENING, b)
  {
    hide Found, Valid, Extended, Reset;
    TargetsAreValid();
    if Found(OPENING, b) {
      ResetKeeps(OPENING, b, Reset());
    }
    if Found(OPENING, WithReset(b)) {
      ResetAddsNoEnd(OPENING, b);
    }
  }

  lemma OpeningAfterCheck(b: string)
    ensures Found(OPENING, WithCheck(b)) <==> Found(OPENING, b)
  {
    hide Found, Valid, Guarded, CountCheck, Uses;
    TargetsAreValid();
    CheckPasses(b);
    OpeningHasNoParenthesis(')');
    assert OPENING.first[0] == 's';
    if Found(OPENING, b) {
      GuardKeeps(OPENING, CountCheck(b) + GuardEnd(), b);
    }
    if Found(OPENING, WithCheck(b)) {
      GuardAddsNone(OPENING, CountCheck(b), b);
    }
  }

  lemma BoundKeepsDescription(parts: seq<Part>, name: string)
    requires WellFormed(parts)
    ensures HasDescription(BoundParts(parts, name)) <==> HasDescription(parts)
  {
    hide WellFormed, Found, Balanced, HasDescription, PatchParts, TextOk, WithCheck, Bounded;
    var edit := b => WithCheck(b);
    forall b | b != "" && !Bounded(b) && TextOk(b) && Balanced(b)
      ensures TextOk(edit(b)) && (Found(OPENING, edit(b)) <==> Found(OPENING, b))
    {
      CheckedIsGentle(b);
      OpeningAfterCheck(b);
    }
    PatchKeepsDescription(parts, name, Bounded, edit);
  }

  lemma FiresStays(parts: seq<Part>, after: seq<Part>)
    requires Edited(parts, after) && BodyIn(after, SCHEMA) == BodyIn(parts, SCHEMA)
    ensures FiresParts(after) <==> FiresParts(parts)
  {
    hide Edited, PartsAddNone, FoundParts, BodyIn, Lasting, Undisclosed, Gentle;
    ResetTestLasts();
    GentleAddsNone(parts, after);
    BodyEdited(parts, after, REQUEST_DRAW);
    if FoundParts(CONSUMER, parts) {
      TestLasts(CONSUMER, parts, after);
    }
    if FoundParts(CONSUMER, after) {
      TestIsOld(CONSUMER, parts, after);
    }
  }

  lemma OtherBodySame(parts: seq<Part>, other: string, done: string -> bool, edit: string -> string, name: string)
    requires other != name
    ensures BodyIn(PatchParts(parts, other, done, edit), name) == BodyIn(parts, name)
  {
    hide BodyIn, WithBody;
    var b := BodyIn(parts, other);
    if b.Some? && b.value != "" && !done(b.value) {
      BodiesAfter(parts, other, edit(b.value), name);
    }
  }

  lemma ResetLeavesFiring(parts: seq<Part>)
    requires WellFormed(parts)
    ensures FiresParts(ResetParts(parts)) <==> FiresParts(parts)
    ensures HasDescription(ResetParts(parts)) <==> HasDescription(parts)
    ensures WellFormed(ResetParts(parts))
  {
    hide WellFormed, FiresParts, HasDescription, Edited, PatchParts, Resets, WithReset, FoundParts, BodyIn;
    ResetInRender(parts);
    Names();
    OtherBodySame(parts, FULFILL, Resets, WithReset, SCHEMA);
    FiresStays(parts, ResetParts(parts));
    ResetKeepsDescription(parts);
  }

  lemma BoundLeavesFiring(parts: seq<Part>, name: string)
    requires WellFormed(parts) && name != SCHEMA
    ensures FiresParts(BoundParts(parts, name)) <==> FiresParts(parts)
    ensures HasDescription(BoundParts(parts, name)) <==> HasDescription(parts)
    ensures WellFormed(BoundParts(parts, name))
  {
    hide WellFormed, FiresParts, HasDescription, Edited, PatchParts, Bounded, WithCheck, BodyIn, PartsAddNone;
    BoundInRender(parts, name);
    var edit := b => WithCheck(b);
    OtherBodySame(parts, name, Bounded, edit, SCHEMA);
    FiresStays(parts, BoundParts(parts, name));
    BoundKeepsDescription(parts, name);
  }

  lemma {:induction false} RenderGrows(parts: seq<Part>, k: nat, q: Part)
    requires k < |parts| && |Text(q)| > |Text(parts[k])|
    ensures |Render(parts[k := q])| > |Render(parts)|
  {
    var after := parts[k := q];
    if k == 0 {
      assert after[1..] == parts[1..];
    } else {
      RenderGrows(parts[1..], k - 1, q);
      assert after[1..] == parts[1..][k - 1 := q];
    }
  }

  /** On the text, the disclosure changes something exactly when it fires and there is a description. */
  lemma DiscloseChanges(parts: seq<Part>)
    requires WellFormed(parts)
    ensures Disclose(Render(parts)) == Render(parts) <==> !FiresParts(parts) || !HasDescription(parts)
  {
    hide WellFormed, FiresParts, Edited, PartsAddNone, Render, InsertFirst, First, Disclose, Disclosure;
    DiscloseInRender(parts);
    var at := InsertedAt(Description, parts, Disclosure());
    if FiresParts(parts) && at.Some? {
      var p := parts[at.value];
      InsertionGrows(Content(p));
      RenderGrows(parts, at.value, WithContent(p, InsertFirst(Description, Content(p), Disclosure())));
    }
  }

  lemma InsertionGrows(x: string)
    requires First(Description, x).Some?
    ensures |InsertFirst(Description, x, Disclosure())| > |x|
  {
    hide First, Disclosure;
    DisclosureStarts();
  }

  // ---- The sequence is idempotent exactly when its disclosure is ----

  /**
   * On well-formed source, the second application of the patches only discloses, and it changes nothing
   * exactly when disclosing twice is disclosing once on the text the first application discloses in.
   */
  lemma CommonIdempotentIff(parts: seq<Part>)
    requires WellFormed(parts) && KeywordsEnd(parts)
    ensures var t := Render(parts);
            && Common(Common(t)) == Disclose(Common(t))
            && (Common(Common(t)) == Common(t)
                <==> Disclose(Disclose(BeforeDisclosure(t))) == Disclose(BeforeDisclosure(t)))
  {
    hide WellFormed, KeywordsEnd, FiresParts, HasDescription, Edited, PartsAddNone, Render, Disclose, Settled,
         Common, CommonParts;
    hide CapParts, ModifyParts, DiscloseParts, NonReentrant, EntrantCap;
    var c := CommonParts(parts);
    CommonInRender(parts);
    CommonSettles(parts);
    CommonInRender(c);
    SettledOnlyDiscloses(c);
    DiscloseInRender(c);
    DiscloseChanges(c);
    CapInRender(parts);
    ModifyInRender(CapParts(parts));
    var p2 := ModifyParts(CapParts(parts));
    DiscloseInRender(p2);
    DiscloseChanges(DiscloseParts(p2));
    SameFiring(parts, p2);
  }

  lemma SameFiring(parts: seq<Part>, p2: seq<Part>)
    requires p2 == ModifyParts(CapParts(parts)) && WellFormed(DiscloseParts(p2))
    ensures FiresParts(CommonParts(parts)) <==> FiresParts(DiscloseParts(p2))
    ensures HasDescription(CommonParts(parts)) <==> HasDescription(DiscloseParts(p2))
  {
    hide WellFormed, FiresParts, HasDescription, ResetParts, BoundParts, CapParts, ModifyParts, DiscloseParts;
    var p3 := DiscloseParts(p2);
    Names();
    ResetLeavesFiring(p3);
    var p4 := ResetParts(p3);
    BoundLeavesFiring(p4, REQUEST_DRAW);
    BoundLeavesFiring(BoundParts(p4, REQUEST_DRAW), REQUEST_ELIMINATION);
  }

  /** In terms of the text: the disclosure does not fire there, finds no description, or edits the schema's own. */
  lemma CommonIdempotentWhen(parts: seq<Part>)
    requires WellFormed(parts) && KeywordsEnd(parts)
    ensures var t, d := Render(parts), BeforeDisclosure(Render(parts));
            Common(Common(t)) == Common(t)
            <==> !Fires(d) || First(Description, d).None? || InSchema(d) || !Undisclosed(Reread(d))
  {
    hide WellFormed, KeywordsEnd, Render, Disclose, Common, BeforeDisclosure, Fires, First, InSchema, Undisclosed,
         Reread;
    CommonIdempotentIff(parts);
    DiscloseIdempotentIff(BeforeDisclosure(Render(parts)));
  }

  // ---- Well-formed source on which the sequence is not idempotent ----

  const DESCRIPTION_ONLY := "schema.description" + ("=" + ("unicode\"" + "\";"))

  /** The parts of `Elsewhere()`. */
  function ElsewhereParts(): seq<Part> {
    [Outside(CONTRACT), Declared(SCHEMA, SCHEMA_HEADER, "x"),
     Declared(REQUEST_DRAW, DRAW + "{", DESCRIPTION_ONLY), Outside("}")]
  }

  lemma ElsewhereRenders()
    ensures Render(ElsewhereParts()) == Elsewhere()
  {
    var d := Outside("}");
    var c := Declared(REQUEST_DRAW, DRAW + "{", DESCRIPTION_ONLY);
    var b := Declared(SCHEMA, SCHEMA_HEADER, "x");
    RenderFour(Outside(CONTRACT), b, c, d);
    DescribedSplits();
    Regroup(CONTRACT, SCHEMA_HEADER, DRAW, DESCRIPTION_ONLY);
  }

  lemma RenderFour(a: Part, b: Part, c: Part, d: Part)
    ensures Render([a, b, c, d]) == Text(a) + (Text(b) + (Text(c) + Text(d)))
  {
    hide Text;
    assert [a, b, c, d][1..] == [b, c, d] && [b, c, d][1..] == [c, d] && [c, d][1..] == [d] && [d][1..] == [];
    assert Render([]) == "" && Text(d) + "" == Text(d);
    assert Render([d]) == Text(d);
    assert Render([c, d]) == Text(c) + Text(d);
    assert Render([b, c, d]) == Text(b) + (Text(c) + Text(d));
  }

  lemma DescribedSplits()
    ensures DESCRIBED == DESCRIPTION_ONLY + "}}"
  {
  }

  lemma Regroup(a: string, b: string, c: string, d: string)
    ensures a + ((b + ("x" + "}")) + ((c + "{" + (d + "}")) + "}"))
            == a + (b + ("x" + ("}" + (c + ("{" + (d + "}}"))))))
  {
  }

  /** Text without the letter f and without quotes. */
  lemma PlainTextOk(x: string)
    requires 'f' !in x && '"' !in x
    ensures TextOk(x)
  {
    hide Found, Quoted;
    HeadIsValid();
    NotFound(HEAD, 'f', x);
    QuotedWithout(x);
  }

  /** The letters of a plain header. */
  ghost predicate PlainHeader(header: string) {
    && (forall i :: 0 < i < |header| ==> header[i] != 'f')
    && (forall i :: 0 <= i < |header| ==> header[i] != ';' && header[i] != '}' && header[i] != '"')
    && (forall i :: 0 <= i < |header| - 1 ==> header[i] != '{')
  }

  lemma HeaderTextOk(header: string, h: Header)
    requires HeaderAt(header) == Some(h) && h.length == |header| && PlainHeader(header)
    ensures HeaderOk(h.name, header)
  {
    hide Found, HeaderAt;
    HeadIsValid();
    NotFound(HEAD, 'f', header[1..]);
  }

  lemma SchemaHeaderLetters()
    ensures PlainHeader(SCHEMA_HEADER)
  {
  }

  lemma DrawHeaderLetters()
    ensures PlainHeader("function requestDraw(){")
  {
  }

  lemma SchemaHeaderOk()
    ensures HeaderOk(SCHEMA, SCHEMA_HEADER)
  {
    hide HeaderAt, PlainHeader;
    SchemaMatch("");
    SchemaHeaderLetters();
    assert SCHEMA_HEADER + "" == SCHEMA_HEADER;
    HeaderTextOk(SCHEMA_HEADER, Header(SCHEMA, 22, 23, 25));
  }

  lemma DrawMatch()
    ensures HeaderAt(DRAW + "{") == Some(Header(REQUEST_DRAW, 20, 21, 23))
  {
    hide Skip, HeaderAt;
    var t := "function requestDraw(){";
    assert DRAW + "{" == t;
    SkipIs(t, 8, IsSpace, 9);
    SkipIs(t, 9, IsWord, 20);
    SkipIs(t, 20, IsSpace, 20);
    SkipIs(t, 21, NotClosing, 21);
    SkipIs(t, 22, NotOpeningBrace, 22);
    assert t[9..20] == REQUEST_DRAW && FUNCTION <= t;
    ScannedIsMatch(t, 9, 20, Header(REQUEST_DRAW, 20, 21, 23));
  }

  lemma DrawHeaderOk()
    ensures HeaderOk(REQUEST_DRAW, DRAW + "{")
  {
    hide HeaderAt, PlainHeader;
    DrawMatch();
    DrawHeaderLetters();
    assert DRAW + "{" == "function requestDraw(){";
    HeaderTextOk(DRAW + "{", Header(REQUEST_DRAW, 20, 21, 23));
  }

  lemma DescriptionTextOk()
    ensures TextOk(DESCRIPTION_ONLY) && Balanced(DESCRIPTION_ONLY)
  {
    hide Found, Quoted, At, After;
    DescriptionLetters();
    HeadIsValid();
    NotFound(HEAD, 'f', DESCRIPTION_ONLY);
    forall i | 0 <= i <= |DESCRIPTION_ONLY| && At(OPENING, DESCRIPTION_ONLY[i..]).Some?
      ensures i == 0
    {
      OpensFirst(i);
    }
    DescriptionCloses();
    assert DESCRIPTION_ONLY[0..] == DESCRIPTION_ONLY;
    QuotedAtStart(DESCRIPTION_ONLY);
    PlainTextKeepsDepth(DESCRIPTION_ONLY, "", 1);
    assert DESCRIPTION_ONLY + "" == DESCRIPTION_ONLY;
    NothingRead(1);
  }

  lemma QuotedAtStart(x: string)
    requires forall i :: 0 <= i <= |x| && At(OPENING, x[i..]).Some? ==> i == 0
    requires At(OPENING, x).Some? && Closes(x) && x[0..] == x
    ensures Quoted(x)
  {
    hide At, Closes;
  }

  lemma DescriptionLetters()
    ensures 'f' !in DESCRIPTION_ONLY && NoBraces(DESCRIPTION_ONLY)
  {
    assert 'f' !in "schema.description" && '{' !in "schema.description" && '}' !in "schema.description";
    assert 'f' !in "unicode\"" && '{' !in "unicode\"" && '}' !in "unicode\"";
  }

  lemma OpensFirst(i: nat)
    requires i <= |DESCRIPTION_ONLY| && At(OPENING, DESCRIPTION_ONLY[i..]).Some?
    ensures i == 0
  {
    hide At;
    TargetsAreValid();
    FirstWordAt(OPENING, DESCRIPTION_ONLY, i);
    FirstOfOpening();
    assert DESCRIPTION_ONLY[i + 4] == 'm';
    OnlyOneM(i + 4);
  }

  lemma OnlyOneM(k: nat)
    requires k < |DESCRIPTION_ONLY| && DESCRIPTION_ONLY[k] == 'm'
    ensures k == 4
  {
    assert forall j :: 0 <= j < 18 && j != 4 ==> "schema.description"[j] != 'm';
    assert forall j :: 0 <= j < 8 ==> "unicode\""[j] != 'm';
  }

  lemma DescriptionOpens()
    ensures At(OPENING, DESCRIPTION_ONLY) == Some(27) && |DESCRIPTION_ONLY| > 27 && DESCRIPTION_ONLY[27] == '"'
  {
    hide Skip, EndsInAnchor;
    var t := DESCRIPTION_ONLY;
    var r := "=" + ("unicode\"" + "\";");
    EqualsThenUnicode("\";");
    assert |"schema.description"| == 18 && t[18..] == r;
    assert t[27] == r[9];
  }

  lemma DescriptionCloses()
    ensures At(OPENING, DESCRIPTION_ONLY).Some? && Closes(DESCRIPTION_ONLY)
  {
    hide Skip, At, EndsInAnchor;
    DescriptionOpens();
    ClosesAtOnce(DESCRIPTION_ONLY, 27);
  }

  /** A description without words. */
  lemma ClosesAtOnce(t: string, n: nat)
    requires At(OPENING, t) == Some(n) && n < |t| && t[n] == '"'
    ensures Closes(t)
  {
    hide Skip, At, EndsInAnchor;
    SkipIs(t, n, NotQuote, n);
    assert t[n..n] == "";
    NoWordsEnd();
  }

  lemma NoWordsEnd()
    ensures !EndsInAnchor("")
  {
    hide At;
    TargetsAreValid();
    if EndsInAnchor("") {
      var i :| 0 <= i <= 0 && (EndsAt(ENTRANTS, ""[i..]) || EndsAt(PUBLIC_ENTRANTS, ""[i..]));
      StartsWithFirst(if EndsAt(ENTRANTS, ""[i..]) then ENTRANTS else PUBLIC_ENTRANTS, ""[i..] + ";");
    }
  }

  lemma ElsewhereIsWellFormed()
    ensures WellFormed(ElsewhereParts()) && KeywordsEnd(ElsewhereParts())
  {
    hide HeaderOk, TextOk, ExternalAt, After, Found, At;
    SchemaHeaderOk();
    DrawHeaderOk();
    DescriptionTextOk();
    PlainContract();
    ContractLetters();
    PlainTextOk(CONTRACT);
    PlainTextOk("x");
    PlainTextOk("}");
    assert Balanced("x") by { XIsBalanced(); }
    NoneIsEnter();
  }

  lemma XIsBalanced()
    ensures Balanced("x")
  {
    assert "x"[1..] == "" && After("", 1) == Some(1);
  }

  lemma NotEnter(name: string, header: string)
    requires HeaderOk(name, header) && name != ENTER
    ensures ExternalAt(header).None?
  {
    hide HeaderOk, At;
    EnterIsName();
    NameDecides(ENTER, name, header);
    if At(EXTERNAL, header).Some? {
      ExternalIsEnter(header);
    }
  }

  lemma NoneIsEnter()
    ensures ExternalAt(SCHEMA_HEADER).None? && ExternalAt(DRAW + "{").None?
  {
    hide ExternalAt, HeaderOk;
    Names();
    assert |SCHEMA| == 13;
    SchemaHeaderOk();
    DrawHeaderOk();
    NotEnter(SCHEMA, SCHEMA_HEADER);
    NotEnter(REQUEST_DRAW, DRAW + "{");
  }

  lemma NoEnterInElsewhere()
    ensures BodyIn(ElsewhereParts(), ENTER).None?
  {
    Names();
    assert |SCHEMA| == 13;
    var parts := ElsewhereParts();
    assert parts[1..][0] == parts[1] && parts[2..][0] == parts[2] && parts[3..][0] == parts[3];
    assert parts[1..][1..] == parts[2..] && parts[2..][1..] == parts[3..] && parts[3..][1..] == [];
  }

  /** On this source every application of the patches adds the disclosure again. */
  lemma PatchedTwice()
    ensures WellFormed(ElsewhereParts()) && KeywordsEnd(ElsewhereParts())
    ensures var t := Render(ElsewhereParts()); Common(Common(t)) != Common(t)
  {
    hide WellFormed, KeywordsEnd, Render, ElsewhereParts, Elsewhere, Disclose, Common, BodyIn, Fires, Found, Capped;
    hide NonReentrantAt;
    var t := Render(ElsewhereParts());
    ElsewhereIsWellFormed();
    ElsewhereRenders();
    NoEnterInElsewhere();
    Names();
    FunctionFound(ENTER, ElsewhereParts());
    assert BeforeDisclosure(t) == t;
    CommonIdempotentIff(ElsewhereParts());
    DisclosedTwice();
  }
}
