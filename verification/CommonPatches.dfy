/** The patches applied to every generated source, in their order, and what applying them again does. */
module CommonPatches {
  import opened Wrappers
  import opened SolidityText
  import opened Patterns
  import opened FunctionHeads
  import opened Insertions
  import opened FunctionBodies
  import opened SourcePatches
  import opened SourceParts
  import opened SourceTests
  import opened SourceEdits
  import opened EnterModifier
  import opened PatchTexts
  import opened EditEffects
  import opened DisclosurePatch
  import opened PatchSteps

  const FULFILL := "_fulfillReasoning"
  const REQUEST_ELIMINATION := "requestElimination"

  // ---- The patches ----

  ghost predicate Capped(t: string) {
    Found(MAX_ENTRANTS, t) || Found(BELOW_255, t) || Found(BELOW_MAX, t)
  }

  ghost predicate Checked(body: string) {
    Found(MAX_ENTRANTS, body) || Found(ANY_BELOW_255, body)
  }

  function WithCap(body: string): string {
    Guarded(CapGuard() + GuardEnd(), body)
  }

  /** The tests of `patchEntrantCap` on the whole text. */
  ghost predicate Caps(t: string) {
    Found(Named(ENTER), t) && Found(PUSH, t) && !Capped(t)
  }

  /** `patchEntrantCap`. */
  ghost function EntrantCap(t: string): string {
    if !Caps(t) then t
    else Patch(InsertFirst(Anchor, t, CapDeclaration()), ENTER, Checked, WithCap)
  }

  /** `patchEnterNonReentrant`. */
  ghost function NonReentrant(t: string): string {
    if !Found(Named(ENTER), t) || !(Found(PUSH, t) || Found(HAS_ENTERED, t)) || Somewhere(NonReentrantAt, t) then t
    else AddModifier(t)
  }

  ghost predicate Resets(body: string) {
    Found(FEE_RESET, body)
  }

  function WithReset(body: string): string {
    Extended(body, Reset())
  }

  ghost function ResetFee(t: string): string {
    if Found(CONSUMER, t) && Found(FEE, t) then Patch(t, FULFILL, Resets, WithReset) else t
  }

  /** Nothing is cast to a byte, or the count is bounded. */
  ghost predicate Bounded(body: string) {
    !(Found(CAST_N, body) || Found(CAST_ENTRANTS, body) || Found(CAST_SNAPSHOT, body))
    || Found(AT_MOST_255, body) || Found(AT_MOST_MAX, body) || Found(MAX_ENTRANTS, body)
  }

  ghost function CountCheck(body: string): string {
    if Found(SNAPSHOT, body) then SnapshotGuard() else CountGuard()
  }

  ghost function WithCheck(body: string): string {
    Guarded(CountCheck(body) + GuardEnd(), body)
  }

  ghost function BoundCount(t: string, name: string): string {
    Patch(t, name, Bounded, b => WithCheck(b))
  }

  /** The text the disclosure patch is applied to. */
  ghost function BeforeDisclosure(t: string): string {
    NonReentrant(EntrantCap(t))
  }

  /** `applyCommonCodegenPatches`. */
  ghost function Common(t: string): string {
    BoundCount(BoundCount(ResetFee(Disclose(BeforeDisclosure(t))), REQUEST_DRAW), REQUEST_ELIMINATION)
  }

  // ---- The same steps on parts ----

  ghost predicate CappedParts(parts: seq<Part>) {
    FoundParts(MAX_ENTRANTS, parts) || FoundParts(BELOW_255, parts) || FoundParts(BELOW_MAX, parts)
  }

  ghost function CapParts(parts: seq<Part>): seq<Part> {
    if BodyIn(parts, ENTER).None? || !FoundParts(PUSH, parts) || CappedParts(parts) then parts
    else PatchParts(InsertParts(Anchor, parts, CapDeclaration()), ENTER, Checked, WithCap)
  }

  ghost function ModifyParts(parts: seq<Part>): seq<Part> {
    if BodyIn(parts, ENTER).None? || !(FoundParts(PUSH, parts) || FoundParts(HAS_ENTERED, parts))
       || SomeHeader(NonReentrantAt, parts)
    then parts else ModifierParts(parts)
  }

  ghost predicate FiresParts(parts: seq<Part>) {
    FoundParts(CONSUMER, parts) && BodyIn(parts, REQUEST_DRAW).Some?
    && BodyIn(parts, SCHEMA).Some? && Undisclosed(BodyIn(parts, SCHEMA).value)
  }

  ghost function DiscloseParts(parts: seq<Part>): seq<Part> {
    if FiresParts(parts) then InsertParts(Description, parts, Disclosure()) else parts
  }

  ghost function ResetParts(parts: seq<Part>): seq<Part> {
    if FoundParts(CONSUMER, parts) && FoundParts(FEE, parts) then PatchParts(parts, FULFILL, Resets, WithReset)
    else parts
  }

  ghost function BoundParts(parts: seq<Part>, name: string): seq<Part> {
    PatchParts(parts, name, Bounded, b => WithCheck(b))
  }

  ghost function CommonParts(parts: seq<Part>): seq<Part> {
    BoundParts(BoundParts(ResetParts(DiscloseParts(ModifyParts(CapParts(parts)))), REQUEST_DRAW), REQUEST_ELIMINATION)
  }

  // ---- The tests agree ----

  lemma Names()
    ensures IsName(ENTER) && IsName(REQUEST_DRAW)
    ensures ENTER != FULFILL && ENTER != REQUEST_DRAW && ENTER != REQUEST_ELIMINATION
    ensures FULFILL != REQUEST_DRAW && FULFILL != REQUEST_ELIMINATION && REQUEST_DRAW != REQUEST_ELIMINATION
    ensures SCHEMA != FULFILL && SCHEMA != REQUEST_DRAW && SCHEMA != REQUEST_ELIMINATION
  {
    assert |ENTER| == 5 && |FULFILL| == 17 && |REQUEST_DRAW| == 11 && |REQUEST_ELIMINATION| == 18 && |SCHEMA| == 13;
  }

  lemma WordsArePassive(p: Pattern)
    requires p == PUSH || p == HAS_ENTERED || p == CONSUMER || p == FEE || p == MAX_ENTRANTS
    ensures Passive(p)
  {
    TestsAreValid();
    forall c | Stops(c)
      ensures !Uses(p, c) && !IsSpace(c)
    {
      UsesNone(p, c);
      PassiveWord(c);
    }
  }

  lemma PassiveWord(c: char)
    requires Stops(c)
    ensures c !in "entrants.push" && c !in "hasEntered" && c !in "FlapAIConsumerBase" && c !in "lastDrawFee"
    ensures c !in "MAX_ENTRANTS" && !IsSpace(c)
  {
    if c == 'f' {
      NoFInWords();
    } else {
      WordLetters(c);
    }
  }

  lemma NoFInWords()
    ensures 'f' !in "entrants.push" && 'f' !in "hasEntered" && 'f' !in "FlapAIConsumerBase" && 'f' !in "lastDrawFee"
  {
  }

  /** Tests of literal words without braces and the letter f are passive. */
  lemma LiteralsArePassive(p: Pattern)
    requires Valid(p) && (forall q :: q in p.rest ==> q.word.Literal?)
    requires forall c :: Stops(c) ==> c !in p.first && forall q :: q in p.rest && q.word.Literal? ==> c !in q.word.text
    ensures Passive(p)
  {
    hide Valid;
    assert !IsSpace('{') && !IsSpace('}') && !IsSpace('f');
  }

  lemma BoundsArePassive()
    ensures Passive(BELOW_255) && Passive(BELOW_MAX)
  {
    hide Valid, Uses, Passive, Sane;
    TestsAreValid();
    forall c | Stops(c)
      ensures c !in "entrants.length" && c !in "<" && c !in "255"
      ensures c !in "type" && c !in "(" && c !in "uint8" && c !in ").max"
    {
      NoStopsInBounds(c);
    }
    LiteralsArePassive(BELOW_255);
    LiteralsArePassive(BELOW_MAX);
  }

  lemma NoStopsInBounds(c: char)
    requires Stops(c)
    ensures c !in "entrants.length" && c !in "<" && c !in "255"
    ensures c !in "type" && c !in "(" && c !in "uint8" && c !in ").max"
  {
    if c == '{' {
      assert '{' !in "entrants.length" && '{' !in "type" && '{' !in "uint8" && '{' !in ").max";
    } else if c == '}' {
      assert '}' !in "entrants.length" && '}' !in "type" && '}' !in "uint8" && '}' !in ").max";
    } else {
      assert 'f' !in "entrants.length" && 'f' !in "type" && 'f' !in "uint8" && 'f' !in ").max";
    }
  }

  lemma FunctionFound(name: string, parts: seq<Part>)
    requires IsName(name) && WellFormed(parts)
    ensures Found(Named(name), Render(parts)) <==> BodyIn(parts, name).Some?
  {
    hide WellFormed, At, Render;
    FunctionTest(name, parts);
    SomewhereIsFound(Named(name), Render(parts));
  }

  lemma SomewhereIsFound(p: Pattern, t: string)
    ensures Found(p, t) <==> Somewhere(x => At(p, x).Some?, t)
  {
    hide At;
    if Found(p, t) {
      var i :| 0 <= i <= |t| && At(p, t[i..]).Some?;
      assert (x => At(p, x).Some?)(t[i..]);
    }
    if Somewhere(x => At(p, x).Some?, t) {
      var i :| 0 <= i <= |t| && (x => At(p, x).Some?)(t[i..]);
      FoundHere(p, t, i);
    }
  }

  lemma CapInRender(parts: seq<Part>)
    requires WellFormed(parts)
    ensures EntrantCap(Render(parts)) == Render(CapParts(parts)) && WellFormed(CapParts(parts))
  {
    hide WellFormed, Found, Render, Patch, PatchParts, InsertFirst, InsertParts, Passive, CapDeclaration, FoundParts,
         BodyIn;
    CapTestsInRender(parts);
    var inserted := InsertParts(Anchor, parts, CapDeclaration());
    InsertInRender(Anchor, parts, CapDeclaration());
    AnchorsStayOk(parts);
    PatchInRender(inserted, ENTER, Checked, WithCap);
    CheckStaysOk(inserted);
  }

  lemma CapTestsInRender(parts: seq<Part>)
    requires WellFormed(parts)
    ensures Found(Named(ENTER), Render(parts)) <==> BodyIn(parts, ENTER).Some?
    ensures Found(PUSH, Render(parts)) <==> FoundParts(PUSH, parts)
    ensures Found(HAS_ENTERED, Render(parts)) <==> FoundParts(HAS_ENTERED, parts)
    ensures Capped(Render(parts)) <==> CappedParts(parts)
  {
    hide WellFormed, Found, Render, Passive, FoundParts, BodyIn;
    Names();
    FunctionFound(ENTER, parts);
    WordsArePassive(PUSH);
    WordsArePassive(HAS_ENTERED);
    WordsArePassive(MAX_ENTRANTS);
    BoundsArePassive();
    FoundInRender(PUSH, parts);
    FoundInRender(HAS_ENTERED, parts);
    FoundInRender(MAX_ENTRANTS, parts);
    FoundInRender(BELOW_255, parts);
    FoundInRender(BELOW_MAX, parts);
  }

  // ---- The entrant cap ----

  lemma {:induction false} AnchorEnds(x: string)
    requires First(Anchor, x).Some?
    ensures 0 < First(Anchor, x).value && x[First(Anchor, x).value - 1] == ';'
    ensures Found(ENTRANTS, x) || Found(PUBLIC_ENTRANTS, x)
  {
    hide At, Found;
    TargetsAreValid();
    assert x[0..] == x;
    if At(ENTRANTS, x).Some? {
      AtEnds(ENTRANTS, x);
      FoundHere(ENTRANTS, x, 0);
    } else if At(PUBLIC_ENTRANTS, x).Some? {
      AtEnds(PUBLIC_ENTRANTS, x);
      FoundHere(PUBLIC_ENTRANTS, x, 0);
    } else {
      AnchorEnds(x[1..]);
      AnchorBehind(ENTRANTS, x);
      AnchorBehind(PUBLIC_ENTRANTS, x);
    }
  }

  lemma AnchorBehind(p: Pattern, x: string)
    requires x != ""
    ensures Found(p, x[1..]) ==> Found(p, x)
  {
    hide At;
    if Found(p, x[1..]) {
      var i :| 0 <= i <= |x[1..]| && At(p, x[1..][i..]).Some?;
      assert x[1..][i..] == x[i + 1..];
    }
  }

  lemma {:induction false} AnchorFound(p: Pattern, x: string)
    requires (p == ENTRANTS || p == PUBLIC_ENTRANTS) && First(Anchor, x).None?
    ensures !Found(p, x)
  {
    hide At;
    if Found(p, x) {
      var i := FoundAt(p, x);
      if i == 0 {
        NoAnchorHere(p, x);
      } else {
        assert x[1..][i - 1..] == x[i..];
        FoundHere(p, x[1..], i - 1);
        AnchorFound(p, x[1..]);
      }
    }
  }

  lemma NoAnchorHere(p: Pattern, x: string)
    requires (p == ENTRANTS || p == PUBLIC_ENTRANTS) && First(Anchor, x).None?
    ensures At(p, x[0..]).None?
  {
    hide At;
    TargetsAreValid();
    assert x[0..] == x;
    if x == "" && At(p, x).Some? {
      StartsWithFirst(p, x);
    }
  }

  lemma DeclaredCapIsOk(x: string)
    requires TextOk(x) && First(Anchor, x).Some?
    ensures var y := InsertFirst(Anchor, x, CapDeclaration());
            && TextOk(y) && (Balanced(x) ==> Balanced(y)) && Found(MAX_ENTRANTS, y)
  {
    hide Found, Valid, CapDeclaration, Quoted, Balanced, First, Lacks;
    AnchorEnds(x);
    var p := First(Anchor, x).value;
    var a, b := x[..p], x[p..];
    assert x == a + b && InsertFirst(Anchor, x, CapDeclaration()) == a + CapDeclaration() + b;
    DeclarationIsOk(a, b);
    TestsAreValid();
    DeclarationCaps();
    FoundWithin(MAX_ENTRANTS, a, CapDeclaration(), b);
    if Balanced(x) {
      DeclarationHasNoBraces();
      InsertedIsBalanced(a, CapDeclaration(), b);
    }
  }

  lemma DeclarationHasNoBraces()
    ensures NoBraces(CapDeclaration())
  {
    hide CapDeclaration;
    DeclarationLetters();
  }

  lemma DeclarationCaps()
    ensures Found(MAX_ENTRANTS, CapDeclaration())
  {
    DeclarationParts();
    var a, b := "\n    uint256 public con", "stant MAX_ENTRANTS = 255;";
    assert CapDeclaration()[|a| + 6..] == b[6..];
    assert MAX_ENTRANTS.first <= b[6..];
    FoundHere(MAX_ENTRANTS, CapDeclaration(), |a| + 6);
  }

  lemma AnchorsStayOk(parts: seq<Part>)
    requires WellFormed(parts)
    ensures WellFormed(InsertParts(Anchor, parts, CapDeclaration()))
  {
    hide WellFormed, First, TextOk, Balanced, HeaderOk, InsertFirst, CapDeclaration, Found;
    var at := InsertedAt(Anchor, parts, CapDeclaration());
    if at.Some? {
      var p := parts[at.value];
      BodyOk(parts, at.value);
      DeclaredCapIsOk(Content(p));
      OnePartOk(parts, at.value, WithContent(p, InsertFirst(Anchor, Content(p), CapDeclaration())));
    }
  }

  lemma BodyInIsOk(parts: seq<Part>, name: string)
    requires WellFormed(parts) && BodyIn(parts, name).Some?
    ensures TextOk(BodyIn(parts, name).value) && Balanced(BodyIn(parts, name).value)
  {
    hide WellFormed, TextOk, Balanced, HeaderOk;
    var k := WithBodyAt(parts, name, "");
    BodyOk(parts, k);
  }

  lemma CheckStaysOk(parts: seq<Part>)
    requires WellFormed(parts)
    ensures WellFormed(PatchParts(parts, ENTER, Checked, WithCap))
  {
    hide WellFormed, TextOk, Balanced, HeaderOk, Found, Checked, CapGuard, BodyIn, WithBody, Guarded;
    var b := BodyIn(parts, ENTER);
    if b.Some? && b.value != "" && !Checked(b.value) {
      BodyInIsOk(parts, ENTER);
      CapGuardPasses();
      CapGuardHasNoBraces();
      GuardedIsOk(CapGuard(), b.value);
      WithBodyOk(parts, ENTER, WithCap(b.value));
    }
  }

  lemma CapGuardHasNoBraces()
    ensures NoBraces(CapGuard())
  {
    hide CapGuard;
    CapGuardLetters();
  }

  // ---- The modifier ----

  lemma ModifyInRender(parts: seq<Part>)
    requires WellFormed(parts)
    ensures NonReentrant(Render(parts)) == Render(ModifyParts(parts)) && WellFormed(ModifyParts(parts))
  {
    hide WellFormed, Found, Render, FoundParts, BodyIn, AddModifier, ModifierParts, NonReentrantAt;
    CapTestsInRender(parts);
    ModifierTest(parts);
    ModifyRender(parts);
    ModifiedOk(parts);
  }

  // ---- The disclosure ----

  lemma {:induction false} SchemaPast(x: string, rest: string)
    requires NoHeadFrom(x, rest)
    ensures SchemaBody(x + rest) == SchemaBody(rest)
    decreases |x|
  {
    hide At, HeaderAt, BodyAt;
    if x == "" {
      assert x + rest == rest;
    } else {
      var t := x + rest;
      assert x[0..] + rest == t;
      if HeaderAt(t).Some? {
        HeaderIsHead(t);
      }
      assert t[1..] == x[1..] + rest;
      assert NoHeadFrom(x[1..], rest) by {
        assert forall i :: 0 <= i < |x[1..]| ==> x[1..][i..] == x[i + 1..];
      }
      SchemaPast(x[1..], rest);
      if NamePos(t[1..], SCHEMA).Some? {
        ShiftBody(t, 1, NamePos(t[1..], SCHEMA).value);
      }
    }
  }

  lemma SchemaInFunction(d: Part, rest: string)
    requires d.Declared? && PartOk(d)
    ensures SchemaBody(Text(d) + rest) == if d.name == SCHEMA then d.body else SchemaBody(rest)
  {
    hide At, HeaderAt, NoHeadFrom, Balanced, Found, BodyOf, SchemaBody;
    var t := d.header + (d.body + "}" + rest);
    assert Text(d) + rest == t;
    DeclaredText(d, rest);
    if d.name == SCHEMA {
      SchemaHere(t);
    } else {
      NoHeadInHeader(d.name, d.header, d.body + "}" + rest);
      NoHeadInBody(d.body, rest);
      SchemaPast(d.body + "}", rest);
      SchemaPast(d.header[1..], d.body + "}" + rest);
      assert t[1..] == d.header[1..] + (d.body + "}" + rest);
      SchemaNotHere(t);
    }
  }

  lemma SchemaHere(t: string)
    requires HeaderAt(t).Some? && HeaderAt(t).value.name == SCHEMA
    ensures SchemaBody(t) == BodyOf(t[HeaderAt(t).value.length..])
  {
    hide HeaderAt, BodyOf;
    assert t[0..] == t;
  }

  lemma SchemaNotHere(t: string)
    requires HeaderAt(t).Some? && HeaderAt(t).value.name != SCHEMA
    ensures t != "" && SchemaBody(t) == SchemaBody(t[1..])
  {
    hide HeaderAt, BodyAt;
    if NamePos(t[1..], SCHEMA).Some? {
      ShiftBody(t, 1, NamePos(t[1..], SCHEMA).value);
    }
  }

  /** The schema body the patch tests is the body of the first function of that name. */
  lemma {:induction false} SchemaInRender(parts: seq<Part>)
    requires WellFormed(parts)
    ensures SchemaBody(Render(parts)) == match BodyIn(parts, SCHEMA) case None => "" case Some(b) => b
  {
    hide WellFormed, PartOk, NoHeadFrom, SchemaBody;
    if parts == [] {
      NoSchema();
    } else {
      Tail(parts);
      SchemaInRender(parts[1..]);
      if parts[0].Outside? {
        NoHeadOutside(parts);
        SchemaPast(parts[0].text, Render(parts[1..]));
      } else {
        SchemaInFunction(parts[0], Render(parts[1..]));
      }
    }
  }

  lemma NoSchema()
    ensures SchemaBody("") == ""
  {
  }

  lemma FiresInRender(parts: seq<Part>)
    requires WellFormed(parts)
    ensures Fires(Render(parts)) <==> FiresParts(parts)
  {
    hide WellFormed, Found, Render, Passive, FoundParts, BodyIn, SchemaBody, Discloses;
    Names();
    FunctionFound(REQUEST_DRAW, parts);
    WordsArePassive(CONSUMER);
    FoundInRender(CONSUMER, parts);
    SchemaInRender(parts);
  }

  lemma DiscloseInRender(parts: seq<Part>)
    requires WellFormed(parts)
    ensures Disclose(Render(parts)) == Render(DiscloseParts(parts)) && WellFormed(DiscloseParts(parts))
    ensures Edited(parts, DiscloseParts(parts)) && PartsAddNone(FEE, parts, DiscloseParts(parts))
    ensures PartsAddNone(CAST_N, parts, DiscloseParts(parts))
    ensures PartsAddNone(CAST_ENTRANTS, parts, DiscloseParts(parts))
    ensures PartsAddNone(CAST_SNAPSHOT, parts, DiscloseParts(parts))
  {
    hide WellFormed, FiresParts, Fires, Render, InsertFirst, InsertParts, Disclosure, First, TextOk, Balanced, HeaderOk;
    hide Gentle, AddsNone, Edited, PartsAddNone;
    FiresInRender(parts);
    InsertInRender(Description, parts, Disclosure());
    NothingEdited(parts);
    var at := InsertedAt(Description, parts, Disclosure());
    if at.Some? {
      var p := parts[at.value];
      BodyOk(parts, at.value);
      DisclosedIsGentle(Content(p));
      var y := InsertFirst(Description, Content(p), Disclosure());
      OnePartOk(parts, at.value, WithContent(p, y));
      OneEdited(parts, at.value, y);
    }
  }

  // ---- The body patches ----

  /** A body patch whose edit is gentle and keeps the text in order. */
  lemma BodyPatched(parts: seq<Part>, name: string, done: string -> bool, edit: string -> string)
    requires WellFormed(parts)
    requires forall b :: b != "" && !done(b) && TextOk(b) && Balanced(b) ==>
                           TextOk(edit(b)) && Balanced(edit(b)) && Gentle(b, edit(b))
    ensures WellFormed(PatchParts(parts, name, done, edit)) && Edited(parts, PatchParts(parts, name, done, edit))
  {
    hide WellFormed, Gentle, Edited, TextOk, Balanced, BodyIn, WithBody;
    NothingEdited(parts);
    var b := BodyIn(parts, name);
    if b.Some? && b.value != "" && !done(b.value) {
      BodyInIsOk(parts, name);
      WithBodyOk(parts, name, edit(b.value));
      var k := WithBodyAt(parts, name, edit(b.value));
      OneEdited(parts, k, edit(b.value));
    }
  }

  lemma PatchAddsNone(p: Pattern, parts: seq<Part>, name: string, done: string -> bool, edit: string -> string)
    requires forall b :: b != "" && !done(b) ==> AddsNone(p, b, edit(b))
    ensures |PatchParts(parts, name, done, edit)| == |parts|
    ensures PartsAddNone(p, parts, PatchParts(parts, name, done, edit))
  {
    hide Found, BodyIn, WithBody;
    var b := BodyIn(parts, name);
    if b.Some? && b.value != "" && !done(b.value) {
      var k := WithBodyAt(parts, name, edit(b.value));
    }
  }

  lemma ResetInRender(parts: seq<Part>)
    requires WellFormed(parts)
    ensures ResetFee(Render(parts)) == Render(ResetParts(parts)) && WellFormed(ResetParts(parts))
    ensures Edited(parts, ResetParts(parts))
  {
    hide WellFormed, Found, Render, Passive, FoundParts, Gentle, Edited, TextOk, Balanced, Patch, PatchParts, Reset,
         Extended;
    WordsArePassive(CONSUMER);
    WordsArePassive(FEE);
    FoundInRender(CONSUMER, parts);
    FoundInRender(FEE, parts);
    PatchInRender(parts, FULFILL, Resets, WithReset);
    NothingEdited(parts);
    forall b | b != "" && !Resets(b) && TextOk(b) && Balanced(b)
      ensures TextOk(WithReset(b)) && Balanced(WithReset(b)) && Gentle(b, WithReset(b))
    {
      ExtendedIsOk(b);
      ExtendedIsGentle(b);
    }
    BodyPatched(parts, FULFILL, Resets, WithReset);
  }

  lemma CheckPasses(body: string)
    ensures GuardPasses(CountCheck(body)) && NoBraces(CountCheck(body))
  {
    hide GuardPasses, SnapshotGuard, CountGuard, Lacks, Found;
    SnapshotGuardPasses();
    CountGuardPasses();
    SnapshotGuardLetters();
    CountGuardLetters();
    BracesLack(SnapshotGuard());
    FewerLetters(CountGuard());
    BracesLack(CountGuard());
  }

  lemma BracesLack(g: string)
    requires Lacks(g, InGuard)
    ensures NoBraces(g)
  {
  }

  lemma CheckedIsGentle(b: string)
    requires b != ""
    ensures Gentle(b, WithCheck(b)) && AddsNone(FEE, b, WithCheck(b))
    ensures TextOk(b) && Balanced(b) ==> TextOk(WithCheck(b)) && Balanced(WithCheck(b))
  {
    hide Gentle, TextOk, Balanced, CountCheck, Guarded, Found, AddsNone;
    CheckPasses(b);
    GuardedIsGentle(CountCheck(b), b);
    if TextOk(b) && Balanced(b) {
      GuardedIsOk(CountCheck(b), b);
    }
  }

  lemma BoundInRender(parts: seq<Part>, name: string)
    requires WellFormed(parts)
    ensures BoundCount(Render(parts), name) == Render(BoundParts(parts, name)) && WellFormed(BoundParts(parts, name))
    ensures Edited(parts, BoundParts(parts, name)) && PartsAddNone(FEE, parts, BoundParts(parts, name))
  {
    hide WellFormed, Render, Gentle, Edited, TextOk, Balanced, Patch, PatchParts, WithCheck, Bounded, AddsNone,
         PartsAddNone;
    var edit := b => WithCheck(b);
    PatchInRender(parts, name, Bounded, edit);
    forall b | b != "" && !Bounded(b)
      ensures Gentle(b, edit(b)) && AddsNone(FEE, b, edit(b))
      ensures TextOk(b) && Balanced(b) ==> TextOk(edit(b)) && Balanced(edit(b))
    {
      CheckedIsGentle(b);
    }
    BodyPatched(parts, name, Bounded, edit);
    PatchAddsNone(FEE, parts, name, Bounded, edit);
  }

  /** On well-formed source the patches are the steps on its parts. */
  lemma CommonInRender(parts: seq<Part>)
    requires WellFormed(parts)
    ensures Common(Render(parts)) == Render(CommonParts(parts)) && WellFormed(CommonParts(parts))
  {
    hide WellFormed, Render, EntrantCap, CapParts, NonReentrant, ModifyParts, Disclose, DiscloseParts, ResetFee,
         ResetParts;
    hide BoundCount, BoundParts, Edited, PartsAddNone;
    CapInRender(parts);
    var p1 := CapParts(parts);
    ModifyInRender(p1);
    var p2 := ModifyParts(p1);
    DiscloseInRender(p2);
    var p3 := DiscloseParts(p2);
    ResetInRender(p3);
    var p4 := ResetParts(p3);
    BoundInRender(p4, REQUEST_DRAW);
    BoundInRender(BoundParts(p4, REQUEST_DRAW), REQUEST_ELIMINATION);
  }
}
