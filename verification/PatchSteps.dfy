/** How the later patches change the parts: contents grow, tests that succeeded still succeed, and few new ones do. */
module PatchSteps {
  import opened Wrappers
  import opened SolidityText
  import opened Patterns
  import opened FunctionHeads
  import opened Insertions
  import opened FunctionBodies
  import opened SourcePatches
  import opened SourceParts
  import opened SourceTests
  import opened SourceEdits
  import opened PatchTexts
  import opened EditEffects
  import opened DisclosurePatch

  // ---- One content ----

  /** A test that no inserted text can undo. */
  predicate Lasting(p: Pattern) {
    Valid(p) && Never(p, '"') && !IsSpace(Last(p))
  }

  ghost predicate AddsNone(p: Pattern, x: string, y: string) {
    Found(p, y) ==> Found(p, x)
  }

  ghost predicate Keeps(x: string, y: string) {
    forall p :: Lasting(p) && Found(p, x) ==> Found(p, y)
  }

  ghost predicate AddsNoTest(x: string, y: string) {
    AddsNone(PUSH, x, y) && AddsNone(HAS_ENTERED, x, y) && AddsNone(CONSUMER, x, y)
    && AddsNone(ENTRANTS, x, y) && AddsNone(PUBLIC_ENTRANTS, x, y)
  }

  /** What the guards, the reset and the disclosure do to the text they are put into. */
  ghost predicate Gentle(x: string, y: string) {
    Keeps(x, y) && AddsNoTest(x, y) && (x == "" ==> y == "")
  }

  // ---- The guards ----

  /** Words and declarations contain no closing parenthesis, quote or line break. */
  lemma WordPatterns(p: Pattern)
    requires p == PUSH || p == HAS_ENTERED || p == CONSUMER || p == FEE
    ensures Valid(p) && p.rest == [] && p.first[0] != ';'
    ensures !Uses(p, ')') && !Uses(p, '"') && !Uses(p, ';') && !Uses(p, '\n')
  {
    TestsAreValid();
    UsesNone(p, ')');
    UsesNone(p, '"');
    UsesNone(p, ';');
    UsesNone(p, '\n');
    hide Uses, Valid;
    WordLetters(')');
    WordLetters('"');
    WordLetters(';');
    WordLetters('\n');
  }

  lemma WordLetters(c: char)
    requires !IsWord(c) && c != '.'
    ensures c !in "entrants.push" && c !in "hasEntered" && c !in "FlapAIConsumerBase" && c !in "lastDrawFee"
  {
  }

  lemma GuardAddsNoWord(p: Pattern, g: string, body: string)
    requires p == PUSH || p == HAS_ENTERED || p == CONSUMER || p == FEE
    requires !Found(p, g)
    ensures AddsNone(p, body, Guarded(g + GuardEnd(), body))
  {
    hide Found, Valid, Uses, Guarded;
    WordPatterns(p);
    if Found(p, Guarded(g + GuardEnd(), body)) {
      GuardAddsNone(p, g, body);
    }
  }

  lemma GuardAddsNoAnchor(p: Pattern, g: string, body: string)
    requires (p == ENTRANTS || p == PUBLIC_ENTRANTS) && !Found(p, g)
    ensures AddsNone(p, body, Guarded(g + GuardEnd(), body))
  {
    hide Found, Valid, Uses, Guarded;
    TargetsAreValid();
    AnchorsLack(')');
    assert p.first[0] == 'a';
    if Found(p, Guarded(g + GuardEnd(), body)) {
      GuardAddsNone(p, g, body);
    }
  }

  lemma GuardedIsGentle(g: string, body: string)
    requires GuardPasses(g) && body != ""
    ensures Gentle(body, Guarded(g + GuardEnd(), body)) && AddsNone(FEE, body, Guarded(g + GuardEnd(), body))
  {
    hide Found, Valid, Uses, Guarded, Never, Last;
    GuardAddsNoWord(PUSH, g, body);
    GuardAddsNoWord(HAS_ENTERED, g, body);
    GuardAddsNoWord(CONSUMER, g, body);
    GuardAddsNoWord(FEE, g, body);
    GuardAddsNoAnchor(ENTRANTS, g, body);
    GuardAddsNoAnchor(PUBLIC_ENTRANTS, g, body);
    forall p | Lasting(p) && Found(p, body)
      ensures Found(p, Guarded(g + GuardEnd(), body))
    {
      GuardKeeps(p, g + GuardEnd(), body);
    }
  }

  // ---- The reset ----

  lemma ResetAddsNoWordTest(body: string)
    ensures AddsNone(PUSH, body, Extended(body, Reset())) && AddsNone(HAS_ENTERED, body, Extended(body, Reset()))
    ensures AddsNone(CONSUMER, body, Extended(body, Reset()))
  {
    hide Found, Valid, Uses, Extended, Reset;
    var y := Extended(body, Reset());
    WordPatterns(PUSH);
    WordPatterns(HAS_ENTERED);
    WordPatterns(CONSUMER);
    LetterU();
    if Found(PUSH, y) {
      ResetAddsNoWord(PUSH, 'u', body);
    }
    if Found(HAS_ENTERED, y) {
      ResetAddsNoWord(HAS_ENTERED, 'n', body);
    }
    if Found(CONSUMER, y) {
      ResetAddsNoWord(CONSUMER, 'u', body);
    }
  }

  lemma LetterU()
    ensures 'u' in PUSH.first && 'n' in HAS_ENTERED.first && 'u' in CONSUMER.first
    ensures 'E' in HAS_ENTERED.first && 'D' in FEE.first && 'u' in "uint8"
  {
    assert PUSH.first[10] == 'u' && HAS_ENTERED.first[4] == 'n' && CONSUMER.first[10] == 'u';
    assert HAS_ENTERED.first[3] == 'E' && FEE.first[4] == 'D' && "uint8"[0] == 'u';
  }

  lemma ExtendedIsGentle(body: string)
    requires body != ""
    ensures Gentle(body, Extended(body, Reset()))
  {
    hide Found, Valid, Uses, Extended, Reset, Never, Last;
    var y := Extended(body, Reset());
    ResetAddsNoWordTest(body);
    if Found(ENTRANTS, y) {
      ResetAddsNoAnchor(ENTRANTS, body);
    }
    if Found(PUBLIC_ENTRANTS, y) {
      ResetAddsNoAnchor(PUBLIC_ENTRANTS, body);
    }
    forall p | Lasting(p) && Found(p, body)
      ensures Found(p, y)
    {
      ResetKeeps(p, body, Reset());
    }
  }

  // ---- The disclosure ----

  /** The first description of a text: where it opens, how long its opening is, and where it closes. */
  lemma {:induction false} FirstDescription(x: string) returns (j: nat, n: nat)
    requires Quoted(x) && First(Description, x).Some?
    ensures var p := First(Description, x).value;
            && j <= |x| && At(OPENING, x[j..]) == Some(n) && 0 < n && j + n <= p < |x| && x[p] == '"'
            && x[j + n - 1] == '"' && !EndsInAnchor(x[j + n..p])
  {
    hide At, Quoted, EndsInAnchor;
    if DescriptionAt(x).Some? {
      j, n := 0, At(OPENING, x).value;
      DescriptionHere(x);
    } else {
      QuotedSuffix(x, 1);
      j, n := FirstDescription(x[1..]);
      assert x[1..][j..] == x[j + 1..];
      var p := First(Description, x).value;
      assert x[1..][p - 1] == x[p] && x[1..][j + n - 1] == x[j + n];
      assert x[1..][j + n..p - 1] == x[j + 1 + n..p];
      j := j + 1;
    }
  }

  lemma DescriptionHere(x: string)
    requires Quoted(x) && DescriptionAt(x).Some?
    ensures x[0..] == x
    ensures var p, n := DescriptionAt(x).value, At(OPENING, x).value;
            && At(OPENING, x).Some? && 0 < n <= p && x[n - 1] == '"' && !EndsInAnchor(x[n..p])
  {
    hide At;
    TargetsAreValid();
    assert x[0..] == x;
    AtEnds(OPENING, x);
    var p, n := DescriptionAt(x).value, At(OPENING, x).value;
    assert Closes(x);
  }

  lemma CastPatterns(p: Pattern)
    requires p == CAST_N || p == CAST_ENTRANTS || p == CAST_SNAPSHOT
    ensures Valid(p) && Never(p, '"') && !Uses(p, ';') && 'u' in p.first
  {
    hide Valid;
    BodyTestsAreValid();
    LetterU();
    CastLetters(p, '"');
    CastLetters(p, ';');
  }

  lemma CastLetters(p: Pattern, c: char)
    requires p == CAST_N || p == CAST_ENTRANTS || p == CAST_SNAPSHOT
    requires c == '"' || c == ';'
    ensures !Uses(p, c)
  {
    UsesTwo(p, Gap("("), p.rest[1], c);
    hide Uses;
    assert c !in "uint8" && c !in "(" && c !in "n" && c !in "entrants.length" && c !in "drawSnapshot.length";
  }

  ghost predicate AddsNoCast(x: string, y: string) {
    AddsNone(CAST_N, x, y) && AddsNone(CAST_ENTRANTS, x, y) && AddsNone(CAST_SNAPSHOT, x, y)
  }

  lemma DisclosureAddsNoCast(p: Pattern, a: string, b: string)
    requires p == CAST_N || p == CAST_ENTRANTS || p == CAST_SNAPSHOT
    ensures AddsNone(p, a + "\"" + b, a + Disclosure() + ("\"" + b))
  {
    hide Found, Uses, Valid, Disclosure;
    CastPatterns(p);
    if Found(p, a + Disclosure() + ("\"" + b)) {
      DisclosureAddsNone(p, 'u', a, b);
    }
  }

  lemma DisclosureAddsNoWord(p: Pattern, a: string, b: string)
    requires p == PUSH || p == HAS_ENTERED || p == CONSUMER || p == FEE
    ensures AddsNone(p, a + "\"" + b, a + Disclosure() + ("\"" + b))
  {
    hide Found, Uses, Valid, Disclosure;
    WordPatterns(p);
    LetterU();
    if Found(p, a + Disclosure() + ("\"" + b)) {
      DisclosureAddsNone(p, if p == HAS_ENTERED then 'E' else if p == FEE then 'D' else 'u', a, b);
    }
  }

  /** What inserting the disclosure does to the content of a part. */
  lemma DisclosedIsGentle(x: string)
    requires TextOk(x) && First(Description, x).Some?
    ensures var y := InsertFirst(Description, x, Disclosure());
            && TextOk(y) && (Balanced(x) ==> Balanced(y))
            && Gentle(x, y) && AddsNone(FEE, x, y) && AddsNoCast(x, y)
  {
    hide Found, Uses, Valid, Disclosure, Quoted, Balanced, First, Never, Last;
    var j, n := FirstDescription(x);
    var p := First(Description, x).value;
    var a, b := x[..p], x[p + 1..];
    AroundQuote(x, p, Disclosure());
    assert a + "\"" + b == a + ("\"" + b) && a[j + n..] == x[j + n..p];
    DisclosureIsOk(a, b);
    DisclosureAddsLittle(a, b, j, n);
    DisclosureKeepsAll(a, b);
    if Balanced(x) {
      DisclosureHasNoBraces();
      InsertedIsBalanced(a, Disclosure(), "\"" + b);
    }
  }

  lemma DisclosureKeepsAll(a: string, b: string)
    ensures Keeps(a + "\"" + b, a + Disclosure() + ("\"" + b))
  {
    hide Found, Uses, Valid, Disclosure, Last;
    forall p | Lasting(p) && Found(p, a + "\"" + b)
      ensures Found(p, a + Disclosure() + ("\"" + b))
    {
      DisclosureKeeps(p, a, b);
    }
  }

  lemma DisclosureAddsLittle(a: string, b: string, j: nat, n: nat)
    requires 0 < n && j + n <= |a| && a[j + n - 1] == '"' && !EndsInAnchor(a[j + n..])
    ensures var x, y := a + "\"" + b, a + Disclosure() + ("\"" + b);
            AddsNoTest(x, y) && AddsNone(FEE, x, y) && AddsNoCast(x, y)
  {
    hide Found, Uses, Valid, Disclosure;
    var x, y := a + "\"" + b, a + Disclosure() + ("\"" + b);
    assert x == a + ("\"" + b);
    DisclosureAddsNoWord(PUSH, a, b);
    DisclosureAddsNoWord(HAS_ENTERED, a, b);
    DisclosureAddsNoWord(CONSUMER, a, b);
    DisclosureAddsNoWord(FEE, a, b);
    DisclosureAddsNoCast(CAST_N, a, b);
    DisclosureAddsNoCast(CAST_ENTRANTS, a, b);
    DisclosureAddsNoCast(CAST_SNAPSHOT, a, b);
    if Found(ENTRANTS, y) {
      DisclosureAddsNoAnchor(ENTRANTS, a, b, j, n);
    }
    if Found(PUBLIC_ENTRANTS, y) {
      DisclosureAddsNoAnchor(PUBLIC_ENTRANTS, a, b, j, n);
    }
  }

  // ---- All parts ----

  predicate SameFrame(p: Part, q: Part) {
    WithContent(p, "") == WithContent(q, "")
  }

  ghost predicate Edited(parts: seq<Part>, after: seq<Part>) {
    && |after| == |parts|
    && forall i :: 0 <= i < |parts| ==> SameFrame(parts[i], after[i]) && Gentle(Content(parts[i]), Content(after[i]))
  }

  ghost predicate PartsAddNone(p: Pattern, parts: seq<Part>, after: seq<Part>)
    requires |after| == |parts|
  {
    forall i :: 0 <= i < |parts| ==> AddsNone(p, Content(parts[i]), Content(after[i]))
  }

  lemma NothingEdited(parts: seq<Part>)
    ensures Edited(parts, parts) && forall p :: PartsAddNone(p, parts, parts)
  {
    hide Found, Lasting;
  }

  lemma EditedTwice(a: seq<Part>, b: seq<Part>, c: seq<Part>)
    requires Edited(a, b) && Edited(b, c)
    ensures Edited(a, c)
    ensures forall p :: PartsAddNone(p, a, b) && PartsAddNone(p, b, c) ==> PartsAddNone(p, a, c)
  {
    hide Found, Lasting, Gentle, SameFrame;
    forall i | 0 <= i < |a|
      ensures SameFrame(a[i], c[i]) && Gentle(Content(a[i]), Content(c[i]))
    {
      FramesTwice(a[i], b[i], c[i]);
      GentleTwice(Content(a[i]), Content(b[i]), Content(c[i]));
    }
  }

  lemma FramesTwice(p: Part, q: Part, r: Part)
    requires SameFrame(p, q) && SameFrame(q, r)
    ensures SameFrame(p, r)
  {
  }

  lemma GentleTwice(x: string, y: string, z: string)
    requires Gentle(x, y) && Gentle(y, z)
    ensures Gentle(x, z)
  {
    hide Found, Lasting;
  }

  lemma OneEdited(parts: seq<Part>, k: nat, y: string)
    requires k < |parts| && Gentle(Content(parts[k]), y)
    ensures var after := parts[k := WithContent(parts[k], y)];
            Edited(parts, after) && forall p :: AddsNone(p, Content(parts[k]), y) ==> PartsAddNone(p, parts, after)
  {
    hide Found, Lasting;
  }

  /** A test that lasts still succeeds. */
  lemma TestLasts(p: Pattern, parts: seq<Part>, after: seq<Part>)
    requires Edited(parts, after) && Lasting(p) && FoundParts(p, parts)
    ensures FoundParts(p, after)
  {
    hide Found, Lasting, AddsNoTest;
    var i :| 0 <= i < |parts| && FoundIn(p, parts[i]);
    assert SameFrame(parts[i], after[i]) && Gentle(Content(parts[i]), Content(after[i]));
    assert FoundIn(p, after[i]);
  }

  /** A test the edits do not add succeeded before. */
  lemma TestIsOld(p: Pattern, parts: seq<Part>, after: seq<Part>)
    requires Edited(parts, after) && PartsAddNone(p, parts, after) && FoundParts(p, after)
    ensures FoundParts(p, parts)
  {
    hide Found, Gentle;
    var i :| 0 <= i < |after| && FoundIn(p, after[i]);
    assert SameFrame(parts[i], after[i]) && AddsNone(p, Content(parts[i]), Content(after[i]));
    assert FoundIn(p, parts[i]);
  }

  /** Every function keeps its name and header, and its body changes gently. */
  lemma {:induction false} BodyEdited(parts: seq<Part>, after: seq<Part>, name: string)
    requires Edited(parts, after)
    ensures BodyIn(after, name).Some? <==> BodyIn(parts, name).Some?
    ensures BodyIn(parts, name).Some? ==> Gentle(BodyIn(parts, name).value, BodyIn(after, name).value)
    ensures forall p :: PartsAddNone(p, parts, after) && BodyIn(parts, name).Some? ==>
                          AddsNone(p, BodyIn(parts, name).value, BodyIn(after, name).value)
  {
    hide Found, Gentle, AddsNone;
    if parts != [] {
      assert SameFrame(parts[0], after[0]);
      TailEdited(parts, after);
      BodyEdited(parts[1..], after[1..], name);
    }
  }

  lemma TailEdited(parts: seq<Part>, after: seq<Part>)
    requires Edited(parts, after) && parts != []
    ensures Edited(parts[1..], after[1..])
    ensures forall p :: PartsAddNone(p, parts, after) ==> PartsAddNone(p, parts[1..], after[1..])
  {
    hide Found, Gentle, AddsNone;
  }

  lemma HeadersEdited(q: string -> bool, parts: seq<Part>, after: seq<Part>)
    requires Edited(parts, after)
    ensures SomeHeader(q, after) <==> SomeHeader(q, parts)
  {
    hide Gentle;
    assert forall i :: 0 <= i < |parts| ==> SameFrame(parts[i], after[i]);
  }
}
