/** Each patch leaves itself nothing to do, and the later ones leave the earlier ones nothing to do. */
module PatchSettling {
  import opened Wrappers
  import opened SolidityText
  import opened Patterns
  import opened FunctionHeads
  import opened Insertions
  import opened FunctionBodies
  import opened SourceEditing
  import opened SourcePatches
  import opened SourceParts
  import opened SourceTests
  import opened SourceEdits
  import opened EnterModifier
  import opened PatchTexts
  import opened EditEffects
  import opened DisclosurePatch
  import opened PatchSteps
  import opened CommonPatches

  // ---- Tests that last ----

  lemma WordLasts(p: Pattern)
    requires p.rest == [] && Plain(p.first) && '"' !in p.first && !IsSpace(p.first[|p.first| - 1])
    ensures Lasting(p)
  {
    UsesNone(p, '"');
  }

  lemma PiecesLast(p: Pattern, a: string, b: string)
    requires p.rest == [Gap(a), Gap(b)] && Plain(p.first) && Plain(a) && Plain(b) && !IsSpace(b[|b| - 1])
    requires '"' !in p.first && '"' !in a && '"' !in b
    ensures Lasting(p)
  {
    ThreeAreSane(Gap(a), Gap(b));
    UsesTwo(p, Gap(a), Gap(b), '"');
    assert p.rest != [];
    hide Uses, Sane;
  }

  lemma CapTestsLast()
    ensures Lasting(MAX_ENTRANTS) && Lasting(BELOW_255) && Lasting(ANY_BELOW_255)
  {
    hide Lasting;
    NoQuotes();
    assert "MAX_ENTRANTS"[11] == 'S';
    WordLasts(MAX_ENTRANTS);
    PiecesLast(BELOW_255, "<", "255");
    PiecesLast(ANY_BELOW_255, "<", "255");
  }

  lemma NoQuotes()
    ensures '"' !in "MAX_ENTRANTS" && '"' !in "entrants.length" && '"' !in ".length" && '"' !in "lastDrawFee"
    ensures '"' !in "<" && '"' !in "255" && '"' !in "=" && '"' !in "0" && '"' !in "<="
  {
  }

  lemma ResetTestLasts()
    ensures Lasting(FEE_RESET) && Lasting(CONSUMER)
  {
    hide Lasting;
    NoQuotes();
    ConsumerLetters();
    assert "FlapAIConsumerBase"[17] == 'e';
    WordLasts(CONSUMER);
    PiecesLast(FEE_RESET, "=", "0");
  }

  lemma LimitLast()
    ensures var ps := [Gap("type"), Gap("("), Gap("uint8"), Gap(").max")];
            Sane(ps) && LastOf(ps) == 'x' && forall q :: q in ps ==> !WordUses(q.word, '"')
  {
    var ps := [Gap("type"), Gap("("), Gap("uint8"), Gap(").max")];
    assert ps[1..] == [Gap("("), Gap("uint8"), Gap(").max")];
    assert ps[1..][1..] == [Gap("uint8"), Gap(").max")];
    ThreeAreSane(Gap("uint8"), Gap(").max"));
  }

  lemma MaximumsLast()
    ensures Lasting(BELOW_MAX) && Lasting(AT_MOST_MAX)
  {
    LimitLast();
    NoQuotes();
    var ps := [Gap("type"), Gap("("), Gap("uint8"), Gap(").max")];
    assert BELOW_MAX.rest == [Gap("<")] + ps && BELOW_MAX.rest[1..] == ps;
    assert AT_MOST_MAX.rest == ps;
  }

  lemma AtMostLasts()
    ensures Lasting(AT_MOST_255)
  {
    BoundsAreValid();
    UsesOne(AT_MOST_255, Gap("255"), '"');
    NoQuotes();
  }

  // ---- A step with nothing to do ----

  ghost predicate NoAnchors(parts: seq<Part>) {
    forall i :: 0 <= i < |parts| ==> First(Anchor, Content(parts[i])).None?
  }

  ghost predicate CapDone(parts: seq<Part>) {
    BodyIn(parts, ENTER).None? || !FoundParts(PUSH, parts) || CappedParts(parts)
    || (NoAnchors(parts) && (BodyIn(parts, ENTER).value == "" || Checked(BodyIn(parts, ENTER).value)))
  }

  ghost predicate ModifierDone(parts: seq<Part>) {
    BodyIn(parts, ENTER).None? || !(FoundParts(PUSH, parts) || FoundParts(HAS_ENTERED, parts))
    || SomeHeader(NonReentrantAt, parts) || NoExternal(parts)
  }

  ghost predicate BodyDone(parts: seq<Part>, name: string, done: string -> bool) {
    BodyIn(parts, name).None? || BodyIn(parts, name).value == "" || done(BodyIn(parts, name).value)
  }

  ghost predicate ResetDone(parts: seq<Part>) {
    !FoundParts(CONSUMER, parts) || !FoundParts(FEE, parts) || BodyDone(parts, FULFILL, Resets)
  }

  lemma CapIdle(parts: seq<Part>)
    requires CapDone(parts)
    ensures CapParts(parts) == parts
  {
    hide FoundParts, BodyIn, First, InsertFirst, CapDeclaration, Checked, WithCap, InsertParts, WithContent,
         CappedParts;
    var at := InsertedAt(Anchor, parts, CapDeclaration());
  }

  lemma ModifierIdle(parts: seq<Part>)
    requires ModifierDone(parts)
    ensures ModifyParts(parts) == parts
  {
    hide FoundParts, BodyIn, ExternalAt, SomeHeader, NonReentrantAt;
    var at := ModifiedAt(parts);
  }

  lemma ResetIdle(parts: seq<Part>)
    requires ResetDone(parts)
    ensures ResetParts(parts) == parts
  {
    hide FoundParts, BodyIn, Resets, WithReset;
  }

  lemma PatchIdle(parts: seq<Part>, name: string, done: string -> bool, edit: string -> string)
    requires BodyDone(parts, name, done)
    ensures PatchParts(parts, name, done, edit) == parts
  {
    hide BodyIn;
  }

  // ---- Each step leaves itself nothing to do ----

  lemma FoundInPart(p: Pattern, parts: seq<Part>, k: nat)
    requires k < |parts| && Found(p, Content(parts[k]))
    ensures FoundParts(p, parts)
  {
    hide Found;
    assert FoundIn(p, parts[k]);
  }

  lemma GuardCaps(b: string)
    ensures Found(MAX_ENTRANTS, WithCap(b))
  {
    hide Found, Valid, Guarded;
    TestsAreValid();
    var a, c := "require(entrants.length < ", "unicode\"Entrant cap / 参与者已满\"";
    assert CapGuard() == a + ("MAX_ENTRANTS, " + c);
    assert Found(MAX_ENTRANTS, "MAX_ENTRANTS, ") by {
      assert "MAX_ENTRANTS, "[0..] == "MAX_ENTRANTS, ";
      assert MAX_ENTRANTS.first <= "MAX_ENTRANTS, ";
      FoundHere(MAX_ENTRANTS, "MAX_ENTRANTS, ", 0);
    }
    GuardFront(MAX_ENTRANTS, a, "MAX_ENTRANTS, ", c, b);
  }

  lemma GuardFront(p: Pattern, a: string, x: string, c: string, b: string)
    requires Valid(p) && Found(p, x)
    ensures Found(p, Guarded(a + (x + c) + GuardEnd(), b))
  {
    hide Found, Valid;
    var rest := c + GuardEnd() + b[Skip(b, 0, IsSpace)..];
    assert Guarded(a + (x + c) + GuardEnd(), b) == a + x + rest;
    FoundWithin(p, a, x, rest);
  }

  lemma CapSettles(parts: seq<Part>)
    requires WellFormed(parts)
    ensures CapDone(CapParts(parts))
  {
    hide WellFormed, FoundParts, Found, BodyIn, First, InsertFirst, CapDeclaration, Checked, WithCap, WithBody,
         TextOk, Balanced;
    hide HeaderOk, InsertParts;
    if BodyIn(parts, ENTER).Some? && FoundParts(PUSH, parts) && !CappedParts(parts) {
      var inserted := InsertParts(Anchor, parts, CapDeclaration());
      var at := InsertedAt(Anchor, parts, CapDeclaration());
      var b := BodyIn(inserted, ENTER);
      if b.Some? && b.value != "" && !Checked(b.value) {
        var k := WithBodyAt(inserted, ENTER, WithCap(b.value));
        GuardCaps(b.value);
        FoundInPart(MAX_ENTRANTS, CapParts(parts), k);
      } else if at.Some? {
        BodyOk(parts, at.value);
        DeclaredCapIsOk(Content(parts[at.value]));
        FoundInPart(MAX_ENTRANTS, inserted, at.value);
      }
    }
  }

  lemma ModifierSettles(parts: seq<Part>)
    requires WellFormed(parts)
    ensures ModifierDone(ModifyParts(parts))
  {
    hide WellFormed, FoundParts, BodyIn, ExternalAt, NonReentrantAt, HeaderOk, TextOk, Balanced, EnterHeader,
         HeaderRest;
    var at := ModifiedAt(parts);
    if at.Some? {
      var p := parts[at.value];
      BodyOk(parts, at.value);
      RestOfHeader(p.name, p.header);
      NewHeaderOk(p.header[ExternalAt(p.header).value..]);
      assert NonReentrantAt(ModifierParts(parts)[at.value].header);
    }
  }

  lemma BodySettles(parts: seq<Part>, name: string, done: string -> bool, edit: string -> string)
    requires forall b :: b != "" && !done(b) ==> done(edit(b))
    ensures BodyDone(PatchParts(parts, name, done, edit), name, done)
  {
    hide BodyIn, WithBody;
    var b := BodyIn(parts, name);
    if b.Some? && b.value != "" && !done(b.value) {
      BodiesAfter(parts, name, edit(b.value), name);
    }
  }

  lemma ResetResets(b: string)
    ensures Resets(WithReset(b))
  {
    hide Found, Valid, TrimEnd;
    BodyTestsAreValid();
    ResetMatches();
    FoundWithin(FEE_RESET, TrimEnd(b), Reset(), "");
    assert TrimEnd(b) + Reset() + "" == WithReset(b);
  }

  lemma ResetMatches()
    ensures Found(FEE_RESET, Reset())
  {
    hide Valid;
    var a, x, c := "\n        ", "lastDrawFee = 0", ";\n    ";
    BodyTestsAreValid();
    assert Reset() == a + x + c;
    FeeMatches();
    FoundWithin(FEE_RESET, a, x, c);
  }

  lemma FeeMatches()
    ensures Found(FEE_RESET, "lastDrawFee = 0")
  {
    hide Skip, RestAt;
    var x, v := "lastDrawFee = 0", " = 0";
    assert x[11..] == v && x[0..] == x && "lastDrawFee" <= x;
    SkipIs(v, 0, IsSpace, 1);
    assert v[2..] == " 0";
    SkipIs(" 0", 0, IsSpace, 1);
    TwoPieces(Gap("="), Gap("0"), v, 2, 2);
    FoundHere(FEE_RESET, x, 0);
  }

  lemma ResetSettles(parts: seq<Part>)
    ensures ResetDone(ResetParts(parts))
  {
    hide FoundParts, BodyIn, Resets, WithReset, PatchParts;
    if FoundParts(CONSUMER, parts) && FoundParts(FEE, parts) {
      forall b | b != "" && !Resets(b)
        ensures Resets(WithReset(b))
      {
        ResetResets(b);
      }
      BodySettles(parts, FULFILL, Resets, WithReset);
    }
  }

  lemma PieceHere(x: string, rest: string)
    requires x != "" && !IsSpace(x[0])
    ensures PieceAt(Gap(x), x + rest) == Some(|x|) && (x + rest)[|x|..] == rest
  {
    hide Skip;
    SkipIs(x + rest, 0, IsSpace, 0);
    assert (x + rest)[0..] == x + rest;
  }

  lemma PieceBehindSpace(x: string, rest: string)
    requires x != "" && !IsSpace(x[0])
    ensures PieceAt(Gap(x), " " + x + rest) == Some(1 + |x|) && (" " + x + rest)[1 + |x|..] == rest
  {
    hide Skip;
    SkipIs(" " + x + rest, 0, IsSpace, 1);
    assert (" " + x + rest)[1..] == x + rest;
  }

  lemma LimitPieces(a: string, b: string, c: string, d: string)
    requires d == ").max" && c == "uint8" + d && b == "(" + c && a == " type" + b
    ensures PieceAt(Gap("type"), a) == Some(5) && |a| >= 5 && a[5..] == b
    ensures PieceAt(Gap("("), b) == Some(1) && |b| >= 1 && b[1..] == c
    ensures PieceAt(Gap("uint8"), c) == Some(5) && |c| >= 5 && c[5..] == d
    ensures PieceAt(Gap(").max"), d) == Some(5) && |d| >= 5 && d[5..] == ""
  {
    hide PieceAt;
    PieceHere(").max", "");
    assert ").max" + "" == d && |").max"| == 5 && |"uint8"| == 5;
    PieceHere("uint8", d);
    PieceHere("(", c);
    assert " type" == " " + "type" && |"type"| == 4;
    PieceBehindSpace("type", b);
  }

  lemma LimitMatches()
    ensures Found(AT_MOST_MAX, "<=" + (" type" + ("(" + ("uint8" + ").max"))))
  {
    hide PieceAt, RestAt;
    var d := ").max";
    var c := "uint8" + d;
    var b := "(" + c;
    var a := " type" + b;
    LimitPieces(a, b, c, d);
    RestOfLimit(a, b, c, d);
    assert ("<=" + a)[2..] == a && ("<=" + a)[0..] == "<=" + a;
    FoundHere(AT_MOST_MAX, "<=" + a, 0);
  }

  lemma RestOfLimit(a: string, b: string, c: string, d: string)
    requires PieceAt(Gap("type"), a) == Some(5) && |a| >= 5 && a[5..] == b
    requires PieceAt(Gap("("), b) == Some(1) && |b| >= 1 && b[1..] == c
    requires PieceAt(Gap("uint8"), c) == Some(5) && |c| >= 5 && c[5..] == d
    requires PieceAt(Gap(").max"), d) == Some(5) && |d| >= 5 && d[5..] == ""
    ensures RestAt(AT_MOST_MAX.rest, a).Some?
  {
    hide PieceAt, RestAt;
    TwoPiecesOnly(c, d);
    var three := [Gap("("), Gap("uint8"), Gap(").max")];
    assert three[1..] == [Gap("uint8"), Gap(").max")];
    RestSteps(three, b, 1);
    assert AT_MOST_MAX.rest[1..] == three;
    RestSteps(AT_MOST_MAX.rest, a, 5);
  }

  lemma TwoPiecesOnly(c: string, d: string)
    requires PieceAt(Gap("uint8"), c) == Some(5) && |c| >= 5 && c[5..] == d
    requires PieceAt(Gap(").max"), d) == Some(5)
    ensures RestAt([Gap("uint8"), Gap(").max")], c).Some?
  {
    hide PieceAt, RestAt;
    TwoPieces(Gap("uint8"), Gap(").max"), c, 5, 5);
  }

  lemma CheckBounds(b: string)
    ensures Bounded(WithCheck(b))
  {
    hide Found, Valid, Guarded, Snapshots, Invalid;
    BoundsAreValid();
    LimitMatches();
    var x := "<=" + (" type" + ("(" + ("uint8" + ").max")));
    var c := ", " + Invalid();
    SplitChecks();
    if Found(SNAPSHOT, b) {
      GuardFront(AT_MOST_MAX, SnapshotFront(), x, c, b);
    } else {
      GuardFront(AT_MOST_MAX, "require(n > 0 && n ", x, c, b);
    }
  }

  function SnapshotFront(): string {
    "require" + "(" + ("drawSnapshot.length > 0 && " + "drawSnapshot.length ")
  }

  lemma SplitChecks()
    ensures var x, c := "<=" + (" type" + ("(" + ("uint8" + ").max"))), ", " + Invalid();
            CountGuard() == "require(n > 0 && n " + (x + c) && SnapshotGuard() == SnapshotFront() + (x + c)
  {
    hide Invalid;
    var x, c := "<=" + (" type" + ("(" + ("uint8" + ").max"))), ", " + Invalid();
    assert "uint8).max, " + Invalid() == ("uint8" + ").max") + c;
    assert "require(n > 0 && n <= type(" == "require(n > 0 && n " + ("<=" + " type" + "(");
    var s := "drawSnapshot.length > 0 && ";
    assert "drawSnapshot.length <= type" == "drawSnapshot.length " + ("<=" + " type");
    JoinCount("require(n > 0 && n ", "<=", " type", "(", "uint8" + ").max", c);
    JoinSnapshot("require" + "(", s, "drawSnapshot.length ", "<=", " type", "(", "uint8" + ").max", c);
  }

  lemma JoinCount(a: string, b: string, c: string, d: string, e: string, f: string)
    ensures a + (b + c + d) + (e + f) == a + ((b + (c + (d + e))) + f)
  {
  }

  lemma JoinSnapshot(a: string, s: string, l: string, b: string, c: string, d: string, e: string, f: string)
    ensures a + ((s + (l + (b + c))) + d + (e + f)) == (a + (s + l)) + ((b + (c + (d + e))) + f)
  {
  }

  lemma BoundSettles(parts: seq<Part>, name: string)
    ensures BodyDone(BoundParts(parts, name), name, Bounded)
  {
    hide BodyIn, Bounded, WithCheck, PatchParts;
    var edit := b => WithCheck(b);
    forall b | b != "" && !Bounded(b)
      ensures Bounded(edit(b))
    {
      CheckBounds(b);
    }
    BodySettles(parts, name, Bounded, edit);
  }

  // ---- Later steps leave earlier ones nothing to do ----

  lemma GentleAddsNone(parts: seq<Part>, after: seq<Part>)
    requires Edited(parts, after)
    ensures PartsAddNone(PUSH, parts, after) && PartsAddNone(HAS_ENTERED, parts, after)
    ensures PartsAddNone(CONSUMER, parts, after)
    ensures PartsAddNone(ENTRANTS, parts, after) && PartsAddNone(PUBLIC_ENTRANTS, parts, after)
  {
    hide AddsNone, Keeps;
    forall i | 0 <= i < |parts|
      ensures AddsNoTest(Content(parts[i]), Content(after[i]))
    {
      assert Gentle(Content(parts[i]), Content(after[i]));
    }
  }

  lemma NoAnchorsKept(parts: seq<Part>, after: seq<Part>)
    requires Edited(parts, after) && NoAnchors(parts)
    ensures NoAnchors(after)
  {
    hide Found, First, Gentle, SameFrame;
    GentleAddsNone(parts, after);
    forall i | 0 <= i < |after|
      ensures First(Anchor, Content(after[i])).None?
    {
      var x, y := Content(parts[i]), Content(after[i]);
      assert AddsNone(ENTRANTS, x, y) && AddsNone(PUBLIC_ENTRANTS, x, y);
      AnchorFound(ENTRANTS, x);
      AnchorFound(PUBLIC_ENTRANTS, x);
      if First(Anchor, y).Some? {
        AnchorEnds(y);
      }
    }
  }

  lemma CapStays(parts: seq<Part>, after: seq<Part>)
    requires CapDone(parts) && Edited(parts, after)
    ensures CapDone(after)
  {
    hide FoundParts, Found, BodyIn, First, Edited, PartsAddNone, NoAnchors, Lasting, AddsNoTest;
    CapTestsLast();
    MaximumsLast();
    BodyEdited(parts, after, ENTER);
    GentleAddsNone(parts, after);
    if FoundParts(PUSH, after) {
      TestIsOld(PUSH, parts, after);
      if FoundParts(MAX_ENTRANTS, parts) {
        TestLasts(MAX_ENTRANTS, parts, after);
      } else if FoundParts(BELOW_255, parts) {
        TestLasts(BELOW_255, parts, after);
      } else if FoundParts(BELOW_MAX, parts) {
        TestLasts(BELOW_MAX, parts, after);
      } else if BodyIn(parts, ENTER).Some? {
        NoAnchorsKept(parts, after);
      }
    }
  }

  lemma ModifierStays(parts: seq<Part>, after: seq<Part>)
    requires ModifierDone(parts) && Edited(parts, after)
    ensures ModifierDone(after)
  {
    hide FoundParts, Found, BodyIn, PartsAddNone, NonReentrantAt, SomeHeader, Gentle, ExternalAt;
    BodyEdited(parts, after, ENTER);
    GentleAddsNone(parts, after);
    HeadersEdited(NonReentrantAt, parts, after);
    if FoundParts(PUSH, after) {
      TestIsOld(PUSH, parts, after);
    }
    if FoundParts(HAS_ENTERED, after) {
      TestIsOld(HAS_ENTERED, parts, after);
    }
    assert forall i :: 0 <= i < |parts| ==> SameFrame(parts[i], after[i]);
  }

  lemma ResetStays(parts: seq<Part>, after: seq<Part>)
    requires ResetDone(parts) && Edited(parts, after) && PartsAddNone(FEE, parts, after)
    ensures ResetDone(after)
  {
    hide FoundParts, Found, BodyIn, Edited, PartsAddNone, Lasting, AddsNoTest;
    ResetTestLasts();
    BodyEdited(parts, after, FULFILL);
    GentleAddsNone(parts, after);
    if FoundParts(CONSUMER, after) {
      TestIsOld(CONSUMER, parts, after);
    }
    if FoundParts(FEE, after) {
      TestIsOld(FEE, parts, after);
    }
  }

  lemma BoundStays(parts: seq<Part>, after: seq<Part>, name: string)
    requires BodyDone(parts, name, Bounded) && Edited(parts, after)
    requires PartsAddNone(CAST_N, parts, after) && PartsAddNone(CAST_ENTRANTS, parts, after)
    requires PartsAddNone(CAST_SNAPSHOT, parts, after)
    ensures BodyDone(after, name, Bounded)
  {
    hide Found, BodyIn, Edited, PartsAddNone, Lasting, AddsNoTest;
    CapTestsLast();
    MaximumsLast();
    AtMostLasts();
    BodyEdited(parts, after, name);
  }

  lemma OtherBodyStays(parts: seq<Part>, name: string, other: string, done: string -> bool)
    requires BodyDone(parts, name, done) && other != name
    ensures BodyDone(BoundParts(parts, other), name, done)
  {
    hide BodyIn, WithBody, Bounded, WithCheck;
    var b := BodyIn(parts, other);
    if b.Some? && b.value != "" && !Bounded(b.value) {
      BodiesAfter(parts, other, WithCheck(b.value), name);
    }
  }

  // ---- The modifier leaves the entrant cap nothing to do ----

  /** The keyword `external` of a header the patch rewrites is a whole word. */
  ghost predicate KeywordsEnd(parts: seq<Part>) {
    forall i :: 0 <= i < |parts| && parts[i].Declared? && ExternalAt(parts[i].header).Some? ==>
                  var n := ExternalAt(parts[i].header).value;
                  n < |parts[i].header| && !IsWord(parts[i].header[n])
  }

  /** The characters of a match's first word. */
  lemma FirstWordAt(p: Pattern, t: string, i: nat)
    requires Valid(p) && i <= |t| && At(p, t[i..]).Some?
    ensures i + |p.first| <= |t| && forall m :: i <= m < i + |p.first| ==> t[m] == p.first[m - i]
  {
    hide At, Valid;
    AtEnds(p, t[i..]);
    assert forall m :: i <= m < i + |p.first| ==> t[i..][..|p.first|][m - i] == t[m];
  }

  /** A match that starts in front of a text would need a character that is not there. */
  lemma BehindWord(p: Pattern, k: nat, y: string, x: string)
    requires Valid(p) && k < |p.first| && y != "" && p.first[k] !in y && y[|y| - 1] !in p.first[..k]
    requires Found(p, y + x)
    ensures Found(p, x)
  {
    hide At, Valid;
    var i := FoundAt(p, y + x);
    FirstWordAt(p, y + x, i);
    StartsBehindWord(p.first, k, y, x, i);
    assert (y + x)[i..] == x[i - |y|..];
    FoundHere(p, x, i - |y|);
  }

  lemma StartsBehindWord(word: string, k: nat, y: string, x: string, i: nat)
    requires k < |word| && y != "" && word[k] !in y && y[|y| - 1] !in word[..k]
    requires i + |word| <= |y + x| && forall m :: i <= m < i + |word| ==> (y + x)[m] == word[m - i]
    ensures i >= |y|
  {
    assert (y + x)[i + k] == word[k];
    assert (y + x)[|y| - 1] == y[|y| - 1];
  }

  lemma ExternalLetters()
    ensures Valid(EXTERNAL) && Last(EXTERNAL) == 'l'
    ensures !Uses(EXTERNAL, 's') && !Uses(EXTERNAL, 'M')
  {
    EnterPatternsAreValid();
    ExternalRest();
    NoCapLetters();
    assert Last(EXTERNAL) == LastOf(EXTERNAL.rest);
  }

  lemma NoCapLetters()
    ensures 's' !in FUNCTION && 'M' !in FUNCTION
    ensures forall q :: q in EXTERNAL.rest ==> !WordUses(q.word, 's') && !WordUses(q.word, 'M')
  {
  }

  lemma ExternalRest()
    ensures Sane(EXTERNAL.rest) && EXTERNAL.rest != [] && LastOf(EXTERNAL.rest) == 'l'
  {
    EnterPatternsAreValid();
    var ps := EXTERNAL.rest;
    var qs := [PARENTHESIS, Gap(")"), Gap("external")];
    assert ps[1..] == qs && qs[1..] == [Gap(")"), Gap("external")];
    ThreeAreSane(Gap(")"), Gap("external"));
    hide Sane;
    assert LastOf(qs) == LastOf(qs[1..]);
    assert LastOf(ps) == LastOf(qs);
  }

  lemma ExternalFront(header: string)
    requires ExternalAt(header).Some?
    ensures var y := header[..ExternalAt(header).value]; 's' !in y && 'M' !in y && y != "" && y[|y| - 1] == 'l'
  {
    hide At, Uses, Valid;
    ExternalLetters();
    AtEnds(EXTERNAL, header);
    assert FUNCTION != "";
    forall i | 0 <= i < At(EXTERNAL, header).value
      ensures header[i] != 's' && header[i] != 'M'
    {
      AtUses(EXTERNAL, header, i);
    }
  }

  lemma CapWords()
    ensures "MAX_ENTRANTS"[0] == 'M' && "entrants.length"[7] == 's' && 'l' !in "entrants.length"[..7]
    ensures "entrants.push"[7] == 's' && forall c :: c in "entrants.push"[..7] ==> IsWord(c)
  {
    assert "entrants.length"[..7] == "entrant" && "entrants.push"[..7] == "entrant";
  }

  /** The cap tests find in the rewritten header what they found in it before. */
  lemma ModifierKeeps(p: Pattern, header: string)
    requires ExternalAt(header).Some? && Found(p, header)
    requires p == MAX_ENTRANTS || p == BELOW_255 || p == BELOW_MAX
    ensures Found(p, NewHeader(header))
  {
    hide Found, Valid, ExternalAt, EnterHeader;
    var n := ExternalAt(header).value;
    var y, x := header[..n], header[n..];
    assert header == y + x;
    TestsAreValid();
    ExternalFront(header);
    CapWords();
    BehindWord(p, if p == MAX_ENTRANTS then 0 else 7, y, x);
    Within(p, EnterHeader(), x, "", NewHeader(header));
  }

  lemma EnterHeaderWord()
    ensures 's' !in EnterHeader() && 'v' !in EnterHeader() && |EnterHeader()| == 38 && EnterHeader()[37] == 't'
  {
  }

  /** No push into the entrants appears in the rewritten header. */
  lemma ModifierAddsNoPush(header: string)
    requires ExternalAt(header).Some?
    requires var n := ExternalAt(header).value; n < |header| && !IsWord(header[n])
    requires Found(PUSH, NewHeader(header))
    ensures Found(PUSH, header)
  {
    hide Found, Valid, ExternalAt, EnterHeader;
    var n := ExternalAt(header).value;
    var c, x := header[n], header[n + 1..];
    var y := EnterHeader() + [c];
    assert NewHeader(header) == y + x && header == header[..n + 1] + x + "";
    TestsAreValid();
    EnterHeaderWord();
    CapWords();
    BehindWord(PUSH, 7, y, x);
    Within(PUSH, header[..n + 1], x, "", header);
  }

  lemma OneChanged(p: Pattern, parts: seq<Part>, k: nat, q: Part)
    requires k < |parts|
    ensures (FoundIn(p, parts[k]) ==> FoundIn(p, q)) && FoundParts(p, parts) ==> FoundParts(p, parts[k := q])
    ensures (FoundIn(p, q) ==> FoundIn(p, parts[k])) && FoundParts(p, parts[k := q]) ==> FoundParts(p, parts)
  {
    hide FoundIn;
    var after := parts[k := q];
    if (FoundIn(p, parts[k]) ==> FoundIn(p, q)) && FoundParts(p, parts) {
      var i :| 0 <= i < |parts| && FoundIn(p, parts[i]);
      assert FoundIn(p, after[i]);
    }
    if (FoundIn(p, q) ==> FoundIn(p, parts[k])) && FoundParts(p, after) {
      var i :| 0 <= i < |after| && FoundIn(p, after[i]);
      assert FoundIn(p, parts[i]);
    }
  }

  lemma {:induction false} HeaderAlone(parts: seq<Part>, k: nat, header: string, name: string)
    requires k < |parts| && parts[k].Declared?
    ensures BodyIn(parts[k := parts[k].(header := header)], name) == BodyIn(parts, name)
  {
    var after := parts[k := parts[k].(header := header)];
    if k == 0 {
      assert after[1..] == parts[1..];
    } else {
      HeaderAlone(parts[1..], k - 1, header, name);
      assert after[1..] == parts[1..][k - 1 := parts[k].(header := header)];
    }
  }

  lemma CapStaysModified(parts: seq<Part>)
    requires CapDone(parts) && KeywordsEnd(parts)
    ensures CapDone(ModifyParts(parts))
  {
    hide FoundParts, Found, BodyIn, First, ExternalAt, NewHeader, SomeHeader, NonReentrantAt, Checked;
    var at := ModifiedAt(parts);
    if ModifyParts(parts) != parts {
      var k := at.value;
      var p := parts[k];
      var q := p.(header := NewHeader(p.header));
      HeaderAlone(parts, k, NewHeader(p.header), ENTER);
      CapTestsModified(parts, k);
      assert forall i :: 0 <= i < |parts| ==> Content(parts[k := q][i]) == Content(parts[i]);
    }
  }

  lemma CapTestsModified(parts: seq<Part>, k: nat)
    requires k < |parts| && parts[k].Declared? && ExternalAt(parts[k].header).Some? && KeywordsEnd(parts)
    ensures var after := parts[k := parts[k].(header := NewHeader(parts[k].header))];
            (FoundParts(PUSH, after) ==> FoundParts(PUSH, parts)) && (CappedParts(parts) ==> CappedParts(after))
  {
    hide FoundParts, Found, ExternalAt, NewHeader;
    var h := parts[k].header;
    var q := parts[k].(header := NewHeader(h));
    OneChanged(PUSH, parts, k, q);
    OneChanged(MAX_ENTRANTS, parts, k, q);
    OneChanged(BELOW_255, parts, k, q);
    OneChanged(BELOW_MAX, parts, k, q);
    if Found(PUSH, NewHeader(h)) {
      ModifierAddsNoPush(h);
    }
    if Found(MAX_ENTRANTS, h) {
      ModifierKeeps(MAX_ENTRANTS, h);
    }
    if Found(BELOW_255, h) {
      ModifierKeeps(BELOW_255, h);
    }
    if Found(BELOW_MAX, h) {
      ModifierKeeps(BELOW_MAX, h);
    }
  }
}
