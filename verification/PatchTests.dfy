/** The tests and texts of the patches written out: what each test finds, and what each patch writes. */
module PatchTests {
  import opened Wrappers
  import opened SolidityText
  import opened Patterns
  import opened FunctionHeads
  import opened Insertions
  import opened SourcePatches
  import opened EnterModifier
  import opened PatchTexts
  import opened CommonPatches
  import opened DisclosurePatch
  import opened PlainText

  // ---- Texts ----

  const INVALID := "unicode\"Invalid entrant count / 无效参与者数量\""
  const COUNT_GUARD := "require(n > 0 && n <= type(uint8).max, " + (INVALID + ");\n        ")
  const SNAPSHOT_GUARD :=
    "require(drawSnapshot.length > 0 && " + ("drawSnapshot.length <= type(uint8).max, " + (INVALID + ");\n        "))
  const CAP_GUARD := "require(entrants.length < MAX_ENTRANTS, " + ("unicode\"Entrant cap / 参与者已满\"" + ");\n        ")

  lemma InvalidText()
    ensures Invalid() == INVALID
  {
  }

  lemma CountText()
    ensures CountGuard() + GuardEnd() == COUNT_GUARD
  {
    hide Invalid;
    InvalidText();
    CountFront();
    var end := Invalid() + GuardEnd();
    assert "require(n > 0 && n <= type(" + ("uint8).max, " + Invalid()) + GuardEnd()
           == ("require(n > 0 && n <= type(" + "uint8).max, ") + end;
  }

  lemma CountFront()
    ensures "require(n > 0 && n <= type(" + "uint8).max, " == "require(n > 0 && n <= type(uint8).max, "
  {
  }

  lemma SnapshotText()
    ensures SnapshotGuard() + GuardEnd() == SNAPSHOT_GUARD
  {
    hide Invalid;
    InvalidText();
    SnapshotFront();
    SnapshotLimit();
    Regroup("require" + "(", "drawSnapshot.length > 0 && ", "drawSnapshot.length <= type", "(", "uint8).max, ",
            Invalid(), GuardEnd());
  }

  lemma SnapshotFront()
    ensures "require" + "(" + "drawSnapshot.length > 0 && " == "require(drawSnapshot.length > 0 && "
  {
  }

  lemma SnapshotLimit()
    ensures "drawSnapshot.length <= type" + "(" + "uint8).max, " == "drawSnapshot.length <= type(uint8).max, "
  {
  }

  lemma Regroup(a: string, b: string, c: string, d: string, e: string, f: string, g: string)
    ensures a + ((b + c) + d + (e + f)) + g == (a + b) + ((c + d + e) + (f + g))
  {
  }

  lemma CapText()
    ensures CapGuard() + GuardEnd() == CAP_GUARD
  {
    CapFront();
    var a, b, c := "require(entrants.length < ", "MAX_ENTRANTS, ", "unicode\"Entrant cap / 参与者已满\"";
    assert a + (b + c) + GuardEnd() == (a + b) + (c + GuardEnd());
  }

  lemma CapFront()
    ensures "require(entrants.length < " + "MAX_ENTRANTS, " == "require(entrants.length < MAX_ENTRANTS, "
  {
  }

  const CAP_DECLARATION := "\n    uint256 public constant MAX_ENTRANTS = 255;"
  const FEE_RESETTING := "\n        lastDrawFee = 0;\n    "
  const DISCLOSURE := "; winner selected by Flap AI provider (not on-chain VRF)"
  const NEW_ENTER := "function enter() external nonReentrant"

  lemma OtherTexts()
    ensures CapDeclaration() == CAP_DECLARATION && Reset() == FEE_RESETTING && Disclosure() == DISCLOSURE
  {
  }

  lemma EnterText()
    ensures EnterHeader() == NEW_ENTER
  {
  }

  // ---- Tests ----

  /** The count is cast to a byte. */
  ghost predicate CastsCount(body: string) {
    Occurs("uint8", ["(", "n"], body) || Occurs("uint8", ["(", "entrants.length"], body)
    || Occurs("uint8", ["(", "drawSnapshot.length"], body)
  }

  ghost predicate BoundsCount(body: string) {
    Occurs("<=", ["255"], body) || Occurs("<=", ["type", "(", "uint8", ").max"], body) || Contains(body, "MAX_ENTRANTS")
  }

  ghost predicate CapsBody(body: string) {
    Contains(body, "MAX_ENTRANTS") || Occurs(".length", ["<", "255"], body)
  }

  ghost predicate CapsText(t: string) {
    Contains(t, "MAX_ENTRANTS") || Occurs("entrants.length", ["<", "255"], t)
    || Occurs("entrants.length", ["<", "type", "(", "uint8", ").max"], t)
  }

  ghost predicate ResetsFee(body: string) {
    Occurs("lastDrawFee", ["=", "0"], body)
  }

  lemma LimitWords()
    ensures Gaps(["type", "(", "uint8", ").max"]) == [Gap("type"), Gap("("), Gap("uint8"), Gap(").max")]
    ensures Gaps(["<", "type", "(", "uint8", ").max"]) == [Gap("<"), Gap("type"), Gap("("), Gap("uint8"), Gap(").max")]
  {
  }

  lemma BoundsIff(body: string)
    ensures Bounded(body) <==> !CastsCount(body) || BoundsCount(body)
  {
    hide Found, Occurs, Contains;
    LimitWords();
    OccursIff(CAST_N, "uint8", ["(", "n"], body);
    OccursIff(CAST_ENTRANTS, "uint8", ["(", "entrants.length"], body);
    OccursIff(CAST_SNAPSHOT, "uint8", ["(", "drawSnapshot.length"], body);
    OccursIff(AT_MOST_255, "<=", ["255"], body);
    OccursIff(AT_MOST_MAX, "<=", ["type", "(", "uint8", ").max"], body);
    ContainsIff(MAX_ENTRANTS, "MAX_ENTRANTS", body);
  }

  lemma CheckedIff(body: string)
    ensures Checked(body) <==> CapsBody(body)
    ensures Found(SNAPSHOT, body) <==> Contains(body, "drawSnapshot.length")
    ensures Resets(body) <==> ResetsFee(body)
  {
    hide Found, Occurs, Contains;
    ContainsIff(MAX_ENTRANTS, "MAX_ENTRANTS", body);
    ContainsIff(SNAPSHOT, "drawSnapshot.length", body);
    OccursIff(ANY_BELOW_255, ".length", ["<", "255"], body);
    OccursIff(FEE_RESET, "lastDrawFee", ["=", "0"], body);
  }

  lemma CappedIff(t: string)
    ensures Capped(t) <==> CapsText(t)
    ensures Found(PUSH, t) <==> Contains(t, "entrants.push")
    ensures Found(HAS_ENTERED, t) <==> Contains(t, "hasEntered")
    ensures Found(CONSUMER, t) <==> Contains(t, "FlapAIConsumerBase")
    ensures Found(FEE, t) <==> Contains(t, "lastDrawFee")
  {
    hide Found, Occurs, Contains;
    LimitWords();
    ContainsIff(MAX_ENTRANTS, "MAX_ENTRANTS", t);
    OccursIff(BELOW_255, "entrants.length", ["<", "255"], t);
    OccursIff(BELOW_MAX, "entrants.length", ["<", "type", "(", "uint8", ").max"], t);
    ContainsIff(PUSH, "entrants.push", t);
    ContainsIff(HAS_ENTERED, "hasEntered", t);
    ContainsIff(CONSUMER, "FlapAIConsumerBase", t);
    ContainsIff(FEE, "lastDrawFee", t);
  }

  // ---- Bodies ----

  /** The text less the white space in front of it, or behind it. */
  predicate TrimsLeft(x: string, y: string) {
    |y| <= |x| && x[|x| - |y|..] == y && Blank(x[..|x| - |y|]) && (y == "" || !Blank(y[..1]))
  }

  predicate TrimsRight(x: string, y: string) {
    y <= x && Blank(x[|y|..]) && (y == "" || !Blank(y[|y| - 1..]))
  }

  lemma GuardedIs(guard: string, body: string)
    ensures exists y :: TrimsLeft(body, y) && Guarded(guard, body) == guard + y
  {
    var n := Skip(body, 0, IsSpace);
    var y := body[n..];
    assert |body| - |y| == n;
    assert TrimsLeft(body, y);
  }

  lemma {:induction false} TrimEndIs(body: string)
    ensures TrimsRight(body, TrimEnd(body))
  {
    var y := TrimEnd(body);
    if body != "" && IsSpace(body[|body| - 1]) {
      var front := body[..|body| - 1];
      TrimEndIs(front);
      assert forall i :: |y| <= i < |body| - 1 ==> body[i] == front[|y|..][i - |y|];
    } else {
      assert body[|y|..] == "";
    }
  }

  lemma ExtendedIs(body: string)
    ensures exists y :: TrimsRight(body, y) && WithReset(body) == y + FEE_RESETTING
  {
    hide TrimsRight;
    OtherTexts();
    TrimEndIs(body);
  }

  /** What a body reads once the count it casts is checked. */
  ghost predicate ReadsChecked(b: string, c: string) {
    if b != "" && CastsCount(b) && !BoundsCount(b) then
      exists y :: TrimsLeft(b, y)
                  && c == (if Contains(b, "drawSnapshot.length") then SNAPSHOT_GUARD else COUNT_GUARD) + y
    else c == b
  }

  /** What the body of `enter` reads once the text is capped. */
  ghost predicate ReadsCapped(capped: bool, b: string, c: string) {
    if !capped && b != "" && !CapsBody(b) then exists y :: TrimsLeft(b, y) && c == CAP_GUARD + y else c == b
  }

  /** What the body that settles a draw reads once its fee is reset. */
  ghost predicate ReadsReset(drawn: bool, b: string, c: string) {
    if drawn && b != "" && !ResetsFee(b) then exists y :: TrimsRight(b, y) && c == y + FEE_RESETTING else c == b
  }

  lemma ChecksAre(b: string)
    ensures ReadsChecked(b, if b == "" || Bounded(b) then b else WithCheck(b))
  {
    hide Found, Bounded, CastsCount, BoundsCount, Contains, SnapshotGuard, CountGuard, Guarded, TrimsLeft, GuardEnd;
    BoundsIff(b);
    CheckedIff(b);
    SnapshotText();
    CountText();
    GuardedIs(CountCheck(b) + GuardEnd(), b);
  }

  lemma CapsAre(b: string)
    ensures ReadsCapped(false, b, if b == "" || Checked(b) then b else WithCap(b))
  {
    hide Found, Checked, CapsBody, CapGuard, Guarded, TrimsLeft, GuardEnd;
    CheckedIff(b);
    CapText();
    GuardedIs(CapGuard() + GuardEnd(), b);
  }

  lemma ResetsAre(b: string)
    ensures ReadsReset(true, b, if b == "" || Resets(b) then b else WithReset(b))
  {
    hide Found, Resets, ResetsFee, WithReset, TrimsRight;
    CheckedIff(b);
    ExtendedIs(b);
  }
}
