/** What every function reads after the patches, with their tests and texts written out. */
module PatchReadback {
  import opened Wrappers
  import opened SolidityText
  import opened Patterns
  import opened FunctionHeads
  import opened Insertions
  import opened FunctionBodies
  import opened SourcePatches
  import opened SourceParts
  import opened SourceTests
  import opened SourceEdits
  import opened EnterModifier
  import opened PatchTexts
  import opened DisclosurePatch
  import opened PatchSteps
  import opened CommonPatches
  import opened PlainText
  import opened PatchTests

  // ---- Bodies along the steps ----

  lemma {:induction false} BodyAfterInsert(k: Target, parts: seq<Part>, text: string, name: string)
    ensures BodyIn(InsertParts(k, parts, text), name).Some? <==> BodyIn(parts, name).Some?
    ensures BodyIn(parts, name).Some? && First(k, BodyIn(parts, name).value).None? ==>
              BodyIn(InsertParts(k, parts, text), name) == BodyIn(parts, name)
  {
    hide First, InsertFirst;
    if parts != [] {
      BodyAfterInsert(k, parts[1..], text, name);
      var after := InsertParts(k, parts, text);
      if First(k, Content(parts[0])).Some? {
        assert after[1..] == parts[1..];
      } else {
        assert after[1..] == InsertParts(k, parts[1..], text);
      }
    }
  }

  lemma {:induction false} BodyAfterModifier(parts: seq<Part>, name: string)
    ensures BodyIn(ModifierParts(parts), name) == BodyIn(parts, name)
  {
    hide ExternalAt, NewHeader;
    if parts != [] {
      BodyAfterModifier(parts[1..], name);
      var after := ModifierParts(parts);
      if parts[0].Declared? && ExternalAt(parts[0].header).Some? {
        assert after[1..] == parts[1..];
      } else {
        assert after[1..] == ModifierParts(parts[1..]);
      }
    }
  }

  lemma BodyAfterPatch(
    parts: seq<Part>, name: string, done: string -> bool, edit: string -> string, other: string)
    ensures BodyIn(PatchParts(parts, name, done, edit), other)
            == match BodyIn(parts, other)
               case None => None
               case Some(b) => if other != name || b == "" || done(b) then Some(b) else Some(edit(b))
  {
    hide BodyIn, WithBody;
    var b := BodyIn(parts, name);
    if b.Some? {
      BodiesAfter(parts, name, edit(b.value), other);
    }
  }

  /** No array is declared and no description opened in the body. */
  ghost predicate NoPlace(b: string) {
    !Contains(b, "address[]") && !Contains(b, "schema.description")
  }

  lemma {:induction false} NoPlaceIn(k: Target, b: string)
    requires NoPlace(b)
    ensures First(k, b).None?
  {
    hide At;
    if b != "" {
      NoneStartsHere(b);
      assert NoPlace(b[1..]) by { ShorterHasNone(b); }
      NoPlaceIn(k, b[1..]);
    }
  }

  lemma ShorterHasNone(b: string)
    requires NoPlace(b) && b != ""
    ensures NoPlace(b[1..])
  {
    assert forall i :: 0 <= i <= |b[1..]| ==> b[1..][i..] == b[i + 1..];
  }

  lemma NoneStartsHere(b: string)
    requires NoPlace(b)
    ensures At(ENTRANTS, b).None? && At(PUBLIC_ENTRANTS, b).None? && At(OPENING, b).None?
  {
    hide RestAt;
    assert b[0..] == b;
  }

  /** The entrant cap writes to the text. */
  ghost predicate CapsApply(t: string) {
    FindFunctionBody(t, "enter").Some? && Contains(t, "entrants.push") && !CapsText(t)
  }

  lemma CapsAppliesIff(parts: seq<Part>)
    requires WellFormed(parts)
    ensures var t := Render(parts);
            CapsApply(t) <==> !(BodyIn(parts, ENTER).None? || !FoundParts(PUSH, parts) || CappedParts(parts))
  {
    hide WellFormed, Found, FoundParts, CappedParts, Render, BodyIn, Capped, CapsText, Contains, FindFunctionBody;
    CapTestsInRender(parts);
    CappedIff(Render(parts));
    FindInRender(parts, ENTER);
  }

  lemma BodyAfterCap(parts: seq<Part>, name: string, b: string) returns (c: string)
    requires WellFormed(parts) && BodyIn(parts, name) == Some(b) && NoPlace(b)
    ensures BodyIn(CapParts(parts), name) == Some(c)
    ensures if name == "enter" then ReadsCapped(!CapsApply(Render(parts)), b, c) else c == b
  {
    hide WellFormed, BodyIn, PatchParts, InsertParts, Checked, WithCap, CapDeclaration, CappedParts, FoundParts, Render,
         CapsApply, CapsBody;
    CapsAppliesIff(parts);
    if CapParts(parts) == parts {
      c := b;
      UncappedReads(parts, name, b);
    } else {
      var inserted := InsertParts(Anchor, parts, CapDeclaration());
      BodyAfterInsert(Anchor, parts, CapDeclaration(), name);
      NoPlaceIn(Anchor, b);
      BodyAfterPatch(inserted, ENTER, Checked, WithCap, name);
      c := BodyIn(CapParts(parts), name).value;
      CapsAre(b);
    }
  }

  /** Where the cap changes no part, it either does not apply or the body has nothing to cap. */
  lemma UncappedReads(parts: seq<Part>, name: string, b: string)
    requires WellFormed(parts) && BodyIn(parts, name) == Some(b) && NoPlace(b) && CapParts(parts) == parts
    ensures name == "enter" ==> ReadsCapped(!CapsApply(Render(parts)), b, b)
  {
    hide WellFormed, BodyIn, PatchParts, InsertParts, Checked, WithCap, CapDeclaration, CappedParts, FoundParts, Render,
         CapsApply, CapsBody;
    CapsAppliesIff(parts);
    if name == "enter" && CapsApply(Render(parts)) {
      var inserted := InsertParts(Anchor, parts, CapDeclaration());
      BodyAfterInsert(Anchor, parts, CapDeclaration(), name);
      NoPlaceIn(Anchor, b);
      BodyAfterPatch(inserted, ENTER, Checked, WithCap, name);
      CapsAre(b);
    }
  }

  const DESCRIPTION := "schema.description"

  /** A guard brings no description to the body behind it. */
  lemma GuardOpensNone(g: string, y: string)
    requires g != "" && g[|g| - 1] == ' ' && 'm' !in g && !Contains(y, DESCRIPTION)
    ensures !Contains(g + y, DESCRIPTION)
  {
    hide Contains;
    if Contains(g + y, DESCRIPTION) {
      var i := PlaceOf(g + y, DESCRIPTION);
      if i < |g| {
        AcrossGuard(g, y, i);
      } else {
        InBody(g, y, i);
      }
    }
  }

  lemma PlaceOf(t: string, word: string) returns (i: nat)
    requires Contains(t, word)
    ensures i <= |t| && word <= t[i..]
  {
    i :| 0 <= i <= |t| && word <= t[i..];
  }

  /** A description that starts in the text `g` either has its letter m there or reaches over the end of it. */
  lemma AcrossGuard(g: string, y: string, i: nat)
    requires i < |g| && DESCRIPTION <= (g + y)[i..]
    ensures 'm' in g || g[|g| - 1] != ' '
  {
    DescriptionLetters();
    var t := g + y;
    assert t[i..][4] == t[i + 4];
    if i + 4 < |g| {
      assert g[i + 4] == 'm';
    } else {
      assert t[i..][|g| - 1 - i] == g[|g| - 1];
    }
  }

  lemma InBody(g: string, y: string, i: nat)
    requires |g| <= i <= |g + y| && DESCRIPTION <= (g + y)[i..]
    ensures Contains(y, DESCRIPTION)
  {
    assert (g + y)[i..] == y[i - |g|..];
  }

  lemma DescriptionLetters()
    ensures |DESCRIPTION| == 18 && DESCRIPTION[4] == 'm' && forall k :: 0 <= k < 18 ==> DESCRIPTION[k] != ' '
  {
  }

  lemma CapGuardOpensNone()
    ensures CAP_GUARD != "" && CAP_GUARD[|CAP_GUARD| - 1] == ' ' && 'm' !in CAP_GUARD
  {
    hide CapGuard;
    CapGuardLetters();
    CapText();
    assert GuardEnd()[|GuardEnd()| - 1] == ' ' && 'm' !in GuardEnd();
    assert CAP_GUARD[|CAP_GUARD| - 1] == GuardEnd()[|GuardEnd()| - 1];
  }

  lemma CappedOpensNone(capped: bool, b: string, c: string)
    requires ReadsCapped(capped, b, c) && !Contains(b, DESCRIPTION)
    ensures !Contains(c, DESCRIPTION)
  {
    hide CapsBody;
    if c != b {
      var y :| TrimsLeft(b, y) && c == CAP_GUARD + y;
      forall i | 0 <= i <= |y|
        ensures !(DESCRIPTION <= y[i..])
      {
        assert y[i..] == b[|b| - |y| + i..];
      }
      CapGuardOpensNone();
      GuardOpensNone(CAP_GUARD, y);
    }
  }

  lemma {:induction false} NoDescriptionIn(b: string)
    requires !Contains(b, DESCRIPTION)
    ensures First(Description, b).None?
  {
    hide RestAt;
    if b != "" {
      assert b[0..] == b && At(OPENING, b).None?;
      assert forall i :: 0 <= i <= |b[1..]| ==> b[1..][i..] == b[i + 1..];
      NoDescriptionIn(b[1..]);
    }
  }

  lemma BodyBeforeReset(parts: seq<Part>, name: string, b: string) returns (c: string)
    requires WellFormed(parts) && BodyIn(parts, name) == Some(b) && NoPlace(b)
    ensures BodyIn(DiscloseParts(ModifyParts(CapParts(parts))), name) == Some(c)
    ensures if name == "enter" then ReadsCapped(!CapsApply(Render(parts)), b, c) else c == b
  {
    hide WellFormed, BodyIn, CapParts, FoundParts, SomeHeader, ModifierParts, ReadsCapped, CapsApply, Render,
         FiresParts, InsertParts, Contains, Disclosure, First;
    c := BodyAfterCap(parts, name, b);
    BodyAfterModifier(CapParts(parts), name);
    if name == "enter" {
      CappedOpensNone(!CapsApply(Render(parts)), b, c);
    }
    NoDescriptionIn(c);
    BodyAfterInsert(Description, ModifyParts(CapParts(parts)), Disclosure(), name);
  }

  // ---- The whole sequence ----

  /** The text the last three patches are applied to. */
  ghost function AfterDisclosure(t: string): string {
    Disclose(BeforeDisclosure(t))
  }

  ghost predicate Draws(t: string) {
    Contains(t, "FlapAIConsumerBase") && Contains(t, "lastDrawFee")
  }

  lemma DisclosedInRender(parts: seq<Part>)
    requires WellFormed(parts)
    ensures var p3 := DiscloseParts(ModifyParts(CapParts(parts)));
            AfterDisclosure(Render(parts)) == Render(p3) && WellFormed(p3)
            && Common(Render(parts)) == Render(CommonParts(parts)) && WellFormed(CommonParts(parts))
  {
    hide WellFormed, Render, EntrantCap, CapParts, NonReentrant, ModifyParts, Disclose, DiscloseParts, Edited,
         PartsAddNone, Common, CommonParts;
    CapInRender(parts);
    ModifyInRender(CapParts(parts));
    DiscloseInRender(ModifyParts(CapParts(parts)));
    CommonInRender(parts);
  }

  lemma BodyAfterReset(p3: seq<Part>, name: string, b: string) returns (c: string)
    requires WellFormed(p3) && BodyIn(p3, name) == Some(b)
    ensures BodyIn(ResetParts(p3), name) == Some(c)
    ensures if name == "_fulfillReasoning" then ReadsReset(Draws(Render(p3)), b, c) else c == b
  {
    hide WellFormed, BodyIn, PatchParts, Resets, WithReset, FoundParts, Found, Render, Contains, ResetsFee, Passive,
         TrimsRight;
    WordsArePassive(CONSUMER);
    WordsArePassive(FEE);
    FoundInRender(CONSUMER, p3);
    FoundInRender(FEE, p3);
    CappedIff(Render(p3));
    BodyAfterPatch(p3, FULFILL, Resets, WithReset, name);
    c := BodyIn(ResetParts(p3), name).value;
    ResetsAre(b);
  }

  lemma BodyAfterBounds(p4: seq<Part>, name: string, b: string) returns (c: string)
    requires BodyIn(p4, name) == Some(b)
    ensures BodyIn(BoundParts(BoundParts(p4, REQUEST_DRAW), REQUEST_ELIMINATION), name) == Some(c)
    ensures if name == "requestDraw" || name == "requestElimination" then ReadsChecked(b, c) else c == b
  {
    hide BodyIn, PatchParts, Bounded, WithCheck, ReadsChecked;
    Names();
    var edit := b => WithCheck(b);
    BodyAfterPatch(p4, REQUEST_DRAW, Bounded, edit, name);
    var p5 := BoundParts(p4, REQUEST_DRAW);
    BodyAfterPatch(p5, REQUEST_ELIMINATION, Bounded, edit, name);
    c := BodyIn(BoundParts(p5, REQUEST_ELIMINATION), name).value;
    ChecksAre(b);
  }

  /** What the body `b` of a function reads behind the disclosure: `drawn` tells whether there is a fee to reset. */
  ghost predicate ReadsGuarded(name: string, drawn: bool, b: string, c: string) {
    if name == "requestDraw" || name == "requestElimination" then ReadsChecked(b, c)
    else if name == "_fulfillReasoning" then ReadsReset(drawn, b, c)
    else c == b
  }

  /**
   * On well-formed source, after the whole sequence: the two draw functions read back with their count checked, by
   * the guard on the snapshot exactly when they mention it; `_fulfillReasoning` with the fee reset; `enter` and every
   * other function as the disclosure left them.
   */
  lemma GuardsReadBack(parts: seq<Part>, name: string, b: string)
    requires WellFormed(parts) && FindFunctionBody(AfterDisclosure(Render(parts)), name) == Some(b)
    ensures var t, u := Render(parts), Common(Render(parts));
            FindFunctionBody(u, name).Some?
            && ReadsGuarded(name, Draws(AfterDisclosure(t)), b, FindFunctionBody(u, name).value)
  {
    hide WellFormed, Render, FindFunctionBody, BodyIn, ResetParts, BoundParts, DiscloseParts, ModifyParts, CapParts,
         AfterDisclosure, Common, ReadsChecked, ReadsReset, Draws;
    var p3 := DiscloseParts(ModifyParts(CapParts(parts)));
    DisclosedInRender(parts);
    FindInRender(p3, name);
    FindInRender(CommonParts(parts), name);
    Names();
    var c := BodyAfterReset(p3, name, b);
    var d := BodyAfterBounds(ResetParts(p3), name, c);
  }

  /**
   * A body in which nothing is declared or described reads back so from the original text, and that of `enter` with
   * its entrants capped, if the text is not.
   */
  lemma BodiesReadBack(parts: seq<Part>, name: string, b: string)
    requires WellFormed(parts) && FindFunctionBody(Render(parts), name) == Some(b)
    requires !Contains(b, "address[]") && !Contains(b, "schema.description")
    ensures var t, u := Render(parts), Common(Render(parts));
            && FindFunctionBody(u, name).Some?
            && (if name == "enter" then ReadsCapped(!CapsApply(t), b, FindFunctionBody(u, name).value)
                else ReadsGuarded(name, Draws(AfterDisclosure(t)), b, FindFunctionBody(u, name).value))
  {
    hide WellFormed, Render, FindFunctionBody, BodyIn, ResetParts, BoundParts, DiscloseParts, ModifyParts, CapParts,
         AfterDisclosure, Common, ReadsChecked, ReadsReset, ReadsCapped, Draws, CapsApply, Contains;
    DisclosedInRender(parts);
    FindInRender(parts, name);
    FindInRender(DiscloseParts(ModifyParts(CapParts(parts))), name);
    var c := BodyBeforeReset(parts, name, b);
    GuardsReadBack(parts, name, c);
  }
}
