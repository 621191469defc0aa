/** What the inserted texts do to pattern tests, to heads and to descriptions. */
module EditEffects {
  import opened Wrappers
  import opened SolidityText
  import opened Patterns
  import opened FunctionHeads
  import opened Insertions
  import opened FunctionBodies
  import opened SourcePatches
  import opened SourceParts
  import opened PatchTexts

  lemma Within(p: Pattern, a: string, x: string, b: string, t: string)
    requires Valid(p) && Found(p, x) && t == a + x + b
    ensures Found(p, t)
  {
    FoundWithin(p, a, x, b);
  }

  // ---- A guard in front of a body ----

  lemma BodyParts(body: string) returns (ws: string, x: string)
    ensures body == ws + x && (forall c :: c in ws ==> IsSpace(c))
    ensures forall g :: Guarded(g, body) == g + x
  {
    var n := Skip(body, 0, IsSpace);
    ws, x := body[..n], body[n..];
  }

  lemma GuardKeeps(p: Pattern, g: string, body: string)
    requires Valid(p) && Found(p, body)
    ensures Found(p, Guarded(g, body))
  {
    hide Found, At, Guarded;
    var ws, x := BodyParts(body);
    FirstIsPlain(p);
    FoundAfter(p, ws, x);
    Within(p, g, x, "", Guarded(g, body));
  }

  lemma FirstIsPlain(p: Pattern)
    requires Valid(p)
    ensures p.first != "" && !IsSpace(p.first[0])
  {
  }

  /** No match contains a closing parenthesis or starts like what follows it. */
  ghost predicate PassesGuard(p: Pattern) {
    Valid(p) && Never(p, ')') && p.first[0] != ';'
  }

  lemma GuardAddsNone(p: Pattern, g: string, body: string)
    requires PassesGuard(p) && !Found(p, g) && Found(p, Guarded(g + GuardEnd(), body))
    ensures Found(p, body)
  {
    hide Found, At, Guarded, Uses;
    var ws, x := BodyParts(body);
    var tail := ";\n        ";
    assert Guarded(g + GuardEnd(), body) == g + [')'] + (tail + x) by {
      assert GuardEnd() == [')'] + tail;
      assert g + GuardEnd() + x == g + [')'] + (tail + x);
    }
    FirstIsPlain(p);
    FoundAcross(p, g, ')', tail + x);
    assert p.first[0] !in tail;
    FoundAfter(p, tail, x);
    Within(p, ws, x, "", body);
  }

  // ---- The reset behind a body ----

  lemma TrimmedParts(body: string) returns (x: string, ws: string)
    ensures body == x + ws && (forall c :: c in ws ==> IsSpace(c)) && x == TrimEnd(body)
  {
    x := TrimEnd(body);
    ws := body[|x|..];
    assert forall i :: 0 <= i < |ws| ==> ws[i] == body[|x| + i];
  }

  lemma ResetKeeps(p: Pattern, body: string, text: string)
    requires Valid(p) && !IsSpace(Last(p)) && Found(p, body)
    ensures Found(p, Extended(body, text))
  {
    hide Found, At, TrimEnd;
    var x, ws := TrimmedParts(body);
    FoundUpTo(p, x, ws);
    Within(p, "", x, text, Extended(body, text));
  }

  /** What the reset is found in was there before: for a single word that lacks its letters. */
  lemma ResetAddsNoWord(p: Pattern, c: char, body: string)
    requires Valid(p) && p.rest == [] && !Uses(p, '\n')
    requires c in p.first && (c == 'u' || c == 'n') && Found(p, Extended(body, Reset()))
    ensures Found(p, body)
  {
    hide Found, At, TrimEnd, Lacks;
    var x, ws := TrimmedParts(body);
    ResetStarts();
    ResetLetters();
    var r := Reset()[1..];
    assert Extended(body, Reset()) == x + ['\n'] + r;
    FoundAcross(p, x, '\n', r);
    if Found(p, r) {
      Within(p, "\n", r, "", Reset());
      NoneFound(p, c, Reset(), InReset);
    }
    Within(p, "", x, ws, body);
  }

  lemma ResetStarts()
    ensures Reset() != "" && Reset()[0] == '\n' && Reset() == "\n" + Reset()[1..]
  {
  }

  lemma ResetAddsNoEnd(p: Pattern, body: string)
    requires Valid(p) && (Last(p) == '(' || Last(p) == '"') && Found(p, Extended(body, Reset()))
    ensures Found(p, body)
  {
    hide Found, At, TrimEnd;
    var x, ws := TrimmedParts(body);
    ResetLetters();
    assert Last(p) !in Reset();
    FoundUpTo(p, x, Reset());
    Within(p, "", x, ws, body);
  }

  lemma ResetAddsNoAnchor(p: Pattern, body: string)
    requires (p == ENTRANTS || p == PUBLIC_ENTRANTS) && Found(p, Extended(body, Reset()))
    ensures Found(p, body)
  {
    hide Found, At, TrimEnd, Reset, Uses;
    var x, ws := TrimmedParts(body);
    TargetsAreValid();
    ResetSplits();
    AnchorsLack('0');
    var r := "\n        lastDrawFee = ";
    assert Extended(body, Reset()) == (x + r) + ['0'] + ";\n    ";
    FoundAcross(p, x + r, '0', ";\n    ");
    if Found(p, ";\n    ") {
      FoundHas(p, 'a', ";\n    ");
    }
    FoundUpTo(p, x, r);
    Within(p, "", x, ws, body);
  }

  lemma ResetSplits()
    ensures Reset() == "\n        lastDrawFee = " + (['0'] + ";\n    ") && ';' !in "\n        lastDrawFee = "
  {
  }

  lemma AnchorsLack(c: char)
    requires c == '0' || c == '"' || c == 'w' || c == ')' || c == '5'
    ensures !Uses(ENTRANTS, c) && !Uses(PUBLIC_ENTRANTS, c)
  {
    UsesTwo(ENTRANTS, Piece(true, Literal("entrants")), END, c);
    UsesThree(PUBLIC_ENTRANTS, Piece(true, Literal("public")), Piece(true, Literal("entrants")), END, c);
    hide Uses;
    if c == '0' {
      assert '0' !in "address[]" && '0' !in "entrants" && '0' !in "public";
    } else if c == '"' {
      assert '"' !in "address[]" && '"' !in "entrants" && '"' !in "public";
    } else if c == '5' {
      assert '5' !in "address[]" && '5' !in "entrants" && '5' !in "public";
    } else if c == 'w' {
      assert 'w' !in "address[]" && 'w' !in "entrants" && 'w' !in "public";
    } else {
      assert ')' !in "address[]" && ')' !in "entrants" && ')' !in "public";
    }
  }

  // ---- The disclosure in front of a quote ----

  lemma DisclosureKeeps(p: Pattern, a: string, b: string)
    requires Valid(p) && Never(p, '"') && Found(p, a + "\"" + b)
    ensures Found(p, a + Disclosure() + ("\"" + b))
  {
    hide Found, At, Uses, Disclosure;
    var d := Disclosure();
    var u := a + d + ("\"" + b);
    assert a + "\"" + b == a + ['"'] + b;
    FoundAcross(p, a, '"', b);
    if Found(p, a) {
      Within(p, "", a, d + ("\"" + b), u);
    } else {
      Within(p, a + d + "\"", b, "", u);
    }
  }

  lemma DisclosureAddsNone(p: Pattern, c: char, a: string, b: string)
    requires Valid(p) && Never(p, '"') && !Uses(p, ';') && c in p.first && InDisclosure(c)
    requires Found(p, a + Disclosure() + ("\"" + b))
    ensures Found(p, a + "\"" + b)
  {
    hide Found, At, Uses, Disclosure, Lacks;
    DisclosureStarts();
    DisclosureLetters();
    var d := Disclosure()[1..];
    assert a + Disclosure() + ("\"" + b) == a + [';'] + (d + ['"'] + b);
    FoundAcross(p, a, ';', d + ['"'] + b);
    if Found(p, a) {
      Within(p, "", a, "\"" + b, a + "\"" + b);
    } else {
      FoundAcross(p, d, '"', b);
      if Found(p, d) {
        Within(p, ";", d, "", Disclosure());
        NoneFound(p, c, Disclosure(), InDisclosure);
      }
      Within(p, a + "\"", b, "", a + "\"" + b);
    }
  }

  lemma DisclosureStarts()
    ensures |Disclosure()| > 2 && Disclosure()[0] == ';' && Disclosure()[1] == ' ' && Disclosure()[2] == 'w'
    ensures Disclosure() == ";" + Disclosure()[1..]
  {
    DisclosureParts();
    var a := "; winner selected by Flap AI";
    assert a[0] == ';' && a[1] == ' ' && a[2] == 'w';
  }

  // ---- Heads and descriptions stay in order ----

  lemma GuardedIsOk(g: string, body: string)
    requires !Found(HEAD, g) && !Found(OPENING, g) && NoBraces(g) && TextOk(body) && Balanced(body)
    ensures TextOk(Guarded(g + GuardEnd(), body)) && Balanced(Guarded(g + GuardEnd(), body))
  {
    hide Found, At, Guarded, Uses, Quoted, Balanced;
    var u := Guarded(g + GuardEnd(), body);
    HeadIsValid();
    HeadHasNoParenthesis();
    if Found(HEAD, u) {
      GuardAddsNone(HEAD, g, body);
    }
    QuotedGuarded(g, body);
    assert NoBraces(g + GuardEnd()) by {
      assert NoBraces(GuardEnd());
    }
    GuardedIsBalanced(g + GuardEnd(), body);
  }

  lemma HeadHasNoParenthesis()
    ensures !Uses(HEAD, ')') && !Uses(HEAD, ';') && !Uses(HEAD, '"')
  {
    UsesTwo(HEAD, Piece(true, Identifier), PARENTHESIS, ')');
    UsesTwo(HEAD, Piece(true, Identifier), PARENTHESIS, ';');
    UsesTwo(HEAD, Piece(true, Identifier), PARENTHESIS, '"');
  }

  lemma QuotedGuarded(g: string, body: string)
    requires !Found(OPENING, g) && Quoted(body)
    ensures Quoted(Guarded(g + GuardEnd(), body))
  {
    hide Found, At, Uses, Closes;
    var n := Skip(body, 0, IsSpace);
    var x, tail := body[n..], ";\n        ";
    var u := g + ([')'] + tail) + x;
    assert GuardEnd() == [')'] + tail;
    assert Guarded(g + GuardEnd(), body) == u;
    forall i | 0 <= i <= |u| && At(OPENING, u[i..]).Some?
      ensures Closes(u[i..])
    {
      NoOpeningInGuard(g, x, i);
      assert u[i..] == body[n + i - |g| - 1 - |tail|..];
    }
  }

  lemma NoOpeningInGuard(g: string, x: string, i: nat)
    requires !Found(OPENING, g)
    requires var u := g + ([')'] + ";\n        ") + x; i <= |u| && At(OPENING, u[i..]).Some?
    ensures |g| + 10 < i
  {
    hide Found, At, Uses;
    var tail := ";\n        ";
    var u := g + ([')'] + tail) + x;
    TargetsAreValid();
    OpeningHasNoParenthesis(')');
    if i <= |g| {
      assert u[i..] == g[i..] + ([')'] + tail + x);
      AtInContext(OPENING, g[i..], [')'] + tail + x);
      FoundHere(OPENING, g, i);
    } else {
      assert i < |g| + 11 ==> u[i] == ([')'] + tail)[i - |g|];
      StartsWithFirst(OPENING, u[i..]);
    }
  }

  lemma ExtendedIsOk(body: string)
    requires TextOk(body) && Balanced(body)
    ensures TextOk(Extended(body, Reset())) && Balanced(Extended(body, Reset()))
  {
    hide Found, At, Extended, Quoted, Balanced;
    var u := Extended(body, Reset());
    HeadIsValid();
    if Found(HEAD, u) {
      ResetAddsNoEnd(HEAD, body);
    }
    QuotedExtended(body);
    ResetLetters();
    ExtendedIsBalanced(body, Reset());
  }

  lemma QuotedExtended(body: string)
    requires Quoted(body)
    ensures Quoted(Extended(body, Reset()))
  {
    hide Found, At, Closes, TrimEnd, Reset;
    var x, ws := TrimmedParts(body);
    var u := x + Reset();
    TargetsAreValid();
    ResetLetters();
    forall i | 0 <= i <= |u| && At(OPENING, u[i..]).Some?
      ensures Closes(u[i..])
    {
      var n := At(OPENING, u[i..]).value;
      AtEnds(OPENING, u[i..]);
      assert u[i..][n - 1] == u[i + n - 1];
      assert i + n <= |x|;
      assert SameUpTo(u[i..], body[i..], |x| - i);
      AtIsLocal(OPENING, u[i..], body[i..], n);
      StillCloses(body[i..], u[i..], |x| - i, ws);
    }
  }

  /** A description that is closed before the trailing spaces stays closed. */
  lemma StillCloses(t: string, u: string, n: nat, ws: string)
    requires At(OPENING, t).Some? && At(OPENING, u) == At(OPENING, t) && Closes(t)
    requires SameUpTo(t, u, n) && t[n..] == ws && forall c :: c in ws ==> IsSpace(c)
    ensures Closes(u)
  {
    hide At;
    var close := DescriptionAt(t).value;
    assert forall k :: n <= k < |t| ==> t[k] == ws[k - n] && ws[k - n] in ws;
    SkipPrefix(t, u, At(OPENING, t).value, NotQuote, n);
    assert t[At(OPENING, t).value..close] == u[At(OPENING, t).value..close];
  }

  // ---- Insertions ----

  /** No array declaration reaches across the text or starts at its end. */
  ghost predicate Severs(y: string) {
    exists k :: 0 <= k < |y| && SeversAt(y, k)
  }

  ghost predicate SeversAt(y: string, k: nat)
    requires k < |y|
  {
    !Uses(ENTRANTS, y[k]) && !Uses(PUBLIC_ENTRANTS, y[k]) && !IsSpace(y[k]) && 'a' !in y[k + 1..]
  }

  lemma SeveredEnd(a: string, y: string, b: string)
    requires Severs(y) && EndsInAnchor(a + y + b)
    ensures EndsInAnchor(a + b)
  {
    hide At, Uses, EndsAt;
    var u := a + y + b;
    var k :| 0 <= k < |y| && SeversAt(y, k);
    var i :| 0 <= i <= |u| && (EndsAt(ENTRANTS, u[i..]) || EndsAt(PUBLIC_ENTRANTS, u[i..]));
    EndsBehind(if EndsAt(ENTRANTS, u[i..]) then ENTRANTS else PUBLIC_ENTRANTS, a, y, b, k, i);
    assert u[i..] == (a + b)[i - |y|..];
  }

  lemma EndsBehind(p: Pattern, a: string, y: string, b: string, k: nat, i: nat)
    requires p == ENTRANTS || p == PUBLIC_ENTRANTS
    requires k < |y| && SeversAt(y, k) && i <= |a + y + b| && EndsAt(p, (a + y + b)[i..])
    ensures |a| + |y| <= i
  {
    hide At, Uses;
    var u := a + y + b;
    var t := u[i..] + ";";
    TargetsAreValid();
    if i <= |a| + k {
      assert t[|a| + k - i] == y[k];
      AtUses(p, t, |a| + k - i);
    } else if i < |a| + |y| {
      assert t[0] == y[i - |a|] && y[i - |a|] == y[k + 1..][i - |a| - k - 1] && p.first[0] == 'a';
      StartsWithFirst(p, t);
    }
  }

  /** Descriptions open on either side of the inserted text as before, and nothing in it closes or opens one. */
  ghost predicate OpensAround(a: string, y: string, b: string) {
    && '"' !in y && Severs(y)
    && (forall i :: 0 <= i < |a| + |y| && At(OPENING, (a + y + b)[i..]).Some? ==>
          i + At(OPENING, (a + y + b)[i..]).value <= |a|)
  }

  lemma QuotedInserted(a: string, y: string, b: string)
    requires Quoted(a + b) && OpensAround(a, y, b)
    ensures Quoted(a + y + b)
  {
    hide At, Closes;
    var t, u := a + b, a + y + b;
    TargetsAreValid();
    forall i | 0 <= i <= |u| && At(OPENING, u[i..]).Some?
      ensures Closes(u[i..])
    {
      if i < |a| + |y| {
        var n := At(OPENING, u[i..]).value;
        AtEnds(OPENING, u[i..]);
        assert t[i..] == a[i..] + b && u[i..] == a[i..] + y + b;
        AtIsLocal(OPENING, u[i..], t[i..], n);
        ClosesBehind(a[i..], y, b);
      } else {
        assert u[i..] == t[i - |y|..];
      }
    }
  }

  lemma ClosesBehind(a: string, y: string, b: string)
    requires At(OPENING, a + b).Some? && At(OPENING, a + y + b) == At(OPENING, a + b)
    requires At(OPENING, a + b).value <= |a| && Closes(a + b) && '"' !in y && Severs(y)
    ensures Closes(a + y + b)
  {
    hide At;
    var t, u := a + b, a + y + b;
    var n := At(OPENING, t).value;
    var close := DescriptionAt(t).value;
    if close < |a| {
      SkipPrefix(t, u, n, NotQuote, |a|);
      assert t[n..close] == u[n..close];
    } else {
      QuoteBehind(a, y, b, n, close);
    }
  }

  lemma QuoteBehind(a: string, y: string, b: string, n: nat, close: nat)
    requires n <= |a| <= close < |a + b| && close == Skip(a + b, n, NotQuote) && '"' !in y && Severs(y)
    requires !EndsInAnchor((a + b)[n..close])
    ensures Skip(a + y + b, n, NotQuote) == close + |y| < |a + y + b|
    ensures !EndsInAnchor((a + y + b)[n..close + |y|])
  {
    hide Skip, EndsInAnchor, Severs;
    var t, u := a + b, a + y + b;
    assert forall k :: n <= k < |a| ==> u[k] == t[k] && NotQuote(t[k]);
    assert forall k :: |a| <= k < |a| + |y| ==> u[k] == y[k - |a|] && y[k - |a|] in y;
    assert forall k :: |a| + |y| <= k < close + |y| ==> u[k] == t[k - |y|] && NotQuote(t[k - |y|]);
    SkipIs(u, n, NotQuote, close + |y|);
    var c := close - |a|;
    assert t[n..close] == a[n..] + b[..c];
    assert u[n..close + |y|] == a[n..] + y + b[..c];
    if EndsInAnchor(a[n..] + y + b[..c]) {
      SeveredEnd(a[n..], y, b[..c]);
    }
  }

  lemma InsertedIsBalanced(a: string, y: string, b: string)
    requires NoBraces(y) && Balanced(a + b)
    ensures Balanced(a + y + b)
  {
    Prefixed(a, b, 1);
    AfterAppend(a, b, 1);
    AfterAppend(a, y + b, 1);
    PlainTextKeepsDepth(y, b, After(a, 1).value);
    assert a + y + b == a + (y + b);
  }

  /** Behind the array declaration, the constant changes no head and no description. */
  lemma DeclarationIsOk(a: string, b: string)
    requires a != "" && a[|a| - 1] == ';' && TextOk(a + b)
    ensures TextOk(a + CapDeclaration() + b)
  {
    hide Found, At, Quoted, CapDeclaration, Uses, Lacks;
    var y := CapDeclaration();
    HeadIsValid();
    HeadHasNoParenthesis();
    DeclarationLetters();
    DeclarationEnds();
    NoneFound(HEAD, 'f', y, InDeclaration);
    var a', y' := a[..|a| - 1], y[..|y| - 1];
    assert a == a' + ";" && y == y' + ";";
    if Found(HEAD, a + y + b) {
      assert a + y + b == a' + [';'] + (y' + [';'] + b);
      FoundAcross(HEAD, a', ';', y' + [';'] + b);
      if Found(HEAD, a') {
        Within(HEAD, "", a', ";" + b, a + b);
      } else {
        FoundAcross(HEAD, y', ';', b);
        if Found(HEAD, y') {
          Within(HEAD, "", y', ";", y);
        }
        Within(HEAD, a, b, "", a + b);
      }
    }
    DeclarationOpensAround(a, b);
    QuotedInserted(a, y, b);
  }

  lemma DeclarationEnds()
    ensures CapDeclaration() != "" && CapDeclaration()[|CapDeclaration()| - 1] == ';'
  {
  }

  lemma DeclarationOpensAround(a: string, b: string)
    requires a != "" && a[|a| - 1] == ';'
    ensures OpensAround(a, CapDeclaration(), b)
  {
    hide Found, At, CapDeclaration, Uses, Severs;
    var y := CapDeclaration();
    DeclarationSevers();
    var u := a + y + b;
    TargetsAreValid();
    OpeningHasNoParenthesis(';');
    DeclarationLetters();
    DeclarationEnds();
    forall i | 0 <= i < |a| + |y| && At(OPENING, u[i..]).Some?
      ensures i + At(OPENING, u[i..]).value <= |a|
    {
      NotAcross(u, i, ';', if i < |a| then |a| - 1 else |a| + |y| - 1);
      if i >= |a| {
        assert u[i..] == y[i - |a|..] + b;
        NoOpeningWithin(y, b, i - |a|, At(OPENING, u[i..]).value);
      }
    }
  }

  lemma DeclarationSevers()
    ensures Severs(CapDeclaration())
  {
    hide Uses;
    AnchorsLack('5');
    var y := CapDeclaration();
    var k := |y| - 2;
    assert y[k] == '5' && y[k + 1..] == ";";
    assert SeversAt(y, k);
  }

  lemma DisclosureSevers()
    ensures Severs(Disclosure())
  {
    hide Uses, Disclosure;
    AnchorsLack(')');
    ClosesItself();
    var y := Disclosure();
    assert y[|y| - 1..] == ")" && y[|y|..] == "";
    assert SeversAt(y, |y| - 1);
  }

  /** The disclosure has a closing parenthesis of its own. */
  lemma ClosesItself()
    ensures |Disclosure()| > 0 && Disclosure()[|Disclosure()| - 1] == ')'
  {
    DisclosureParts();
    var a, b := "; winner selected by Flap AI", " provider (not on-chain VRF)";
    assert b[|b| - 1] == ')' && (a + b)[|a + b| - 1] == b[|b| - 1];
  }

  /** A match does not reach a character it cannot contain. */
  lemma NotAcross(u: string, i: nat, c: char, at: nat)
    requires i <= at < |u| && u[at] == c && !Uses(OPENING, c) && !IsSpace(c) && At(OPENING, u[i..]).Some?
    ensures i + At(OPENING, u[i..]).value <= at
  {
    hide At, Uses;
    TargetsAreValid();
    assert u[i..][at - i] == c;
    if at - i < At(OPENING, u[i..]).value {
      AtUses(OPENING, u[i..], at - i);
    }
  }

  lemma OpeningHasM(t: string)
    requires At(OPENING, t).Some?
    ensures |t| > 18 && t[4] == 'm' && forall k :: 0 <= k < 18 ==> t[k] != '"'
  {
    hide At;
    TargetsAreValid();
    AtEnds(OPENING, t);
    FirstOfOpening();
    assert forall k :: 0 <= k < 18 ==> t[k] == OPENING.first[k];
    if |t| == 18 {
      assert t[17] == 'n';
    }
  }

  lemma FirstOfOpening()
    ensures |OPENING.first| == 18 && OPENING.first[4] == 'm' && OPENING.first[17] == 'n'
    ensures forall k :: 0 <= k < 18 ==> OPENING.first[k] != '"'
  {
  }

  /** Text without the letter m opens no description. */
  lemma NoOpeningWithin(y: string, b: string, i: nat, n: nat)
    requires i < |y| && 'm' !in y
    ensures !(At(OPENING, y[i..] + b) == Some(n) && i + n <= |y|)
  {
    hide At;
    if At(OPENING, y[i..] + b) == Some(n) && i + n <= |y| {
      EndsBehindM(y, b, i, n);
    }
  }

  lemma EndsBehindM(y: string, b: string, i: nat, n: nat)
    requires i < |y| && At(OPENING, y[i..] + b) == Some(n) && i + n <= |y|
    ensures 'm' in y
  {
    hide At;
    TargetsAreValid();
    AtEnds(OPENING, y[i..] + b);
    FirstOfOpening();
    OpeningHasM(y[i..] + b);
    assert (y[i..] + b)[4] == y[i + 4];
  }

  /** In front of its closing quote, the disclosure changes no head and no description. */
  lemma DisclosureIsOk(a: string, b: string)
    requires TextOk(a + ("\"" + b))
    ensures TextOk(a + Disclosure() + ("\"" + b))
  {
    hide Found, At, Quoted, Disclosure, Uses;
    HeadIsValid();
    HeadHasNoParenthesis();
    assert a + "\"" + b == a + ("\"" + b);
    if Found(HEAD, a + Disclosure() + ("\"" + b)) {
      DisclosureAddsNone(HEAD, 'u', a, b);
    }
    DisclosureOpensAround(a, b);
    QuotedInserted(a, Disclosure(), "\"" + b);
  }

  lemma DisclosureOpensAround(a: string, b: string)
    ensures OpensAround(a, Disclosure(), "\"" + b)
  {
    hide Found, At, Disclosure, Uses, Severs;
    var y := Disclosure();
    DisclosureSevers();
    var u := a + y + ("\"" + b);
    TargetsAreValid();
    OpeningHasNoParenthesis(';');
    DisclosureLetters();
    DisclosureStarts();
    forall i | 0 <= i < |a| + |y| && At(OPENING, u[i..]).Some?
      ensures i + At(OPENING, u[i..]).value <= |a|
    {
      if i <= |a| {
        NotAcross(u, i, ';', |a|);
      } else {
        assert u[i..] == y[i - |a|..] + ("\"" + b);
        NoOpeningBeforeQuote(y, b, i - |a|);
      }
    }
  }

  lemma NoOpeningBeforeQuote(y: string, b: string, i: nat)
    requires i < |y| && 'm' !in y
    ensures At(OPENING, y[i..] + ("\"" + b)).None?
  {
    hide At;
    var t := y[i..] + ("\"" + b);
    if At(OPENING, t).Some? {
      MBeforeQuote(y, b, i);
    }
  }

  lemma MBeforeQuote(y: string, b: string, i: nat)
    requires i < |y| && At(OPENING, y[i..] + ("\"" + b)).Some?
    ensures 'm' in y
  {
    hide At;
    var t := y[i..] + ("\"" + b);
    assert t[|y| - i] == '"';
    OpeningHasM(t);
    assert t[4] == y[i + 4];
  }

  // ---- No array declaration appears ----

  /** The description that is open in front of the text, and whose words do not end in an array declaration. */
  lemma DisclosureAddsNoAnchor(p: Pattern, a: string, b: string, j: nat, n: nat)
    requires p == ENTRANTS || p == PUBLIC_ENTRANTS
    requires 0 < j + n <= |a| && a[j + n - 1] == '"' && !EndsInAnchor(a[j + n..])
    requires Found(p, a + Disclosure() + ("\"" + b))
    ensures Found(p, a + ("\"" + b))
  {
    hide Found, At, Disclosure, Uses;
    var d := Disclosure();
    var u := a + d + ("\"" + b);
    TargetsAreValid();
    AnchorsLack('"');
    AnchorsLack('w');
    DisclosureStarts();
    var i := FoundAt(p, u);
    var m := At(p, u[i..]).value;
    NoAnchorAcross(p, a, b, i, j + n);
    if i + m <= |a| {
      assert u == a + (d + ("\"" + b));
      FoundBefore(p, a, d + ("\"" + b), i);
      Within(p, "", a, "\"" + b, a + ("\"" + b));
    } else {
      assert u[i..] == (a + ("\"" + b))[i - |d|..];
      FoundHere(p, a + ("\"" + b), i - |d|);
    }
  }

  lemma FoundAt(p: Pattern, t: string) returns (i: nat)
    requires Found(p, t)
    ensures i <= |t| && At(p, t[i..]).Some?
  {
    hide At;
    i :| 0 <= i <= |t| && At(p, t[i..]).Some?;
  }

  /** An array declaration starts with its brackets and ends with a semicolon. */
  lemma AnchorShape(p: Pattern, t: string)
    requires (p == ENTRANTS || p == PUBLIC_ENTRANTS) && At(p, t).Some?
    ensures var m := At(p, t).value;
            9 <= m <= |t| && t[..9] == "address[]" && t[8] == ']' && t[m - 1] == ';'
            && forall k :: 0 <= k < m ==> t[k] != '"' && t[k] != 'w'
  {
    hide At, Uses;
    TargetsAreValid();
    AnchorsLack('"');
    AnchorsLack('w');
    AtEnds(p, t);
    forall k | 0 <= k < At(p, t).value
      ensures t[k] != '"' && t[k] != 'w'
    {
      AtUses(p, t, k);
    }
    assert t[..9][8] == t[8];
  }

  /** A declaration that reached into the disclosure would be one at the end of the description. */
  lemma NoAnchorAcross(p: Pattern, a: string, b: string, i: nat, open: nat)
    requires p == ENTRANTS || p == PUBLIC_ENTRANTS
    requires 0 < open <= |a| && a[open - 1] == '"' && !EndsInAnchor(a[open..])
    requires var u := a + Disclosure() + ("\"" + b); i <= |u| && At(p, u[i..]).Some?
    ensures var u := a + Disclosure() + ("\"" + b);
            i + At(p, u[i..]).value <= |a| || |a| + |Disclosure()| <= i
  {
    hide At, Disclosure, EndsInAnchor;
    var d := Disclosure();
    var u := a + d + ("\"" + b);
    var m := At(p, u[i..]).value;
    DisclosureLetters();
    DisclosureStarts();
    AnchorShape(p, u[i..]);
    assert forall k :: 0 <= k < m ==> u[i..][k] == u[i + k];
    AnchorInside(u, |a|, d, i, m, open);
    if i + m == |a| + 1 {
      AnchorAtEnd(p, a, d, "\"" + b, i, open);
    }
  }

  lemma AnchorAtEnd(p: Pattern, a: string, d: string, b: string, i: nat, open: nat)
    requires (p == ENTRANTS || p == PUBLIC_ENTRANTS) && open <= i <= |a| && d != "" && d[0] == ';'
    requires At(p, (a + d + b)[i..]) == Some(|a| + 1 - i)
    ensures EndsInAnchor(a[open..])
  {
    hide At;
    var u, x := a + d + b, a[open..];
    TargetsAreValid();
    assert x[i - open..] == a[i..];
    assert SameUpTo(u[i..], a[i..] + ";", |a| + 1 - i);
    AtIsLocal(p, u[i..], a[i..] + ";", |a| + 1 - i);
    assert EndsAt(p, x[i - open..]);
  }

  lemma AnchorInside(u: string, n: nat, d: string, i: nat, m: nat, open: nat)
    requires 9 <= m && i + m <= |u| && u[i + 8] == ']' && u[i + m - 1] == ';'
    requires forall k :: i <= k < i + m ==> u[k] != '"' && u[k] != 'w'
    requires |d| > 2 && n + |d| < |u| && u[n..n + |d|] == d && u[n + |d|] == '"'
    requires 0 < open <= n && u[open - 1] == '"'
    requires d[0] == ';' && d[1] == ' ' && d[2] == 'w' && Lacks(d, InDisclosure)
    ensures i + m <= n || n + |d| <= i || (i + m == n + 1 && open <= i)
  {
    assert forall k :: 0 <= k < |d| ==> u[n + k] == d[k];
    assert u[n + 0] == ';' && u[n + 1] == ' ' && u[n + 2] == 'w';
    assert forall k :: n <= k < n + |d| ==> u[k] != ']' by {
      forall k | n <= k < n + |d|
        ensures u[k] != ']'
      {
        assert u[k] == d[k - n];
      }
    }
  }
}
