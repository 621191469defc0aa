/** The head of `receive()`: no text the patches insert brings one. */
module ReceiveHeads {
  import opened Wrappers
  import opened SolidityText
  import opened Patterns
  import opened FunctionHeads
  import opened Insertions
  import opened FunctionBodies
  import opened SourceEditing
  import opened SourcePatches
  import opened SourceParts
  import opened SourceTests
  import opened SourceEdits
  import opened EnterModifier
  import opened PatchTexts
  import opened EditEffects
  import opened DisclosurePatch
  import opened PatchSteps
  import opened CommonPatches
  import opened PatchSettling
  import opened ReceiveInsertion
  import R = ReceiveBody

  // ---- The head of receive() ----

  lemma ReceiveUses(c: char)
    requires c == ';' || c == 'l' || c == '"' || c == 'd' || c == '{' || c == '}' || c == 'f'
    ensures Never(RECEIVE_HEAD, c)
  {
    UsesTwo(RECEIVE_HEAD, Gap("("), Gap(")"), c);
    hide Uses;
    assert c !in "receive" && c !in "(" && c !in ")";
  }

  lemma ReceiveIsPassive()
    ensures Passive(RECEIVE_HEAD) && Last(RECEIVE_HEAD) == ')'
  {
    TestsAreValid();
    ThreeAreSane(Gap("("), Gap(")"));
    ReceiveUses('{');
    ReceiveUses('}');
    ReceiveUses('f');
  }

  lemma ReceiveWord()
    ensures |RECEIVE_HEAD.first| == 7 && RECEIVE_HEAD.first[0] == 'r' && RECEIVE_HEAD.first[5] == 'v'
    ensures forall i :: 0 < i < 7 ==> RECEIVE_HEAD.first[i] != 'r'
    ensures 't' !in RECEIVE_HEAD.first[..5] && '(' !in RECEIVE_HEAD.first[..5]
    ensures 'v' in RECEIVE_HEAD.first && 'r' in RECEIVE_HEAD.first && 'c' in RECEIVE_HEAD.first
    ensures RECEIVE_HEAD.first[..5] == "recei"
  {
    assert RECEIVE_HEAD.first[2] == 'c';
    assert RECEIVE_HEAD.first[..5] == "recei";
  }

  /** A match of the whole header of `receive()` starts with its head. */
  lemma ReceiveIsHead(t: string)
    requires R.ReceiveAt(t).Some?
    ensures At(RECEIVE_HEAD, t).Some?
  {
    hide Skip, RestAt, PieceAt;
    var n := |R.RECEIVE|;
    var open := Skip(t, n, IsSpace);
    var close := Skip(t, open + 1, IsSpace);
    PieceAfter(t, n, "(", open);
    PieceAfter(t, open + 1, ")", close);
    assert t[n..][open + 1 - n..] == t[open + 1..];
    TwoPieces(Gap("("), Gap(")"), t[n..], open + 1 - n, close - open);
  }

  lemma PieceAfter(t: string, n: nat, x: string, at: nat)
    requires n <= at < |t| && at == Skip(t, n, IsSpace) && x == [t[at]]
    ensures PieceAt(Gap(x), t[n..]) == Some(at + 1 - n)
  {
    hide Skip;
    SkipShift(t, n, n, IsSpace);
    assert t[n..][at - n..] == t[at..];
  }

  /** Behind its first letter, a match has no other r. */
  lemma OneR(t: string, i: nat)
    requires At(RECEIVE_HEAD, t).Some? && 0 < i < At(RECEIVE_HEAD, t).value
    ensures t[i] != 'r'
  {
    hide At, RestAt;
    TestsAreValid();
    ReceiveWord();
    AtEnds(RECEIVE_HEAD, t);
    if i < 7 {
      assert t[..7][i] == t[i];
    } else {
      NoRBehind(t, i);
    }
  }

  lemma NoRBehind(t: string, i: nat)
    requires At(RECEIVE_HEAD, t).Some? && 7 <= i < At(RECEIVE_HEAD, t).value
    ensures t[i] != 'r'
  {
    hide RestAt, Sane;
    TestsAreValid();
    RestUses(RECEIVE_HEAD.rest, t[7..], i - 7);
    assert t[7..][i - 7] == t[i];
  }

  /** No match that starts in front of `receive()` reaches into it. */
  lemma NoneAcross(a: string, r: string, i: nat)
    requires i < |a| && !Found(RECEIVE_HEAD, a) && r != "" && r[0] == 'r'
    ensures At(RECEIVE_HEAD, (a + r)[i..]).None?
  {
    hide At, Valid;
    TestsAreValid();
    if At(RECEIVE_HEAD, (a + r)[i..]).Some? {
      var n := At(RECEIVE_HEAD, (a + r)[i..]).value;
      assert (a + r)[i..][|a| - i] == 'r';
      if i + n <= |a| {
        FoundBefore(RECEIVE_HEAD, a, r, i);
      } else {
        OneR((a + r)[i..], |a| - i);
      }
    }
  }

  // ---- Reading the body of a whole receive() ----

  /** The first head of `receive()` is the head of a whole function. */
  ghost predicate Whole(z: string) {
    && R.ReceivePos(z).Some? && Closed(z[R.ReceiveStart(z)..], 1)
    && !Found(RECEIVE_HEAD, z[..R.ReceivePos(z).value])
  }

  /** The first whole `receive()` of a text is the one read. */
  lemma {:induction false} ReadsWhole(a: string, z: string, rest: string)
    requires Whole(z) && !Found(RECEIVE_HEAD, a + z[..R.ReceivePos(z).value])
    ensures var t := a + (z + rest);
            && R.ReceivePos(t) == Some(|a| + R.ReceivePos(z).value) && Closed(t[R.ReceiveStart(t)..], 1)
            && R.ReceiveBody(t) == R.ReceiveBody(z)
  {
    hide R.ReceiveAt, Found, At, R.ReceivePos, Closed, Walk;
    var r := R.ReceivePos(z).value;
    var t, front, w := a + (z + rest), a + z[..r], z[r..];
    var n := R.ReceiveAt(w).value;
    assert t == front + (w + rest);
    R.ReceiveIsLocal(w, w + rest);
    StartsWithR(w);
    forall i | 0 <= i < |front|
      ensures R.ReceiveAt(t[i..]).None?
    {
      NoneAcross(front, w + rest, i);
      if R.ReceiveAt(t[i..]).Some? {
        ReceiveIsHead(t[i..]);
      }
    }
    assert t[|front|..] == w + rest;
    FirstAt(t, |front|);
    assert t[R.ReceiveStart(t)..] == w[n..] + rest && z[R.ReceiveStart(z)..] == w[n..];
    SameBody(w[n..], rest);
  }

  lemma StartsWithR(w: string)
    requires R.ReceiveAt(w).Some?
    ensures w != "" && w[0] == 'r'
  {
    assert w[..7] == R.RECEIVE;
  }

  lemma SameBody(t: string, rest: string)
    requires Closed(t, 1)
    ensures Closed(t + rest, 1) && BodyOf(t + rest) == BodyOf(t)
  {
    hide Closed, Walk;
    ClosedLonger(t, t + rest, 1);
    R.WalkPositive(t, 1);
    assert t != "" ==> (t + rest)[..Walk(t, 1) - 1] == t[..Walk(t, 1) - 1];
  }

  lemma {:induction false} FirstAt(t: string, n: nat)
    requires n < |t| && R.ReceiveAt(t[n..]).Some? && forall i :: 0 <= i < n ==> R.ReceiveAt(t[i..]).None?
    ensures R.ReceivePos(t) == Some(n)
  {
    hide R.ReceiveAt;
    assert t[0..] == t;
    if n > 0 {
      assert t[1..][n - 1..] == t[n..];
      assert forall i :: 0 <= i < n - 1 ==> t[1..][i..] == t[i + 1..];
      FirstAt(t[1..], n - 1);
    }
  }

  // ---- Where the patches insert ----

  /** What each place is given. */
  ghost predicate TextFor(k: Target, text: string) {
    match k
    case Anchor => text == CapDeclaration()
    case Description => text == Disclosure()
  }

  /** An array declaration ends in front of the place, or the place is in front of a quote. */
  predicate Placed(k: Target, a: string, b: string) {
    match k
    case Anchor => a != "" && a[|a| - 1] == ';'
    case Description => b != "" && b[0] == '"'
  }

  lemma FirstIsPlaced(k: Target, z: string, text: string) returns (a: string, b: string)
    requires First(k, z).Some?
    ensures z == a + b && |a| == First(k, z).value && InsertFirst(k, z, text) == a + text + b && Placed(k, a, b)
  {
    hide First;
    var p := First(k, z).value;
    a, b := z[..p], z[p..];
    if k == Anchor {
      AnchorEnds(z);
    } else {
      FirstIsQuote(z);
    }
  }

  lemma DeclarationStarts(b: string)
    ensures R.NoReceiveIn(CapDeclaration(), b)
  {
    hide CapDeclaration, R.ReceiveAt;
    var y := CapDeclaration();
    DeclarationEnds();
    DeclarationWithoutV();
    forall i | 0 <= i < |y|
      ensures R.ReceiveAt(y[i..] + b).None?
    {
      if R.ReceiveAt(y[i..] + b).Some? {
        VInFront(y, b, i);
      }
    }
  }

  lemma VInFront(y: string, b: string, i: nat)
    requires i < |y| && y[|y| - 1] == ';' && R.ReceiveAt(y[i..] + b).Some?
    ensures 'v' in y[..|y| - 1]
  {
    hide R.ReceiveAt;
    var t := y[i..] + b;
    var open, close := HeadOf(t);
    assert t[|y| - 1 - i] == ';';
    assert t[..7][5] == 'v';
    assert y[..|y| - 1][i + 5] == 'v';
  }

  lemma DisclosureStartsNone(b: string)
    requires b != "" && b[0] == '"'
    ensures R.NoReceiveIn(Disclosure(), b)
  {
    hide Disclosure, R.ReceiveAt, At, Found, Uses, Valid;
    DisclosureEdges();
    var y := Disclosure();
    var x := y[1..];
    TestsAreValid();
    ReceiveUses('"');
    DisclosureHasNoReceive();
    forall i | 0 <= i < |y|
      ensures R.ReceiveAt(y[i..] + b).None?
    {
      if R.ReceiveAt(y[i..] + b).Some? {
        var open, close := HeadOf(y[i..] + b);
        ReceiveIsHead(y[i..] + b);
        assert (y[i..] + b)[0] == y[i];
        assert y[i..] + b == (x + b)[i - 1..];
        HeadInFront(x, b, i - 1);
      }
    }
  }

  lemma DisclosureEdges()
    ensures Disclosure() != "" && Disclosure()[0] == ';'
  {
    DisclosureStarts();
  }

  lemma HeadInFront(x: string, b: string, i: nat)
    requires i <= |x| && At(RECEIVE_HEAD, (x + b)[i..]).Some? && b != "" && b[0] == '"' && Never(RECEIVE_HEAD, '"')
    ensures Found(RECEIVE_HEAD, x)
  {
    hide At, Uses;
    TestsAreValid();
    var n := At(RECEIVE_HEAD, (x + b)[i..]).value;
    assert (x + b)[i..][|x| - i] == '"';
    if i + n > |x| {
      AtUses(RECEIVE_HEAD, (x + b)[i..], |x| - i);
    }
    FoundBefore(RECEIVE_HEAD, x, b, i);
  }

  lemma PlacedIsQuiet(k: Target, a: string, text: string, b: string)
    requires Placed(k, a, b) && TextFor(k, text)
    ensures Quiet(a, text, b) && text != ""
  {
    hide CapDeclaration, Disclosure, R.NoReceiveIn, NoBraces;
    if k == Anchor {
      DeclarationHasNoBraces();
      DeclarationEnds();
      DeclarationStarts(b);
    } else {
      DisclosureHasNoBraces();
      DisclosureEdges();
      DisclosureStartsNone(b);
    }
  }

  // ---- No inserted text brings a head of receive() ----

  lemma WithoutV(t: string)
    requires 'v' !in t
    ensures !Found(RECEIVE_HEAD, t)
  {
    hide Found;
    TestsAreValid();
    ReceiveWord();
    NotFound(RECEIVE_HEAD, 'v', t);
  }

  lemma DeclarationAddsNoReceive(a: string, b: string)
    requires a != "" && a[|a| - 1] == ';'
    ensures AddsNone(RECEIVE_HEAD, a + b, a + CapDeclaration() + b)
  {
    hide Found, Valid, CapDeclaration, Uses;
    var front, d := a[..|a| - 1], CapDeclaration();
    DeclarationEnds();
    var inner := d[..|d| - 1];
    var y := a + d + b;
    assert y == front + [';'] + (inner + [';'] + b);
    assert a + b == "" + front + (";" + b) && a + b == a + b + "";
    TestsAreValid();
    ReceiveUses(';');
    if Found(RECEIVE_HEAD, y) {
      FoundAcross(RECEIVE_HEAD, front, ';', inner + [';'] + b);
      if Found(RECEIVE_HEAD, front) {
        Within(RECEIVE_HEAD, "", front, ";" + b, a + b);
      } else {
        FoundAcross(RECEIVE_HEAD, inner, ';', b);
        DeclarationWithoutV();
        WithoutV(inner);
        Within(RECEIVE_HEAD, a, b, "", a + b);
      }
    }
  }

  lemma DeclarationWithoutV()
    ensures 'v' !in CapDeclaration()[..|CapDeclaration()| - 1]
  {
    hide CapDeclaration;
    DeclarationEnds();
    DeclarationLetters();
  }

  lemma DisclosureHasNoReceive()
    ensures !Found(RECEIVE_HEAD, Disclosure()[1..])
  {
    hide Found, Valid, Uses;
    TestsAreValid();
    ReceiveWord();
    ReceiveUses('d');
    var a, b, c := " winner selecte", " by Flap AI provi", "er (not on-chain VRF)";
    DisclosureSplits();
    SplitLetters();
    WithoutV(a);
    NotFound(RECEIVE_HEAD, 'c', b);
    WithoutV(c);
    if Found(RECEIVE_HEAD, Disclosure()[1..]) {
      FoundAcross(RECEIVE_HEAD, a, 'd', b + ['d'] + c);
      FoundAcross(RECEIVE_HEAD, b, 'd', c);
    }
  }

  lemma DisclosureSplits()
    ensures |Disclosure()| > 0
    ensures Disclosure()[1..] == " winner selecte" + ['d'] + (" by Flap AI provi" + ['d'] + "er (not on-chain VRF)")
  {
    hide Disclosure;
    DisclosureParts();
    SelectedSplits();
    ProviderSplits();
    JoinAround("; winner selected by Flap AI", " winner selecte", " by Flap AI", " provi", "er (not on-chain VRF)");
  }

  lemma JoinAround(a: string, b: string, c: string, d: string, e: string)
    requires a != "" && a[1..] == b + ['d'] + c
    ensures (a + (d + ['d'] + e))[1..] == b + ['d'] + ((c + d) + ['d'] + e)
  {
    assert (a + (d + ['d'] + e))[1..] == a[1..] + (d + ['d'] + e);
  }

  lemma SelectedSplits()
    ensures "; winner selected by Flap AI"[1..] == " winner selecte" + ['d'] + " by Flap AI"
  {
  }

  lemma ProviderSplits()
    ensures " provider (not on-chain VRF)" == " provi" + ['d'] + "er (not on-chain VRF)"
    ensures " by Flap AI provi" == " by Flap AI" + " provi"
  {
  }

  lemma SplitLetters()
    ensures 'v' !in " winner selecte" && 'c' !in " by Flap AI provi" && 'v' !in "er (not on-chain VRF)"
  {
  }

  lemma DisclosureAddsNoReceive(a: string, b: string)
    ensures AddsNone(RECEIVE_HEAD, a + ("\"" + b), a + Disclosure() + ("\"" + b))
  {
    hide Found, Valid, Disclosure, Uses;
    DisclosureStarts();
    var d, x := Disclosure()[1..], a + ("\"" + b);
    var y := a + Disclosure() + ("\"" + b);
    assert y == a + [';'] + (d + ['"'] + b);
    assert x == "" + a + ("\"" + b) && x == (a + "\"") + b + "";
    TestsAreValid();
    ReceiveUses(';');
    ReceiveUses('"');
    if Found(RECEIVE_HEAD, y) {
      FoundAcross(RECEIVE_HEAD, a, ';', d + ['"'] + b);
      if Found(RECEIVE_HEAD, a) {
        Within(RECEIVE_HEAD, "", a, "\"" + b, x);
      } else {
        FoundAcross(RECEIVE_HEAD, d, '"', b);
        DisclosureHasNoReceive();
        Within(RECEIVE_HEAD, a + "\"", b, "", x);
      }
    }
  }

  lemma PlacedAddsNone(k: Target, a: string, text: string, b: string)
    requires Placed(k, a, b) && TextFor(k, text)
    ensures AddsNone(RECEIVE_HEAD, a + b, a + text + b)
  {
    hide AddsNone, CapDeclaration, Disclosure;
    if k == Anchor {
      DeclarationAddsNoReceive(a, b);
    } else {
      assert b == "\"" + b[1..];
      DisclosureAddsNoReceive(a, b[1..]);
    }
  }

  lemma ResetAroundL()
    ensures Reset() == "\n        " + (['l'] + "astDrawFee = 0;\n    ")
    ensures 'v' !in "astDrawFee = 0;\n    " && ')' !in "\n        "
  {
  }

  lemma ResetAddsNoReceive(b: string)
    ensures AddsNone(RECEIVE_HEAD, b, WithReset(b))
  {
    hide Found, Valid, TrimEnd, Uses, Reset;
    var x, ws := TrimmedParts(b);
    var front, rest := "\n        ", "astDrawFee = 0;\n    ";
    ResetAroundL();
    assert WithReset(b) == (x + front) + ['l'] + rest;
    ReceiveIsPassive();
    ReceiveUses('l');
    if Found(RECEIVE_HEAD, WithReset(b)) {
      FoundAcross(RECEIVE_HEAD, x + front, 'l', rest);
      WithoutV(rest);
      FoundUpTo(RECEIVE_HEAD, x, front);
      Within(RECEIVE_HEAD, "", x, ws, b);
    }
  }

  /** A guard brings no head, however its statement goes on. */
  ghost predicate GuardIsQuiet(g: string) {
    !Found(RECEIVE_HEAD, g + ")")
  }

  lemma GuardAddsNoReceive(g: string, b: string)
    requires GuardIsQuiet(g)
    ensures AddsNone(RECEIVE_HEAD, b, Guarded(g + GuardEnd(), b))
  {
    hide Found, Valid, Guarded, Uses;
    var ws, x := BodyParts(b);
    var tail := "\n        ";
    assert Guarded(g + GuardEnd(), b) == (g + ")") + [';'] + (tail + x) by {
      assert GuardEnd() == ")" + ([';'] + tail);
      assert g + GuardEnd() + x == (g + ")") + [';'] + (tail + x);
    }
    TestsAreValid();
    ReceiveUses(';');
    ReceiveWord();
    if Found(RECEIVE_HEAD, Guarded(g + GuardEnd(), b)) {
      FoundAcross(RECEIVE_HEAD, g + ")", ';', tail + x);
      FoundAfter(RECEIVE_HEAD, tail, x);
      Within(RECEIVE_HEAD, ws, x, "", b);
    }
  }

  lemma CapGuardIsQuiet()
    ensures GuardIsQuiet(CapGuard())
  {
    hide Found, CapGuard;
    CapGuardLetters();
    WithoutV(CapGuard() + ")");
  }

  lemma LimitSplits()
    ensures Limit() + ")"
            == ("uint8).max, " + "unicode\"Inva") + ['l'] + ("id entrant " + ("count / 无效参与者数量\"" + ")"))
  {
    assert "unicode\"Invalid entrant " == "unicode\"Inva" + (['l'] + "id entrant ");
  }

  lemma LimitPieceLetters()
    ensures 'r' !in "uint8).max, " && 'r' !in "unicode\"Inva"
    ensures 'v' !in "id entrant " && 'v' !in "count / 无效参与者数量\""
  {
  }

  lemma LimitIsQuiet()
    ensures GuardIsQuiet(Limit())
  {
    hide Found, Limit, Valid, Uses;
    var a, b := "uint8).max, " + "unicode\"Inva", "id entrant " + ("count / 无效参与者数量\"" + ")");
    LimitSplits();
    LimitPieceLetters();
    TestsAreValid();
    ReceiveWord();
    ReceiveUses('l');
    NotFound(RECEIVE_HEAD, 'r', a);
    WithoutV(b);
    if Found(RECEIVE_HEAD, Limit() + ")") {
      FoundAcross(RECEIVE_HEAD, a, 'l', b);
    }
  }

  lemma QuietBehind(y: string, g: string)
    requires GuardIsQuiet(g) && y != "" && y[|y| - 1] == '(' && 'v' !in y
    ensures GuardIsQuiet(y + g)
  {
    hide Found, Valid;
    TestsAreValid();
    ReceiveWord();
    assert y + g + ")" == y + (g + ")");
    if Found(RECEIVE_HEAD, y + (g + ")")) {
      BehindWord(RECEIVE_HEAD, 5, y, g + ")");
    }
  }

  lemma GuardFronts()
    ensures var y := "require(n > 0 && n <= type("; y != "" && y[|y| - 1] == '(' && 'v' !in y
    ensures 'v' !in "require" && 'v' !in "("
    ensures 'v' !in "drawSnapshot.length > 0 && " && 'v' !in "drawSnapshot.length <= type"
  {
    var y := "require(n > 0 && n <= type(";
    assert y[|y| - 1] == '(';
  }

  lemma CheckIsQuiet(b: string)
    ensures GuardIsQuiet(CountCheck(b))
  {
    hide GuardIsQuiet, Limit, Found;
    LimitIsQuiet();
    GuardFronts();
    var y := "require" + "(" + (Snapshots() + "(");
    QuietBehind("require(n > 0 && n <= type(", Limit());
    QuietBehind(y, Limit());
    assert SnapshotGuard() == y + Limit();
  }

  lemma ModifierAddsNoReceive(header: string)
    requires ExternalAt(header).Some?
    ensures AddsNone(RECEIVE_HEAD, header, NewHeader(header))
  {
    hide Found, Valid, ExternalAt, EnterHeader;
    var n := ExternalAt(header).value;
    var x := header[n..];
    assert header == header[..n] + x + "";
    TestsAreValid();
    ReceiveWord();
    EnterHeaderWord();
    if Found(RECEIVE_HEAD, NewHeader(header)) {
      BehindWord(RECEIVE_HEAD, 5, EnterHeader(), x);
      Within(RECEIVE_HEAD, header[..n], x, "", header);
    }
  }
}
