/** Well-formed source whose `receive()` the patches rewrite. */
module ReceiveEdited {
  import opened Wrappers
  import opened SolidityText
  import opened Patterns
  import opened FunctionHeads
  import opened Insertions
  import opened FunctionBodies
  import opened SourceEditing
  import opened SourcePatches
  import opened SourceParts
  import opened SourceTests
  import opened EnterModifier
  import opened SourceEdits
  import opened PatchTexts
  import opened CommonPatches
  import opened PatchIdempotence
  import opened ReceiveInsertion
  import opened ReceiveHeads
  import opened ReceiveKept
  import R = ReceiveBody

  const ARRAY := "address[] entrants;"
  const RECEIVING := "receive(){address[] entrants;}"
  const ENTERING := "function enter(){"
  const PUSHING := "entrants.push"

  /** An array declared in `receive()`, and a function that pushes to it. */
  function EditedParts(): seq<Part> {
    [Outside(RECEIVING), Declared(ENTER, ENTERING, PUSHING)]
  }

  // ---- The source is well-formed ----

  lemma EnteringMatch()
    ensures HeaderAt(ENTERING) == Some(Header(ENTER, 14, 15, 17))
  {
    hide Skip, HeaderAt;
    var t := ENTERING;
    SkipIs(t, 8, IsSpace, 9);
    SkipIs(t, 9, IsWord, 14);
    SkipIs(t, 14, IsSpace, 14);
    SkipIs(t, 15, NotClosing, 15);
    SkipIs(t, 16, NotOpeningBrace, 16);
    assert t[9..14] == ENTER && FUNCTION <= t;
    ScannedIsMatch(t, 9, 14, Header(ENTER, 14, 15, 17));
  }

  lemma EnteringLetters()
    ensures PlainHeader(ENTERING)
  {
  }

  /** No head, no description, no brace, and none of the tests for a cap. */
  predicate Simple(x: string) {
    forall i :: 0 <= i < |x| ==> x[i] != 'f' && x[i] != '"' && x[i] != 'l' && x[i] != 'M'
  }

  lemma ReceivingLetters()
    ensures Simple(RECEIVING)
  {
  }

  lemma PushingLetters()
    ensures Simple(PUSHING) && NoBraces(PUSHING)
  {
  }

  lemma EnteringTests()
    ensures 'l' !in ENTERING && 'M' !in ENTERING
  {
  }

  lemma EditedIsWellFormed()
    ensures WellFormed(EditedParts())
  {
    hide HeaderAt, PlainHeader, HeaderOk, TextOk, Balanced;
    ReceivingLetters();
    PushingLetters();
    PlainTextOk(RECEIVING);
    PlainTextOk(PUSHING);
    EnteringMatch();
    EnteringLetters();
    HeaderTextOk(ENTERING, Header(ENTER, 14, 15, 17));
    PushingIsBalanced();
  }

  lemma PushingIsBalanced()
    ensures Balanced(PUSHING)
  {
    PushingLetters();
    PlainTextKeepsDepth(PUSHING, "", 1);
    assert PUSHING + "" == PUSHING;
    NothingAfter(1);
  }

  // ---- The cap applies ----

  lemma NotFoundIn(p: Pattern, c: char)
    requires Valid(p) && c in p.first && (c == 'l' || c == 'M')
    ensures !FoundParts(p, EditedParts())
  {
    hide Found, Valid;
    ReceivingLetters();
    PushingLetters();
    EnteringTests();
    NotFound(p, c, RECEIVING);
    NotFound(p, c, ENTERING);
    NotFound(p, c, PUSHING);
  }

  lemma NotCapped()
    ensures !CappedParts(EditedParts())
  {
    hide FoundParts, Valid;
    TestsAreValid();
    CapFirsts();
    NotFoundIn(MAX_ENTRANTS, 'M');
    NotFoundIn(BELOW_255, 'l');
    NotFoundIn(BELOW_MAX, 'l');
  }

  lemma CapFirsts()
    ensures 'M' in MAX_ENTRANTS.first && 'l' in BELOW_255.first && 'l' in BELOW_MAX.first
  {
    assert "MAX_ENTRANTS"[0] == 'M' && "entrants.length"[9] == 'l';
  }

  lemma Pushes()
    ensures FoundParts(PUSH, EditedParts())
  {
    assert PUSHING[0..] == PUSHING;
    FoundHere(PUSH, PUSHING, 0);
    hide Found;
    assert FoundIn(PUSH, EditedParts()[1]);
  }

  lemma EditedCaps()
    ensures Caps(Render(EditedParts()))
  {
    hide WellFormed, Found, FoundParts, Render, CappedParts, Capped;
    EditedIsWellFormed();
    CapTestsInRender(EditedParts());
    NotCapped();
    Pushes();
    EnterIsDeclared();
  }

  lemma EnterIsDeclared()
    ensures BodyIn(EditedParts(), ENTER).Some?
  {
    assert EditedParts()[1..] == [Declared(ENTER, ENTERING, PUSHING)];
  }

  // ---- It is inserted into receive() ----

  lemma {:induction false} FirstSkips(x: string, n: nat)
    requires n <= |x| && forall i :: 0 <= i < n ==> x[i] != 'a'
    ensures First(Anchor, x) == Insertions.Behind(First(Anchor, x[n..]), n)
    decreases n
  {
    hide At;
    if n == 0 {
      assert x[0..] == x;
    } else {
      NoAnchorStarts(x);
      FirstSkips(x[1..], n - 1);
      assert x[1..][n - 1..] == x[n..];
    }
  }

  lemma NoAnchorStarts(x: string)
    requires x != "" && x[0] != 'a'
    ensures Locate(Anchor, x).None?
  {
    hide At;
    TargetsAreValid();
    if At(ENTRANTS, x).Some? {
      StartsWithFirst(ENTRANTS, x);
    }
    if At(PUBLIC_ENTRANTS, x).Some? {
      StartsWithFirst(PUBLIC_ENTRANTS, x);
    }
  }

  lemma ArrayMatch(rest: string)
    ensures At(ENTRANTS, ARRAY + rest) == Some(19)
  {
    hide Skip, RestAt;
    var t := ARRAY + rest;
    var u := t[9..];
    assert u == " entrants;" + rest && "address[]" <= t;
    SkipIs(u, 0, IsSpace, 1);
    assert u[1..] == "entrants;" + rest;
    var v := u[9..];
    assert v == ";" + rest;
    SkipIs(v, 0, IsSpace, 0);
    assert v[0..] == v;
    TwoPieces(Piece(true, Literal("entrants")), END, u, 9, 1);
  }

  lemma ReceivingSplits()
    ensures RECEIVING == "receive(){" + (ARRAY + "}") && |RECEIVING| == 30 && RECEIVING[10..] == ARRAY + "}"
    ensures forall i :: 0 <= i < 10 ==> RECEIVING[i] != 'a'
  {
  }

  lemma FirstInReceiving()
    ensures First(Anchor, RECEIVING) == Some(29)
  {
    hide At, Locate, First;
    ReceivingSplits();
    FirstSkips(RECEIVING, 10);
    ArrayMatch("}");
    ArrayIsFirst("}");
  }

  lemma ArrayIsFirst(rest: string)
    requires At(ENTRANTS, ARRAY + rest) == Some(19)
    ensures First(Anchor, ARRAY + rest) == Some(19)
  {
    hide At;
    assert ARRAY + rest != "";
  }

  lemma ReceivingMatch()
    ensures R.ReceiveAt(RECEIVING) == Some(10)
  {
    hide Skip;
    var t := RECEIVING;
    SkipIs(t, 7, IsSpace, 7);
    SkipIs(t, 8, IsSpace, 8);
    SkipIs(t, 9, NotOpeningBrace, 9);
  }

  lemma ArrayIsClosed()
    ensures Closed(ARRAY + "}", 1) && Walk(ARRAY + "}", 1) == 20
  {
    hide Walk, After, Closed;
    assert NoBraces(ARRAY);
    PlainTextKeepsDepth(ARRAY, "", 1);
    assert ARRAY + "" == ARRAY;
    NothingAfter(1);
    ClosedOver(ARRAY, "}", 1);
    BraceCloses();
    WalkPast(ARRAY, "}", 1, 1);
  }

  lemma BraceCloses()
    ensures Closed("}", 1) && Walk("}", 1) == 1
  {
    assert "}"[1..] == "";
  }

  lemma ReceivingIsWhole()
    ensures Whole(RECEIVING) && R.ReceivePos(RECEIVING) == Some(0) && R.ReceiveStart(RECEIVING) == 10
  {
    hide R.ReceiveAt, R.ReceivePos, Found, Closed;
    ReceivingMatch();
    R.SearchStep(RECEIVING);
    assert RECEIVING[0..] == RECEIVING && RECEIVING[..0] == "";
    ReceivingSplits();
    ArrayIsClosed();
    TestsAreValid();
    EmptyHasNone(RECEIVE_HEAD);
  }

  lemma EditedReceives()
    ensures Receives(EditedParts(), 0)
  {
    hide Whole, FoundIn;
    ReceivingIsWhole();
  }

  lemma EditedText()
    ensures Render(EditedParts()) == "" + (RECEIVING + Text(EditedParts()[1]))
    ensures Delimited(Text(EditedParts()[1]))
  {
    hide Text;
    var parts := EditedParts();
    assert parts[1..] == [parts[1]] && parts[1..][1..] == [];
    assert Text(parts[0]) == RECEIVING by { OutsideText(RECEIVING); }
    assert Text(parts[1]) + "" == Text(parts[1]);
    EntersHere();
  }

  lemma OutsideText(x: string)
    ensures Text(Outside(x)) == x
  {
  }

  lemma EntersHere()
    ensures Text(EditedParts()[1]) != "" && Text(EditedParts()[1])[0] == 'f'
  {
    assert ENTERING[0] == 'f';
  }

  lemma FirstInEdited()
    ensures First(Anchor, Render(EditedParts())) == Some(29)
  {
    hide Render, Text, First, Locate, Quoted, Separate;
    EditedText();
    var rest := Text(EditedParts()[1]);
    assert Render(EditedParts()) == RECEIVING + rest;
    ReceivingLetters();
    QuotedWithout(RECEIVING);
    DelimitedIsSeparate(RECEIVING, rest);
    FirstInContext(Anchor, RECEIVING, rest);
    FirstInReceiving();
  }

  /** A whole `receive()` at the start of a text is read to its end, whatever follows. */
  lemma WholeInFront(x: string, rest: string)
    requires Whole(x) && R.ReceivePos(x) == Some(0)
    ensures var t, n := x + rest, R.ReceiveStart(x);
            R.ReceivePos(t) == Some(0) && R.ReceiveStart(t) == n && Walk(t[n..], 1) == Walk(x[n..], 1)
  {
    hide R.ReceiveAt, R.ReceivePos, Found, Closed, Walk, R.ReceiveBody, Whole;
    var t, n := x + rest, R.ReceiveStart(x);
    TestsAreValid();
    EmptyHasNone(RECEIVE_HEAD);
    assert "" + x[..0] == "" && "" + (x + rest) == t;
    ReadsWhole("", x, rest);
    assert x[0..] == x && t[0..] == t;
    R.ReceiveIsLocal(x, t);
    WalksAlike(x, rest, n);
  }

  lemma WalksAlike(x: string, rest: string, n: nat)
    requires Whole(x) && n == R.ReceiveStart(x)
    ensures Walk((x + rest)[n..], 1) == Walk(x[n..], 1)
  {
    hide R.ReceiveAt, R.ReceivePos, Found, Closed, Walk;
    assert (x + rest)[n..] == x[n..] + rest;
    ClosedLonger(x[n..], (x + rest)[n..], 1);
  }

  lemma ReceiveInEdited()
    ensures var t := Render(EditedParts());
            R.ReceivePos(t) == Some(0) && R.ReceiveStart(t) == 10 && 10 < |t| && Walk(t[10..], 1) == 20
  {
    hide Render, Text, R.ReceiveAt, R.ReceivePos, Closed, Walk, Whole;
    EditedText();
    var rest := Text(EditedParts()[1]);
    assert Render(EditedParts()) == RECEIVING + rest;
    ReceivingIsWhole();
    WholeInFront(RECEIVING, rest);
    ReceivingSplits();
    ArrayIsClosed();
  }

  lemma EditsItsReceive()
    ensures EditsReceive(Anchor, Render(EditedParts()))
  {
    hide Render, First, R.ReceivePos, Walk;
    FirstInEdited();
    ReceiveInEdited();
  }

  /** On this source the patches write the cap into `receive()`. */
  lemma ReceiveIsRewritten()
    ensures WellFormed(EditedParts()) && Receives(EditedParts(), 0)
    ensures var t := Render(EditedParts()); R.ReceiveBody(Common(t)) != R.ReceiveBody(t)
  {
    hide WellFormed, Receives, Render, Caps, EditsReceive, R.ReceiveBody, Common;
    EditedIsWellFormed();
    EditedReceives();
    EditedCaps();
    EditsItsReceive();
    ReceiveIsKeptIff(EditedParts(), 0);
  }
}
