/** The body of `receive()` after the patches: the same, unless text is inserted into it. */
module ReceiveKept {
  import opened Wrappers
  import opened SolidityText
  import opened Patterns
  import opened FunctionHeads
  import opened Insertions
  import opened FunctionBodies
  import opened SourceEditing
  import opened SourcePatches
  import opened SourceParts
  import opened SourceTests
  import opened SourceEdits
  import opened EnterModifier
  import opened PatchTexts
  import opened EditEffects
  import opened DisclosurePatch
  import opened PatchSteps
  import opened CommonPatches
  import opened PatchSettling
  import opened ReceiveInsertion
  import opened ReceiveHeads
  import R = ReceiveBody

  // ---- No step brings a head of receive() ----

  ghost predicate Quieter(parts: seq<Part>, after: seq<Part>) {
    |after| == |parts|
    && forall i :: 0 <= i < |parts| ==> FoundIn(RECEIVE_HEAD, after[i]) ==> FoundIn(RECEIVE_HEAD, parts[i])
  }

  lemma QuieterTwice(a: seq<Part>, b: seq<Part>, c: seq<Part>)
    requires Quieter(a, b) && Quieter(b, c)
    ensures Quieter(a, c)
  {
    hide FoundIn;
  }

  lemma OneQuieter(parts: seq<Part>, k: nat, y: string)
    requires k < |parts| && AddsNone(RECEIVE_HEAD, Content(parts[k]), y)
    ensures Quieter(parts, parts[k := WithContent(parts[k], y)])
  {
    hide Found;
  }

  /** A patched body: another function than the text outside, and no louder than before. */
  lemma PatchIsQuieter(parts: seq<Part>, name: string, done: string -> bool, edit: string -> string)
    requires forall b :: AddsNone(RECEIVE_HEAD, b, edit(b))
    ensures Quieter(parts, PatchParts(parts, name, done, edit))
    ensures forall i :: 0 <= i < |parts| && parts[i].Outside? ==> PatchParts(parts, name, done, edit)[i] == parts[i]
  {
    hide Quieter, BodyIn, WithBody, AddsNone;
    QuietSelf(parts);
    var b := BodyIn(parts, name);
    if b.Some? && b.value != "" && !done(b.value) {
      var k := WithBodyAt(parts, name, edit(b.value));
      OneQuieter(parts, k, edit(b.value));
      SameLength(parts, WithBody(parts, name, edit(b.value)));
    } else {
      SameLength(parts, parts);
    }
  }

  lemma QuietSelf(parts: seq<Part>)
    ensures Quieter(parts, parts)
  {
    hide FoundIn;
  }

  lemma SameLength(parts: seq<Part>, after: seq<Part>)
    requires Quieter(parts, after)
    ensures |after| == |parts|
  {
    hide FoundIn;
  }

  // ---- A source with one receive() ----

  /** The first head of `receive()` is that of a whole function in this part. */
  ghost predicate Receives(parts: seq<Part>, k: nat) {
    && k < |parts| && parts[k].Outside? && Whole(parts[k].text)
    && forall i :: 0 <= i < k ==> !FoundIn(RECEIVE_HEAD, parts[i])
  }

  lemma {:induction false} RenderSplits(parts: seq<Part>, k: nat)
    requires k <= |parts|
    ensures Render(parts) == Render(parts[..k]) + Render(parts[k..])
  {
    if k == 0 {
      assert parts[0..] == parts;
    } else {
      RenderSplits(parts[1..], k - 1);
      assert parts[..k][1..] == parts[1..][..k - 1] && parts[1..][k - 1..] == parts[k..];
      assert parts[..k][0] == parts[0];
    }
  }

  lemma NothingInFront(parts: seq<Part>, k: nat, x: string)
    requires WellFormed(parts) && k < |parts| && parts[k].Outside? && !Found(RECEIVE_HEAD, x)
    requires forall i :: 0 <= i < k ==> !FoundIn(RECEIVE_HEAD, parts[i])
    ensures !Found(RECEIVE_HEAD, Render(parts[..k]) + x)
  {
    hide WellFormed, Found, FoundIn, Passive, Render, Uses;
    var front := parts[..k];
    PrefixIsOk(parts, k);
    ReceiveIsPassive();
    FoundInRender(RECEIVE_HEAD, front);
    if k == 0 {
      assert front == [] && Render(front) + x == x by { RenderNothing(); }
    } else {
      EndsInBrace(parts, k);
      var a := Render(front);
      var b := a[..|a| - 1];
      assert a + x == b + ['}'] + x && a == "" + b + "}";
      ReceiveUses('}');
      if Found(RECEIVE_HEAD, a + x) {
        FoundAcross(RECEIVE_HEAD, b, '}', x);
        Within(RECEIVE_HEAD, "", b, "}", a);
      }
    }
  }

  lemma RenderNothing()
    ensures Render([]) == ""
  {
  }

  lemma PrefixIsOk(parts: seq<Part>, k: nat)
    requires WellFormed(parts) && k <= |parts|
    ensures WellFormed(parts[..k])
  {
    hide PartOk;
  }

  /** In front of text outside functions, a function ends. */
  lemma EndsInBrace(parts: seq<Part>, k: nat)
    requires WellFormed(parts) && 0 < k < |parts| && parts[k].Outside?
    ensures var a := Render(parts[..k]); a != "" && a[|a| - 1] == '}'
  {
    hide PartOk;
    var p := parts[k - 1];
    assert p.Declared?;
    hide Render, WellFormed;
    RenderSplits(parts[..k], k - 1);
    assert parts[..k][..k - 1] == parts[..k - 1] && parts[..k][k - 1..] == [p];
    RenderOnly(p);
    assert Text(p)[|Text(p)| - 1] == '}';
  }

  lemma ReadsReceive(parts: seq<Part>, k: nat)
    requires WellFormed(parts) && Receives(parts, k)
    ensures var t := Render(parts);
            && R.ReceivePos(t).Some? && Closed(t[R.ReceiveStart(t)..], 1)
            && R.ReceiveBody(t) == R.ReceiveBody(parts[k].text)
  {
    hide WellFormed, Found, FoundIn, R.ReceiveBody, R.ReceiveAt, R.ReceivePos, Closed, Render;
    var z := parts[k].text;
    NothingInFront(parts, k, z[..R.ReceivePos(z).value]);
    RenderSplits(parts, k);
    RenderFrom(parts, k);
    ReadsWhole(Render(parts[..k]), z, Render(parts[k + 1..]));
  }

  lemma RenderFrom(parts: seq<Part>, k: nat)
    requires k < |parts|
    ensures Render(parts[k..]) == Text(parts[k]) + Render(parts[k + 1..])
  {
    hide Text;
    assert parts[k..][1..] == parts[k + 1..] && parts[k..][0] == parts[k];
  }

  lemma RenderOnly(p: Part)
    ensures Render([p]) == Text(p)
  {
    hide Text;
    assert [p][1..] == [] && Render([]) == "";
    assert Text(p) + "" == Text(p);
  }

  // ---- The steps ----

  /** A step that changes no text outside functions. */
  lemma BodiesOnly(parts: seq<Part>, after: seq<Part>, k: nat)
    requires Receives(parts, k) && Quieter(parts, after)
    requires forall i :: 0 <= i < |parts| && parts[i].Outside? ==> after[i] == parts[i]
    ensures Receives(after, k) && after[k] == parts[k]
  {
    hide FoundIn, Whole;
  }

  lemma InsertionIsQuieter(k: Target, parts: seq<Part>, text: string)
    requires TextFor(k, text)
    ensures Quieter(parts, InsertParts(k, parts, text))
  {
    hide Quieter, AddsNone, InsertFirst, First, TextFor;
    QuietSelf(parts);
    var at := InsertedAt(k, parts, text);
    if at.Some? {
      var z := Content(parts[at.value]);
      var a, b := FirstIsPlaced(k, z, text);
      PlacedAddsNone(k, a, text, b);
      OneQuieter(parts, at.value, InsertFirst(k, z, text));
    }
  }

  lemma InsertionKeepsWhole(k: Target, z: string, text: string)
    requires Whole(z) && First(k, z).Some? && TextFor(k, text)
    ensures Whole(InsertFirst(k, z, text))
  {
    hide First, InsertFirst, TextFor, Quiet, R.ReceivePos, R.ReceiveBody, R.Encloses, R.ReceiveAt, Closed, Found,
         AddsNone;
    var a, b := FirstIsPlaced(k, z, text);
    PlacedIsQuiet(k, a, text, b);
    InsertedReceive(a, text, b);
    var u, r := a + text + b, R.ReceivePos(z).value;
    if r < |a| {
      assert u[..r] == z[..r];
    } else {
      StartsNoQuote(z);
      var front := b[..r - |a|];
      PlacedAddsNone(k, a, text, front);
      assert z[..r] == a + front && u[..r + |text|] == a + text + front;
      AddedNone(RECEIVE_HEAD, a + front, a + text + front);
    }
  }

  lemma StartsNoQuote(z: string)
    requires R.ReceivePos(z).Some?
    ensures z[R.ReceivePos(z).value] == 'r'
  {
    hide R.ReceivePos, R.ReceiveAt;
    StartsWithR(z[R.ReceivePos(z).value..]);
  }

  lemma AddedNone(p: Pattern, x: string, y: string)
    requires AddsNone(p, x, y) && !Found(p, x)
    ensures !Found(p, y)
  {
  }

  lemma InsertionKeepsReceive(t: Target, parts: seq<Part>, text: string, k: nat)
    requires Receives(parts, k) && TextFor(t, text)
    ensures Receives(InsertParts(t, parts, text), k)
  {
    hide Whole, InsertFirst, First, TextFor, FoundIn;
    InsertionIsQuieter(t, parts, text);
    var at := InsertedAt(t, parts, text);
    if at == Some(k) {
      InsertionKeepsWhole(t, parts[k].text, text);
    }
  }

  /** The first match of the place is in the body of `receive()`. */
  ghost predicate EditsReceive(k: Target, t: string) {
    First(k, t).Some? && R.Encloses(t, First(k, t).value)
  }

  /** The body of `receive()` grows by what is inserted into it, and otherwise stays as it was. */
  ghost predicate GrowsIf(edited: bool, t: string, u: string) {
    if edited then |R.ReceiveBody(u)| > |R.ReceiveBody(t)| else R.ReceiveBody(u) == R.ReceiveBody(t)
  }

  lemma InsertionGrows(k: Target, parts: seq<Part>, text: string, j: nat)
    requires WellFormed(parts) && Receives(parts, j) && TextFor(k, text)
    ensures var t, u := Render(parts), Render(InsertParts(k, parts, text)); GrowsIf(EditsReceive(k, t), t, u)
  {
    hide WellFormed, Receives, Render, First, InsertFirst, TextFor, Quiet, R.ReceiveBody, R.Encloses, R.ReceiveAt,
         R.ReceivePos, Closed, InsertParts;
    var t := Render(parts);
    InsertInRender(k, parts, text);
    ReadsReceive(parts, j);
    if First(k, t).Some? {
      var a, b := FirstIsPlaced(k, t, text);
      PlacedIsQuiet(k, a, text, b);
      InsertedReceive(a, text, b);
    } else {
      NothingFound(k, t, text);
    }
  }

  lemma NothingFound(k: Target, t: string, text: string)
    requires First(k, t).None?
    ensures InsertFirst(k, t, text) == t
  {
    hide First;
  }

  /** A step that changes no text outside functions, on the text. */
  lemma BodiesGrow(parts: seq<Part>, after: seq<Part>, k: nat)
    requires WellFormed(parts) && WellFormed(after) && Receives(parts, k) && Quieter(parts, after)
    requires forall i :: 0 <= i < |parts| && parts[i].Outside? ==> after[i] == parts[i]
    ensures Receives(after, k) && R.ReceiveBody(Render(after)) == R.ReceiveBody(Render(parts))
  {
    hide WellFormed, Receives, Render, Quieter, R.ReceiveBody;
    BodiesOnly(parts, after, k);
    ReadsReceive(parts, k);
    ReadsReceive(after, k);
  }

  lemma WithCapIsQuiet(parts: seq<Part>)
    ensures var after := PatchParts(parts, ENTER, Checked, WithCap);
            && Quieter(parts, after) && |after| == |parts|
            && forall i :: 0 <= i < |parts| && parts[i].Outside? ==> after[i] == parts[i]
  {
    hide AddsNone, Guarded, Checked, PatchParts, GuardIsQuiet, CapGuard;
    forall b
      ensures AddsNone(RECEIVE_HEAD, b, WithCap(b))
    {
      CapGuardIsQuiet();
      GuardAddsNoReceive(CapGuard(), b);
    }
    PatchIsQuieter(parts, ENTER, Checked, WithCap);
  }

  lemma CapGrows(parts: seq<Part>, k: nat)
    requires WellFormed(parts) && Receives(parts, k)
    ensures Receives(CapParts(parts), k) && WellFormed(CapParts(parts))
    ensures var t := Render(parts); GrowsIf(Caps(t) && EditsReceive(Anchor, t), t, Render(CapParts(parts)))
  {
    hide WellFormed, Receives, Render, InsertParts, PatchParts, CapDeclaration, BodyIn, FoundParts, CappedParts,
         Quieter, R.ReceiveBody, EditsReceive, Found, Capped;
    CapInRender(parts);
    CapTestsInRender(parts);
    if Caps(Render(parts)) {
      var inserted := InsertParts(Anchor, parts, CapDeclaration());
      InsertionGrows(Anchor, parts, CapDeclaration(), k);
      InsertionKeepsReceive(Anchor, parts, CapDeclaration(), k);
      AnchorsStayOk(parts);
      WithCapIsQuiet(inserted);
      BodiesGrow(inserted, CapParts(parts), k);
    }
  }

  lemma ModifierIsQuieter(parts: seq<Part>)
    ensures var after := ModifyParts(parts);
            && Quieter(parts, after) && |after| == |parts|
            && forall i :: 0 <= i < |parts| && parts[i].Outside? ==> after[i] == parts[i]
  {
    hide AddsNone, ExternalAt, NewHeader, FoundParts, BodyIn, SomeHeader, NonReentrantAt, Found;
    var at := ModifiedAt(parts);
    if at.Some? {
      ModifierAddsNoReceive(parts[at.value].header);
      NewHeaderQuiet(parts[at.value]);
    }
  }

  lemma NewHeaderQuiet(p: Part)
    requires p.Declared? && ExternalAt(p.header).Some? && AddsNone(RECEIVE_HEAD, p.header, NewHeader(p.header))
    ensures FoundIn(RECEIVE_HEAD, p.(header := NewHeader(p.header))) ==> FoundIn(RECEIVE_HEAD, p)
  {
    hide Found, ExternalAt, NewHeader;
  }

  lemma ResetIsQuieter(parts: seq<Part>)
    ensures var after := ResetParts(parts);
            && Quieter(parts, after) && |after| == |parts|
            && forall i :: 0 <= i < |parts| && parts[i].Outside? ==> after[i] == parts[i]
  {
    hide AddsNone, PatchParts, FoundParts, Resets, WithReset;
    QuietSelf(parts);
    forall b
      ensures AddsNone(RECEIVE_HEAD, b, WithReset(b))
    {
      ResetAddsNoReceive(b);
    }
    PatchIsQuieter(parts, FULFILL, Resets, WithReset);
  }

  lemma BoundIsQuieter(parts: seq<Part>, name: string)
    ensures var after := BoundParts(parts, name);
            && Quieter(parts, after) && |after| == |parts|
            && forall i :: 0 <= i < |parts| && parts[i].Outside? ==> after[i] == parts[i]
  {
    hide AddsNone, PatchParts, Bounded, GuardIsQuiet, CountCheck, Guarded;
    var edit := b => WithCheck(b);
    forall b
      ensures AddsNone(RECEIVE_HEAD, b, edit(b))
    {
      CheckIsQuiet(b);
      GuardAddsNoReceive(CountCheck(b), b);
    }
    PatchIsQuieter(parts, name, Bounded, edit);
  }

  lemma ModifyGrows(parts: seq<Part>, k: nat)
    requires WellFormed(parts) && Receives(parts, k)
    ensures Receives(ModifyParts(parts), k) && WellFormed(ModifyParts(parts))
    ensures R.ReceiveBody(Render(ModifyParts(parts))) == R.ReceiveBody(Render(parts))
  {
    hide WellFormed, Receives, Render, ModifyParts, Quieter, R.ReceiveBody, NonReentrant;
    ModifyInRender(parts);
    ModifierIsQuieter(parts);
    BodiesGrow(parts, ModifyParts(parts), k);
  }

  lemma DiscloseGrows(parts: seq<Part>, k: nat)
    requires WellFormed(parts) && Receives(parts, k)
    ensures Receives(DiscloseParts(parts), k) && WellFormed(DiscloseParts(parts))
    ensures var t := Render(parts);
            GrowsIf(Fires(t) && EditsReceive(Description, t), t, Render(DiscloseParts(parts)))
  {
    hide WellFormed, Receives, Render, InsertParts, FiresParts, Fires, Quieter, R.ReceiveBody, EditsReceive, Disclosure,
         InsertFirst, Edited, PartsAddNone;
    DiscloseInRender(parts);
    FiresInRender(parts);
    if FiresParts(parts) {
      InsertionGrows(Description, parts, Disclosure(), k);
      InsertionKeepsReceive(Description, parts, Disclosure(), k);
    }
  }

  lemma LateStepsKeepReceive(p3: seq<Part>, k: nat)
    requires WellFormed(p3) && Receives(p3, k)
    ensures var p6 := BoundParts(BoundParts(ResetParts(p3), REQUEST_DRAW), REQUEST_ELIMINATION);
            R.ReceiveBody(Render(p6)) == R.ReceiveBody(Render(p3))
  {
    hide WellFormed, Receives, Render, ResetParts, BoundParts, Quieter, R.ReceiveBody, Edited, PartsAddNone, ResetFee,
         BoundCount;
    var p4 := ResetParts(p3);
    ResetInRender(p3);
    ResetIsQuieter(p3);
    BodiesGrow(p3, p4, k);
    var p5 := BoundParts(p4, REQUEST_DRAW);
    BoundInRender(p4, REQUEST_DRAW);
    BoundIsQuieter(p4, REQUEST_DRAW);
    BodiesGrow(p4, p5, k);
    BoundInRender(p5, REQUEST_ELIMINATION);
    BoundIsQuieter(p5, REQUEST_ELIMINATION);
    BodiesGrow(p5, BoundParts(p5, REQUEST_ELIMINATION), k);
  }

  /**
   * The patches leave the body of a `receive()` outside functions as it was exactly when neither the declaration
   * of the cap nor the disclosure is inserted into it.
   */
  lemma ReceiveIsKeptIff(parts: seq<Part>, k: nat)
    requires WellFormed(parts) && Receives(parts, k)
    ensures var t, d := Render(parts), BeforeDisclosure(Render(parts));
            R.ReceiveBody(Common(t)) == R.ReceiveBody(t)
            <==> !(Caps(t) && EditsReceive(Anchor, t)) && !(Fires(d) && EditsReceive(Description, d))
  {
    hide WellFormed, Receives, Render, CapParts, ModifyParts, ResetParts, BoundParts, DiscloseParts, Quieter,
         R.ReceiveBody, Common, EntrantCap, NonReentrant, Caps, Fires, EditsReceive;
    CommonInRender(parts);
    CapInRender(parts);
    CapGrows(parts, k);
    var p1 := CapParts(parts);
    ModifyInRender(p1);
    ModifyGrows(p1, k);
    var p2 := ModifyParts(p1);
    DiscloseGrows(p2, k);
    LateStepsKeepReceive(DiscloseParts(p2), k);
  }

  // ---- A source without receive() ----

  lemma {:induction false} NothingReceived(t: string)
    requires !Found(RECEIVE_HEAD, t)
    ensures R.ReceiveBody(t) == ""
  {
    hide R.ReceiveAt, At;
    if R.ReceivePos(t).Some? {
      var i := R.ReceivePos(t).value;
      ReceiveIsHead(t[i..]);
      FoundHere(RECEIVE_HEAD, t, i);
    }
  }

  lemma QuietIsEmpty(parts: seq<Part>)
    requires WellFormed(parts) && !FoundParts(RECEIVE_HEAD, parts)
    ensures R.ReceiveBody(Render(parts)) == ""
  {
    hide WellFormed, Passive, Found, FoundParts, R.ReceiveBody;
    ReceiveIsPassive();
    FoundInRender(RECEIVE_HEAD, parts);
    NothingReceived(Render(parts));
  }

  lemma CommonIsQuieter(parts: seq<Part>)
    requires WellFormed(parts)
    ensures Quieter(parts, CommonParts(parts))
  {
    hide WellFormed, Quieter, CapParts, ModifyParts, ResetParts, BoundParts, InsertParts, FiresParts, Edited,
         PartsAddNone;
    hide Disclosure;
    var p1 := CapParts(parts);
    CapInRender(parts);
    CapIsQuieter(parts);
    var p2 := ModifyParts(p1);
    ModifyInRender(p1);
    ModifierIsQuieter(p1);
    var p3 := DiscloseParts(p2);
    QuietSelf(p2);
    InsertionIsQuieter(Description, p2, Disclosure());
    var p4 := ResetParts(p3);
    ResetIsQuieter(p3);
    var p5 := BoundParts(p4, REQUEST_DRAW);
    BoundIsQuieter(p4, REQUEST_DRAW);
    BoundIsQuieter(p5, REQUEST_ELIMINATION);
    QuieterTwice(parts, p1, p2);
    QuieterTwice(parts, p2, p3);
    QuieterTwice(parts, p3, p4);
    QuieterTwice(parts, p4, p5);
    QuieterTwice(parts, p5, CommonParts(parts));
  }

  lemma CapIsQuieter(parts: seq<Part>)
    requires WellFormed(parts)
    ensures Quieter(parts, CapParts(parts))
  {
    hide WellFormed, Quieter, InsertParts, PatchParts, CapDeclaration, BodyIn, FoundParts, CappedParts;
    QuietSelf(parts);
    InsertionIsQuieter(Anchor, parts, CapDeclaration());
    var inserted := InsertParts(Anchor, parts, CapDeclaration());
    WithCapIsQuiet(inserted);
    QuieterTwice(parts, inserted, PatchParts(inserted, ENTER, Checked, WithCap));
  }

  /** The patches bring no `receive()` to a source without one. */
  lemma NoReceiveAppears(parts: seq<Part>)
    requires WellFormed(parts) && !FoundParts(RECEIVE_HEAD, parts)
    ensures R.ReceiveBody(Render(parts)) == "" && R.ReceiveBody(Common(Render(parts))) == ""
  {
    hide WellFormed, FoundIn, Render, Common, CommonParts, R.ReceiveBody;
    QuietIsEmpty(parts);
    CommonInRender(parts);
    CommonIsQuieter(parts);
    QuietIsEmpty(CommonParts(parts));
  }
}
