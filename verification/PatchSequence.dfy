/** The whole sequence of patches on any text, with every test, place and text written out. */
module PatchSequence {
  import opened Wrappers
  import opened SolidityText
  import opened Patterns
  import opened FunctionHeads
  import opened Insertions
  import opened FunctionBodies
  import opened SourcePatches
  import opened SourceTests
  import opened EnterModifier
  import opened PatchTexts
  import opened DisclosurePatch
  import opened CommonPatches
  import opened PlainText
  import opened PlainReading
  import opened PatchTests
  import opened PatchPlaces

  // ---- Tests of the whole text ----

  /** `function`, the name and an opening parenthesis stand somewhere. */
  ghost predicate Heads(t: string, name: string, i: nat, n: nat) {
    i <= |t| && Starts(Pattern("function", [Piece(true, Literal(name)), Piece(false, Literal("("))]), t[i..], n)
  }

  ghost predicate HasHead(t: string, name: string) {
    exists i: nat, n: nat :: Heads(t, name, i, n)
  }

  /** Behind the parameters of a function `enter` stand `external` and the modifier. */
  ghost predicate GuardsAt(t: string, i: nat, n: nat, c: nat, m: nat) {
    && Heads(t, "enter", i, n) && i + n <= c < |t| && t[c] == ')' && ')' !in t[i + n..c]
    && Starts(Pattern(")", [Piece(false, Literal("external")), Piece(true, Literal("nonReentrant"))]), t[c..], m)
  }

  ghost predicate Guards(t: string) {
    exists i: nat, n: nat, c: nat, m: nat :: GuardsAt(t, i, n, c, m)
  }

  lemma NamedIsLiteral(name: string)
    requires IsName(name)
    ensures Named(name) == Pattern("function", [Piece(true, Literal(name)), Piece(false, Literal("("))])
    ensures Literals(Named(name).rest)
  {
    assert name[0] in name;
  }

  lemma HeadsAt(t: string, name: string, i: nat, n: nat)
    requires IsName(name) && i <= |t|
    ensures At(Named(name), t[i..]) == Some(n) <==> Heads(t, name, i, n)
  {
    hide At, Starts, Literals;
    NamedIsLiteral(name);
    StartsIff(Named(name), t[i..], n);
  }

  lemma NamesIff(t: string, name: string)
    requires IsName(name)
    ensures Found(Named(name), t) <==> HasHead(t, name)
  {
    hide At, Heads;
    if Found(Named(name), t) {
      var i :| 0 <= i <= |t| && At(Named(name), t[i..]).Some?;
      HeadsAt(t, name, i, At(Named(name), t[i..]).value);
    }
    if HasHead(t, name) {
      var i: nat, n: nat :| Heads(t, name, i, n);
      HeadsIn(t, name, i, n);
      HeadsAt(t, name, i, n);
    }
  }

  lemma HeadsIn(t: string, name: string, i: nat, n: nat)
    requires Heads(t, name, i, n)
    ensures i <= |t|
  {
  }

  lemma GuardedAt(t: string, i: nat)
    requires i <= |t|
    ensures NonReentrantAt(t[i..]) <==> exists n: nat, c: nat, m: nat :: GuardsAt(t, i, n, c, m)
  {
    hide At, Starts, Heads, Skip, Literals;
    EnterIsName();
    var x := t[i..];
    if NonReentrantAt(x) {
      var n := At(Named(ENTER), x).value;
      var c := Skip(x, n, NotClosing);
      HeadsAt(t, "enter", i, n);
      assert x[c..] == t[i + c..];
      ModifierStarts(t[i + c..], At(MODIFIER, x[c..]).value);
      assert GuardsAt(t, i, n, i + c, At(MODIFIER, x[c..]).value);
    }
    if exists n: nat, c: nat, m: nat :: GuardsAt(t, i, n, c, m) {
      var n: nat, c: nat, m: nat :| GuardsAt(t, i, n, c, m);
      HeadsAt(t, "enter", i, n);
      ClosesAt(t, i, n, c);
      assert x[c - i..] == t[c..];
      ModifierStarts(t[c..], m);
    }
  }

  lemma ModifierStarts(x: string, m: nat)
    ensures At(MODIFIER, x) == Some(m)
            <==> Starts(Pattern(")", [Piece(false, Literal("external")), Piece(true, Literal("nonReentrant"))]), x, m)
  {
    hide At, Starts;
    StartsIff(MODIFIER, x, m);
  }

  lemma ClosesAt(t: string, i: nat, n: nat, c: nat)
    requires i + n <= c < |t| && t[c] == ')' && ')' !in t[i + n..c]
    ensures Skip(t[i..], n, NotClosing) == c - i
  {
    hide Skip;
    assert forall k :: n <= k < c - i ==> t[i..][k] == t[i + n..c][k - n] && t[i + n..c][k - n] in t[i + n..c];
    SkipIs(t[i..], n, NotClosing, c - i);
  }

  lemma GuardsIff(t: string)
    ensures Somewhere(NonReentrantAt, t) <==> Guards(t)
  {
    hide NonReentrantAt, GuardsAt;
    if Somewhere(NonReentrantAt, t) {
      var i :| 0 <= i <= |t| && NonReentrantAt(t[i..]);
      GuardedAt(t, i);
    }
    if Guards(t) {
      var i: nat, n: nat, c: nat, m: nat :| GuardsAt(t, i, n, c, m);
      GuardsInside(t, i, n, c, m);
      GuardedAt(t, i);
    }
  }

  lemma GuardsInside(t: string, i: nat, n: nat, c: nat, m: nat)
    requires GuardsAt(t, i, n, c, m)
    ensures i <= |t|
  {
  }

  // ---- The disclosure test ----

  const UPPER := "ABCDEFGHIJKLMNOPQRSTUVWXYZ"
  const LOWER := "abcdefghijklmnopqrstuvwxyz"

  ghost predicate SameLetter(c: char, d: char) {
    c == d || exists k :: 0 <= k < 26 && UPPER[k] == c && LOWER[k] == d
  }

  /** The text is the word, in upper or lower case. */
  ghost predicate Reads(x: string, word: string) {
    |x| == |word| && forall k :: 0 <= k < |x| ==> SameLetter(x[k], word[k])
  }

  ghost predicate OneLine(x: string) {
    '\n' !in x && '\r' !in x && '\U{2028}' !in x && '\U{2029}' !in x
  }

  /** `AI` and then the word, with at most `limit` characters of the same line between them. */
  ghost predicate NearAi(limit: nat, word: string, b: string, i: nat, n: nat) {
    && i + 2 + n + |word| <= |b| && Reads(b[i..i + 2], "ai") && n <= limit && OneLine(b[i + 2..i + 2 + n])
    && Reads(b[i + 2 + n..i + 2 + n + |word|], word)
  }

  ghost predicate FlapAi(b: string, i: nat) {
    i + 7 <= |b| && Reads(b[i..i + 7], "flap ai")
  }

  ghost predicate Says(b: string) {
    || (exists i: nat, n: nat :: NearAi(30, "provider", b, i, n))
    || (exists i: nat, n: nat :: NearAi(20, "oracle", b, i, n))
    || (exists i: nat, n: nat :: NearAi(20, "selected", b, i, n))
    || (exists i: nat :: FlapAi(b, i))
  }

  lemma LetterIff(c: char, d: char)
    requires 'a' <= d <= 'z' || d == ' '
    ensures SameLetter(c, d) <==> Lower(c) == d
  {
    assert forall k :: 0 <= k < 26 ==> UPPER[k] as int == 'A' as int + k && LOWER[k] as int == 'a' as int + k;
    if 'A' <= c <= 'Z' {
      assert UPPER[c as int - 'A' as int] == c;
    }
  }

  ghost predicate LowerCase(word: string) {
    forall k :: 0 <= k < |word| ==> 'a' <= word[k] <= 'z' || word[k] == ' '
  }

  lemma SpelledIff(word: string, b: string, i: nat)
    requires LowerCase(word) && i <= |b|
    ensures Spelled(word, b[i..]) <==> i + |word| <= |b| && Reads(b[i..i + |word|], word)
  {
    hide SameLetter, Lower;
    if i + |word| <= |b| {
      forall k | 0 <= k < |word|
        ensures SameLetter(b[i..i + |word|][k], word[k]) <==> Lower(b[i..][k]) == word[k]
      {
        LetterIff(b[i + k], word[k]);
      }
    }
  }

  lemma NearIff(limit: nat, word: string, b: string, i: nat)
    requires LowerCase(word) && i <= |b|
    ensures AiAnd(limit, word, b[i..]) <==> exists n: nat :: NearAi(limit, word, b, i, n)
  {
    hide Spelled, Reads;
    var x := b[i..];
    SpelledIff("ai", b, i);
    if AiAnd(limit, word, x) {
      var n :| 2 <= n <= 2 + limit && n <= |x| && Spelled(word, x[n..]) && forall k :: 2 <= k < n ==> !EndsLine(x[k]);
      assert x[n..] == b[i + n..];
      SpelledIff(word, b, i + n);
      assert forall k :: 2 <= k < n ==> b[i + 2..i + n][k - 2] == x[k];
      assert NearAi(limit, word, b, i, n - 2);
    }
    if exists n: nat :: NearAi(limit, word, b, i, n) {
      var n: nat :| NearAi(limit, word, b, i, n);
      assert x[n + 2..] == b[i + 2 + n..];
      SpelledIff(word, b, i + 2 + n);
      assert forall k :: 2 <= k < n + 2 ==> x[k] == b[i + 2..i + 2 + n][k - 2] && x[k] in b[i + 2..i + 2 + n];
    }
  }

  lemma SaysAt(b: string, i: nat)
    requires i <= |b|
    ensures DisclosesAt(b[i..])
            <==> || (exists n: nat :: NearAi(30, "provider", b, i, n))
                 || (exists n: nat :: NearAi(20, "oracle", b, i, n))
                 || (exists n: nat :: NearAi(20, "selected", b, i, n))
                 || FlapAi(b, i)
  {
    hide AiAnd, NearAi, Spelled, Reads;
    NearIff(30, "provider", b, i);
    NearIff(20, "oracle", b, i);
    NearIff(20, "selected", b, i);
    SpelledIff("flap ai", b, i);
  }

  lemma SaysIff(b: string)
    ensures Discloses(b) <==> Says(b)
  {
    hide DisclosesAt, Reads;
    if Discloses(b) {
      var i :| 0 <= i <= |b| && DisclosesAt(b[i..]);
      SaysAt(b, i);
    }
    if Says(b) {
      var i := SaysSomewhere(b);
      SaysAt(b, i);
    }
  }

  lemma SaysSomewhere(b: string) returns (i: nat)
    requires Says(b)
    ensures i <= |b|
    ensures || (exists n: nat :: NearAi(30, "provider", b, i, n))
            || (exists n: nat :: NearAi(20, "oracle", b, i, n))
            || (exists n: nat :: NearAi(20, "selected", b, i, n))
            || FlapAi(b, i)
  {
    hide Reads;
    if exists j: nat, n: nat :: NearAi(30, "provider", b, j, n) {
      var j: nat, n: nat :| NearAi(30, "provider", b, j, n);
      i := j;
    } else if exists j: nat, n: nat :: NearAi(20, "oracle", b, j, n) {
      var j: nat, n: nat :| NearAi(20, "oracle", b, j, n);
      i := j;
    } else if exists j: nat, n: nat :: NearAi(20, "selected", b, j, n) {
      var j: nat, n: nat :| NearAi(20, "selected", b, j, n);
      i := j;
    } else {
      i :| FlapAi(b, i);
    }
  }

  // ---- The body of the schema ----

  /** The first function of the name stands at `o`, with a header of `n` characters. */
  ghost predicate FirstHeader(t: string, name: string, o: nat, n: nat) {
    && o + n <= |t| && o < |t| && IsHeader(t[o..o + n], name)
    && forall i, m :: 0 <= i < o && 0 <= m <= |t| - i ==> !IsHeader(t[i..][..m], name)
  }

  lemma FirstHeaderIs(t: string, name: string, o: nat, n: nat)
    requires FirstHeader(t, name, o, n)
    ensures NamePos(t, name) == Some(o) && HeaderAt(t[o..]).value.length == n
  {
    hide HeaderAt, IsHeader;
    assert t[o..][..n] == t[o..o + n];
    HeaderIff(t[o..], n, name);
    forall i | 0 <= i < o && HeaderAt(t[i..]).Some?
      ensures HeaderAt(t[i..]).value.name != name
    {
      HeaderIff(t[i..], HeaderAt(t[i..]).value.length, HeaderAt(t[i..]).value.name);
    }
    FirstOfName(t, name, o);
  }

  /** The schema's text is the nested text behind the first header of `vaultUISchema`. */
  lemma SchemaIs(t: string, o: nat, n: nat, x: string, rest: string)
    requires FirstHeader(t, "vaultUISchema", o, n) && t[o + n..] == x + ("}" + rest) && Nests(x)
    ensures SchemaBody(t) == x
  {
    hide HeaderAt, FirstHeader, Walk, Nests;
    FirstHeaderIs(t, "vaultUISchema", o, n);
    BodyIsNested(x, rest);
    assert t[o + n..o + n + |x|] == t[o + n..][..|x|];
  }

  lemma NoSchema(t: string)
    requires forall i, m :: 0 <= i < |t| && 0 <= m <= |t| - i ==> !IsHeader(t[i..][..m], "vaultUISchema")
    ensures SchemaBody(t) == ""
  {
    hide HeaderAt, IsHeader;
    forall i | 0 <= i < |t| && HeaderAt(t[i..]).Some?
      ensures HeaderAt(t[i..]).value.name != "vaultUISchema"
    {
      HeaderIff(t[i..], HeaderAt(t[i..]).value.length, HeaderAt(t[i..]).value.name);
    }
    NoneOfName(t, "vaultUISchema");
  }

  // ---- One patch ----

  /** The body of the function, "" where there is none. */
  function Body(t: string, name: string): string {
    match FindFunctionBody(t, name)
    case None => ""
    case Some(b) => b
  }

  /** The body with a guard in front of its first word. */
  ghost predicate Fronts(t: string, u: string, name: string, guard: string) {
    exists y :: TrimsLeft(Body(t, name), y) && u == ReplaceFunctionBody(t, name, guard + y)
  }

  /** The body with a text behind its last word. */
  ghost predicate Appends(t: string, u: string, name: string, text: string) {
    exists y :: TrimsRight(Body(t, name), y) && u == ReplaceFunctionBody(t, name, y + text)
  }

  ghost predicate CapStep(t: string, u: string) {
    if HasHead(t, "enter") && Contains(t, "entrants.push") && !CapsText(t) then
      exists v :: Writes(BehindArray, t, v, CAP_DECLARATION)
                  && if Body(v, "enter") == "" || CapsBody(Body(v, "enter")) then u == v
                     else Fronts(v, u, "enter", CAP_GUARD)
    else u == t
  }

  ghost predicate ModifierStep(t: string, u: string) {
    if HasHead(t, "enter") && (Contains(t, "entrants.push") || Contains(t, "hasEntered")) && !Guards(t) then
      Writes(EnterHead, t, u, NEW_ENTER)
    else u == t
  }

  ghost predicate DisclosureStep(t: string, u: string) {
    var schema := SchemaBody(t);
    if Contains(t, "FlapAIConsumerBase") && HasHead(t, "requestDraw") && schema != "" && !Says(schema) then
      Writes(BeforeQuote, t, u, DISCLOSURE)
    else u == t
  }

  ghost predicate ResetStep(t: string, u: string) {
    var body := Body(t, "_fulfillReasoning");
    if Contains(t, "FlapAIConsumerBase") && Contains(t, "lastDrawFee") && body != "" && !ResetsFee(body) then
      Appends(t, u, "_fulfillReasoning", FEE_RESETTING)
    else u == t
  }

  ghost predicate CheckStep(t: string, u: string, name: string) {
    var body := Body(t, name);
    if body != "" && CastsCount(body) && !BoundsCount(body) then
      Fronts(t, u, name, if Contains(body, "drawSnapshot.length") then SNAPSHOT_GUARD else COUNT_GUARD)
    else u == t
  }

  lemma CapIs(t: string)
    ensures CapStep(t, EntrantCap(t))
  {
    hide Found, Capped, CapsText, Contains, Heads, Writes, Checked, CapsBody, CapDeclaration, CapGuard, GuardEnd,
         FindFunctionBody, ReplaceFunctionBody, InsertFirst, TrimsLeft, Guarded;
    EnterIsName();
    NamesIff(t, "enter");
    CappedIff(t);
    OtherTexts();
    InsertionIs(Anchor, t, CapDeclaration());
    var v := InsertFirst(Anchor, t, CapDeclaration());
    CapBodyIs(v);
    assert Caps(t) ==> Writes(BehindArray, t, v, CAP_DECLARATION);
  }

  lemma CapBodyIs(v: string)
    ensures var u := Patch(v, ENTER, Checked, WithCap);
            if Body(v, "enter") == "" || CapsBody(Body(v, "enter")) then u == v else Fronts(v, u, "enter", CAP_GUARD)
  {
    hide Checked, CapsBody, CapGuard, GuardEnd, FindFunctionBody, ReplaceFunctionBody, TrimsLeft, Guarded;
    CapText();
    CheckedIff(Body(v, "enter"));
    GuardedIs(CapGuard() + GuardEnd(), Body(v, "enter"));
  }

  lemma ModifierIs(t: string)
    ensures ModifierStep(t, NonReentrant(t))
  {
    hide Found, Contains, Heads, Writes, AddModifier, Somewhere, Guards, EnterHeader;
    EnterIsName();
    NamesIff(t, "enter");
    CappedIff(t);
    GuardsIff(t);
    EnterText();
    AddingIs(t);
  }

  lemma DisclosureIs(t: string)
    ensures DisclosureStep(t, Disclose(t))
  {
    hide Found, Contains, Heads, Writes, InsertFirst, SchemaBody, Discloses, Says, Disclosure;
    RequestDrawPattern();
    NamesIff(t, "requestDraw");
    CappedIff(t);
    SaysIff(SchemaBody(t));
    OtherTexts();
    InsertionIs(Description, t, Disclosure());
  }

  lemma ResetIs(t: string)
    ensures ResetStep(t, ResetFee(t))
  {
    hide Found, Contains, Resets, ResetsFee, WithReset, TrimsRight, FindFunctionBody, ReplaceFunctionBody;
    CappedIff(t);
    CheckedIff(Body(t, "_fulfillReasoning"));
    ExtendedIs(Body(t, "_fulfillReasoning"));
  }

  lemma CheckIs(t: string, name: string)
    ensures CheckStep(t, BoundCount(t, name), name)
  {
    hide Found, Contains, Bounded, CastsCount, BoundsCount, SnapshotGuard, CountGuard, Guarded, TrimsLeft, GuardEnd,
         FindFunctionBody, ReplaceFunctionBody;
    var b := Body(t, name);
    BoundsIff(b);
    CheckedIff(b);
    SnapshotText();
    CountText();
    GuardedIs(CountCheck(b) + GuardEnd(), b);
  }

  /** The sequence is these six steps, in this order, on any text. */
  lemma SequenceIs(t: string)
    returns (capped: string, modified: string, disclosed: string, reset: string, drawn: string)
    ensures CapStep(t, capped) && ModifierStep(capped, modified) && DisclosureStep(modified, disclosed)
    ensures ResetStep(disclosed, reset) && CheckStep(reset, drawn, "requestDraw")
    ensures CheckStep(drawn, Common(t), "requestElimination")
  {
    hide EntrantCap, CapStep, NonReentrant, ModifierStep, Disclose, DisclosureStep, ResetFee, ResetStep, BoundCount,
         CheckStep;
    CapIs(t);
    capped := EntrantCap(t);
    ModifierIs(capped);
    modified := NonReentrant(capped);
    DisclosureIs(modified);
    disclosed := Disclose(modified);
    ResetIs(disclosed);
    reset := ResetFee(disclosed);
    CheckIs(reset, "requestDraw");
    drawn := BoundCount(reset, "requestDraw");
    CheckIs(drawn, "requestElimination");
  }
}
