/** Where the patches of the whole text write: at the first place that looks so, without the search that finds it. */
module PatchPlaces {
  import opened Wrappers
  import opened SolidityText
  import opened Patterns
  import opened FunctionHeads
  import opened Insertions
  import opened FunctionBodies
  import opened SourcePatches
  import opened SourceTests
  import opened EnterModifier
  import opened PatchTexts
  import opened DisclosurePatch
  import opened CommonPatches
  import opened PlainText
  import opened PatchTests

  // ---- Places ----

  /** Behind the array of entrants, in front of the closing quote of a description, or the head of `enter`. */
  datatype Place = BehindArray | BeforeQuote | EnterHead

  const ARRAY := Pattern("address[]", [Piece(true, Literal("entrants")), Piece(false, Literal(";"))])
  const PUBLIC_ARRAY :=
    Pattern("address[]", [Piece(true, Literal("public")), Piece(true, Literal("entrants")), Piece(false, Literal(";"))])
  const DESCRIBES := Pattern("schema.description", [Piece(false, Literal("=")), Piece(false, Literal("unicode\""))])
  const ENTERS :=
    Pattern("function", [Piece(true, Literal("enter")), Piece(false, Literal("(")), Piece(false, Literal(")")),
                         Piece(false, Literal("external"))])
  const ENTERS_GUARDED :=
    Pattern("function", [Piece(true, Literal("enter")), Piece(false, Literal("(")), Piece(false, Literal(")")),
                         Piece(false, Literal("external")), Piece(true, Literal("nonReentrant"))])

  /** The text starts with such a place, which is `n` characters long. */
  ghost predicate Here(place: Place, x: string, n: nat) {
    match place
    case BehindArray => Starts(ARRAY, x, n) || Starts(PUBLIC_ARRAY, x, n)
    case BeforeQuote => n < |x| && x[n] == '"' && exists m :: 0 <= m <= n && Starts(DESCRIBES, x, m) && '"' !in x[m..n]
    case EnterHead => Starts(ENTERS, x, n) && forall m :: 0 <= m <= |x| ==> !Starts(ENTERS_GUARDED, x, m)
  }

  function Search(place: Place, x: string): (r: Option<nat>)
    ensures r.Some? ==> r.value <= |x|
  {
    match place
    case BehindArray => Locate(Anchor, x)
    case BeforeQuote => Locate(Description, x)
    case EnterHead => ExternalAt(x)
  }

  lemma PlacesAreLiteral()
    ensures Literals(ARRAY.rest) && Literals(PUBLIC_ARRAY.rest) && Literals(DESCRIBES.rest)
    ensures Literals(ENTERS.rest) && Literals(ENTERS_GUARDED.rest)
    ensures ARRAY == ENTRANTS && PUBLIC_ARRAY == PUBLIC_ENTRANTS && DESCRIBES == OPENING
    ensures ENTERS == EXTERNAL && ENTERS_GUARDED == ALREADY
  {
    ArraysAreLiteral();
    EntersIsLiteral();
    GuardedIsLiteral();
  }

  lemma ArraysAreLiteral()
    ensures Literals(ARRAY.rest) && Literals(PUBLIC_ARRAY.rest) && Literals(DESCRIBES.rest)
    ensures ARRAY == ENTRANTS && PUBLIC_ARRAY == PUBLIC_ENTRANTS && DESCRIBES == OPENING
  {
  }

  lemma EntersIsLiteral()
    ensures Literals(ENTERS.rest) && ENTERS == EXTERNAL
  {
  }

  lemma GuardedIsLiteral()
    ensures Literals(ENTERS_GUARDED.rest) && ENTERS_GUARDED == ALREADY
  {
  }

  lemma OneArray(x: string)
    ensures At(ARRAY, x).None? || At(PUBLIC_ARRAY, x).None?
  {
    hide Skip;
    if ARRAY.first <= x {
      var y := x[9..];
      var s := Skip(y, 0, IsSpace);
      if y[s..] != "" && y[s..][0] == 'e' {
        OtherWord("public", y[s..]);
      } else {
        OtherWord("entrants", y[s..]);
      }
    }
  }

  lemma OtherWord(word: string, y: string)
    requires word != "" && (y == "" || y[0] != word[0])
    ensures !(word <= y)
  {
  }

  lemma HereIff(place: Place, x: string, n: nat)
    requires n <= |x|
    ensures Search(place, x) == Some(n) <==> Here(place, x, n)
  {
    hide At, Starts, Literals;
    PlacesAreLiteral();
    match place {
      case BehindArray =>
        StartsIff(ARRAY, x, n);
        StartsIff(PUBLIC_ARRAY, x, n);
        OneArray(x);
      case BeforeQuote =>
        QuoteIff(x, n);
      case EnterHead =>
        StartsIff(ENTERS, x, n);
        forall m | 0 <= m <= |x|
          ensures At(ENTERS_GUARDED, x) == Some(m) <==> Starts(ENTERS_GUARDED, x, m)
        {
          StartsIff(ENTERS_GUARDED, x, m);
        }
    }
  }

  lemma QuoteIff(x: string, n: nat)
    requires n <= |x|
    ensures DescriptionAt(x) == Some(n) <==> Here(BeforeQuote, x, n)
  {
    hide At, Starts, Skip, Literals;
    PlacesAreLiteral();
    forall m | 0 <= m <= |x|
      ensures At(OPENING, x) == Some(m) <==> Starts(DESCRIBES, x, m)
    {
      StartsIff(DESCRIBES, x, m);
    }
    if DescriptionAt(x) == Some(n) {
      var m := At(OPENING, x).value;
      assert Starts(DESCRIBES, x, m) && '"' !in x[m..n];
    }
    if Here(BeforeQuote, x, n) {
      var m :| 0 <= m <= n && Starts(DESCRIBES, x, m) && '"' !in x[m..n];
      assert forall k :: m <= k < n ==> x[k] == x[m..n][k - m] && x[k] in x[m..n];
      SkipIs(x, m, NotQuote, n);
    }
  }

  // ---- The first place ----

  ghost predicate AtFirst(place: Place, t: string, i: nat, n: nat) {
    && i + n <= |t| && Here(place, t[i..], n)
    && forall j, m :: 0 <= j < i && 0 <= m <= |t| - j ==> !Here(place, t[j..], m)
  }

  ghost predicate Nowhere(place: Place, t: string) {
    forall i, n :: 0 <= i <= |t| && 0 <= n <= |t| - i ==> !Here(place, t[i..], n)
  }

  lemma NothingHere(place: Place, x: string)
    requires Search(place, x).None?
    ensures forall n :: 0 <= n <= |x| ==> !Here(place, x, n)
  {
    hide Search, Here;
    forall n | 0 <= n <= |x|
      ensures !Here(place, x, n)
    {
      HereIff(place, x, n);
    }
  }

  lemma FirstHere(place: Place, t: string, n: nat)
    requires Search(place, t) == Some(n)
    ensures AtFirst(place, t, 0, n)
  {
    hide Search, Here;
    HereIff(place, t, n);
    assert t[0..] == t;
  }

  lemma FirstBehind(place: Place, t: string, i: nat, n: nat)
    requires t != "" && Search(place, t).None? && AtFirst(place, t[1..], i, n)
    ensures AtFirst(place, t, i + 1, n)
  {
    hide Search, Here;
    NothingHere(place, t);
    assert t[1..][i..] == t[i + 1..];
    forall j, m | 0 <= j < i + 1 && 0 <= m <= |t| - j
      ensures !Here(place, t[j..], m)
    {
      if j == 0 {
        assert t[0..] == t;
      } else {
        assert t[1..][j - 1..] == t[j..];
      }
    }
  }

  lemma NowhereBehind(place: Place, t: string)
    requires t != "" && Search(place, t).None? && Nowhere(place, t[1..])
    ensures Nowhere(place, t)
  {
    hide Search, Here;
    NothingHere(place, t);
    forall j, m | 0 <= j <= |t| && 0 <= m <= |t| - j
      ensures !Here(place, t[j..], m)
    {
      if j == 0 {
        assert t[0..] == t;
      } else {
        assert t[1..][j - 1..] == t[j..];
      }
    }
  }

  lemma NothingInNothing(place: Place)
    ensures Nowhere(place, "")
  {
    hide Search, Here;
    EmptyMatchesNone(place);
    NothingHere(place, "");
    forall j, m | 0 <= j <= |""| && 0 <= m <= |""| - j
      ensures !Here(place, ""[j..], m)
    {
      assert ""[j..] == "";
    }
  }

  lemma EmptyMatchesNone(place: Place)
    ensures Search(place, "").None?
  {
    hide RestAt;
  }

  function Kind(k: Target): Place {
    match k
    case Anchor => BehindArray
    case Description => BeforeQuote
  }

  /** The insertion goes to the first place, if there is one. */
  lemma {:induction false} FirstIs(k: Target, t: string)
    ensures match First(k, t)
            case None => Nowhere(Kind(k), t)
            case Some(p) => exists i: nat, n: nat :: AtFirst(Kind(k), t, i, n) && p == i + n
  {
    hide Locate, AtFirst, Nowhere, Here;
    assert Search(Kind(k), t) == Locate(k, t);
    if t == "" {
      NothingInNothing(Kind(k));
    } else if Locate(k, t).Some? {
      FirstHere(Kind(k), t, Locate(k, t).value);
      assert 0 + Locate(k, t).value == Locate(k, t).value;
    } else {
      FirstIs(k, t[1..]);
      if First(k, t[1..]).Some? {
        var i: nat, n: nat :| AtFirst(Kind(k), t[1..], i, n) && First(k, t[1..]).value == i + n;
        FirstBehind(Kind(k), t, i, n);
        assert First(k, t).value == (i + 1) + n;
      } else {
        NowhereBehind(Kind(k), t);
      }
    }
  }

  // ---- What is written there ----

  /** The text of the first place, kept where it is or not, followed by these words. */
  ghost predicate Writes(place: Place, t: string, u: string, words: string) {
    if Nowhere(place, t) then u == t
    else exists i: nat, n: nat :: i + n <= |t| && AtFirst(place, t, i, n)
                        && u == t[..if place == EnterHead then i else i + n] + words + t[i + n..]
  }

  lemma FirstIsSomewhere(place: Place, t: string, i: nat, n: nat)
    requires AtFirst(place, t, i, n)
    ensures !Nowhere(place, t) && i + n <= |t|
  {
    hide Here;
  }

  lemma InsertionIs(k: Target, t: string, words: string)
    ensures Writes(Kind(k), t, InsertFirst(k, t, words), words)
  {
    hide First, Nowhere, AtFirst;
    FirstIs(k, t);
    if First(k, t).Some? {
      var i: nat, n: nat :| AtFirst(Kind(k), t, i, n) && First(k, t).value == i + n;
      FirstIsSomewhere(Kind(k), t, i, n);
    }
  }

  lemma {:induction false} AddingIs(t: string)
    ensures Writes(EnterHead, t, AddModifier(t), EnterHeader())
  {
    hide ExternalAt, Nowhere, AtFirst, EnterHeader;
    assert Search(EnterHead, t) == ExternalAt(t);
    if t == "" {
      NothingInNothing(EnterHead);
    } else if ExternalAt(t).Some? {
      FirstHere(EnterHead, t, ExternalAt(t).value);
      FirstIsSomewhere(EnterHead, t, 0, ExternalAt(t).value);
      assert t[..0] == "";
    } else {
      AddingIs(t[1..]);
      AddingBehind(t);
    }
  }

  lemma AddingBehind(t: string)
    requires t != "" && ExternalAt(t).None? && Writes(EnterHead, t[1..], AddModifier(t[1..]), EnterHeader())
    ensures Writes(EnterHead, t, AddModifier(t), EnterHeader())
  {
    hide ExternalAt, Nowhere, AtFirst, EnterHeader;
    if Nowhere(EnterHead, t[1..]) {
      NowhereBehind(EnterHead, t);
      assert AddModifier(t) == t;
    } else {
      var i: nat, n: nat :| i + n <= |t[1..]| && AtFirst(EnterHead, t[1..], i, n)
                  && AddModifier(t[1..]) == t[1..][..i] + EnterHeader() + t[1..][i + n..];
      FirstBehind(EnterHead, t, i, n);
      FirstIsSomewhere(EnterHead, t, i + 1, n);
      InsideTail(t, i, n);
      var a, b := t[1..][..i], t[1..][i + n..];
      assert [t[0]] + (a + EnterHeader() + b) == ([t[0]] + a) + EnterHeader() + b;
    }
  }

  lemma InsideTail(t: string, i: nat, n: nat)
    requires t != "" && AtFirst(EnterHead, t[1..], i, n)
    ensures i + n + 1 <= |t| && [t[0]] + t[1..][..i] == t[..i + 1] && t[1..][i + n..] == t[i + 1 + n..]
  {
    hide Here;
  }
}
