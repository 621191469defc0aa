/** What the pattern tests and the brace counts find, in terms of the text alone. */
module PlainText {
  import opened Wrappers
  import opened SolidityText
  import opened Patterns

  predicate Blank(x: string) {
    forall i :: 0 <= i < |x| ==> x[i] == ' ' || x[i] == '\t' || x[i] == '\n' || x[i] == '\r'
  }

  ghost predicate Contains(t: string, x: string) {
    exists i :: 0 <= i <= |t| && x <= t[i..]
  }

  /** The text starts with these words, with white space or nothing in front of each. */
  ghost predicate Follow(words: seq<string>, t: string)
    decreases |words|, 1
  {
    words == [] ||
    exists k :: 0 <= k <= |t| && Blank(t[..k]) && FollowFrom(words, t, k)
  }

  ghost predicate FollowFrom(words: seq<string>, t: string, k: nat)
    requires words != [] && k <= |t|
    decreases |words|, 0
  {
    words[0] <= t[k..] && Follow(words[1..], t[k + |words[0]|..])
  }

  /** Somewhere in the text the words stand in this order, with at most white space between them. */
  ghost predicate Occurs(first: string, words: seq<string>, t: string) {
    exists i :: 0 <= i <= |t| && first <= t[i..] && Follow(words, t[i + |first|..])
  }

  // ---- The pattern engine finds exactly these ----

  /** Pieces that may have white space in front of them. */
  function Gaps(words: seq<string>): seq<Piece> {
    seq(|words|, i requires 0 <= i < |words| => Piece(false, Literal(words[i])))
  }

  ghost predicate PlainWords(words: seq<string>) {
    forall x :: x in words ==> Plain(x)
  }

  lemma {:induction false} FollowIff(words: seq<string>, t: string)
    requires PlainWords(words)
    ensures RestAt(Gaps(words), t).Some? <==> Follow(words, t)
    decreases |words|
  {
    hide Skip, Follow, PieceAt, RestAt, PlainWords;
    if words == [] {
      NothingFollows(t);
    } else {
      var s := Skip(t, 0, IsSpace);
      var x, rest := words[0], words[1..];
      FirstWord(words);
      if x <= t[s..] {
        FollowIff(rest, t[s + |x|..]);
      }
      FirstPieceIff(words, t, s);
      PieceIff(words, t, s);
    }
  }

  lemma NothingFollows(t: string)
    ensures Gaps([]) == [] && RestAt([], t) == Some(0) && Follow([], t)
  {
  }

  lemma FirstWord(words: seq<string>)
    requires words != [] && PlainWords(words)
    ensures Plain(words[0]) && PlainWords(words[1..])
    ensures Gaps(words)[1..] == Gaps(words[1..]) && Gaps(words)[0] == Piece(false, Literal(words[0]))
  {
    assert words[0] in words;
  }

  lemma FirstPieceIff(words: seq<string>, t: string, s: nat)
    requires words != [] && s == Skip(t, 0, IsSpace)
    requires Gaps(words)[1..] == Gaps(words[1..]) && Gaps(words)[0] == Piece(false, Literal(words[0]))
    ensures RestAt(Gaps(words), t).Some?
            <==> words[0] <= t[s..] && RestAt(Gaps(words[1..]), t[s + |words[0]|..]).Some?
  {
    hide Skip, PieceAt;
    var x := words[0];
    PieceIs(Gaps(words)[0], t, s);
    RestOne(Gaps(words), t);
  }

  lemma PieceIff(words: seq<string>, t: string, s: nat)
    requires words != [] && Plain(words[0]) && s == Skip(t, 0, IsSpace)
    ensures Follow(words, t) <==> words[0] <= t[s..] && Follow(words[1..], t[s + |words[0]|..])
  {
    hide Follow;
    var x := words[0];
    if Follow(words, t) {
      OpenFollow(words, t);
      var k :| 0 <= k <= |t| && Blank(t[..k]) && FollowFrom(words, t, k);
      BlanksEnd(t, k, x);
      assert k == s;
    }
    if x <= t[s..] && Follow(words[1..], t[s + |x|..]) {
      assert Blank(t[..s]) && FollowFrom(words, t, s);
      OpenFollow(words, t);
    }
  }

  lemma OpenFollow(words: seq<string>, t: string)
    requires words != []
    ensures Follow(words, t) <==> exists k :: 0 <= k <= |t| && Blank(t[..k]) && FollowFrom(words, t, k)
  {
  }

  /** A word in front of which stands only white space starts where the white space ends. */
  lemma BlanksEnd(t: string, k: nat, x: string)
    requires k <= |t| && Blank(t[..k]) && Plain(x) && x <= t[k..]
    ensures k == Skip(t, 0, IsSpace)
  {
    assert forall i :: 0 <= i < k ==> t[i] == t[..k][i];
    assert t[k..][0] == t[k] == x[0];
    SkipIs(t, 0, IsSpace, k);
  }

  /** A pattern of words with optional white space between them is found exactly where they occur. */
  lemma OccursIff(p: Pattern, first: string, words: seq<string>, t: string)
    requires p == Pattern(first, Gaps(words)) && PlainWords(words)
    ensures Found(p, t) <==> Occurs(first, words, t)
  {
    hide RestAt, Follow;
    forall i | 0 <= i <= |t|
      ensures At(p, t[i..]).Some? <==> first <= t[i..] && Follow(words, t[i + |first|..])
    {
      if first <= t[i..] {
        assert t[i..][|first|..] == t[i + |first|..];
        FollowIff(words, t[i + |first|..]);
      }
    }
    if Found(p, t) {
      var i :| 0 <= i <= |t| && At(p, t[i..]).Some?;
      assert first <= t[i..] && Follow(words, t[i + |first|..]);
    }
    if Occurs(first, words, t) {
      var i :| 0 <= i <= |t| && first <= t[i..] && Follow(words, t[i + |first|..]);
      assert At(p, t[i..]).Some?;
    }
  }

  lemma ContainsIff(p: Pattern, first: string, t: string)
    requires p == Pattern(first, [])
    ensures Found(p, t) <==> Contains(t, first)
  {
    hide RestAt;
    forall i | 0 <= i <= |t|
      ensures At(p, t[i..]).Some? <==> first <= t[i..]
    {
      if first <= t[i..] {
        NoPieces(t[i..][|first|..]);
      }
    }
    if Found(p, t) {
      var i :| 0 <= i <= |t| && At(p, t[i..]).Some?;
      assert first <= t[i..];
    }
    if Contains(t, first) {
      var i :| 0 <= i <= |t| && first <= t[i..];
      assert At(p, t[i..]).Some?;
    }
  }

  // ---- Matches from a place on ----

  /** The first `n` characters are these words, with white space in front of each, some where it is required. */
  ghost predicate Span(pieces: seq<Piece>, t: string, n: nat)
    decreases |pieces|, 1
  {
    if pieces == [] then n == 0
    else exists k :: 0 <= k <= |t| && Blank(t[..k]) && SpanFrom(pieces, t, n, k)
  }

  ghost predicate SpanFrom(pieces: seq<Piece>, t: string, n: nat, k: nat)
    requires pieces != [] && k <= |t|
    decreases |pieces|, 0
  {
    && (pieces[0].spaced ==> k > 0)
    && pieces[0].word.Literal? && pieces[0].word.text <= t[k..] && k + |pieces[0].word.text| <= n
    && Span(pieces[1..], t[k + |pieces[0].word.text|..], n - k - |pieces[0].word.text|)
  }

  ghost predicate Literals(pieces: seq<Piece>) {
    forall q :: q in pieces ==> q.word.Literal? && Plain(q.word.text)
  }

  lemma {:induction false} SpanIff(pieces: seq<Piece>, t: string, n: nat)
    requires Literals(pieces)
    ensures RestAt(pieces, t) == Some(n) <==> Span(pieces, t, n)
    decreases |pieces|
  {
    hide Skip, RestAt, PieceAt, Span, Literals;
    if pieces == [] {
      NothingSpans(t, n);
    } else {
      var s := Skip(t, 0, IsSpace);
      FirstLiteral(pieces);
      var x, rest := pieces[0].word.text, pieces[1..];
      if x <= t[s..] && s + |x| <= n {
        SpanIff(rest, t[s + |x|..], n - s - |x|);
      }
      RestIff(pieces, t, n, s);
      OneSpan(pieces, t, n, s);
    }
  }

  lemma NothingSpans(t: string, n: nat)
    ensures RestAt([], t) == Some(n) <==> Span([], t, n)
  {
  }

  lemma FirstLiteral(pieces: seq<Piece>)
    requires pieces != [] && Literals(pieces)
    ensures pieces[0].word.Literal? && Plain(pieces[0].word.text) && Literals(pieces[1..])
  {
    assert pieces[0] in pieces;
  }

  lemma RestIff(pieces: seq<Piece>, t: string, n: nat, s: nat)
    requires pieces != [] && Literals(pieces) && s == Skip(t, 0, IsSpace) && pieces[0].word.Literal?
    ensures var x := pieces[0].word.text;
            RestAt(pieces, t) == Some(n)
            <==> && (pieces[0].spaced ==> s > 0) && x <= t[s..] && s + |x| <= n
                 && RestAt(pieces[1..], t[s + |x|..]) == Some(n - s - |x|)
  {
    hide PieceAt, Skip;
    var x := pieces[0].word.text;
    PieceIs(pieces[0], t, s);
    RestOne(pieces, t);
  }

  lemma PieceIs(p: Piece, t: string, s: nat)
    requires p.word.Literal? && s == Skip(t, 0, IsSpace)
    ensures PieceAt(p, t) == if (p.spaced && s == 0) || !(p.word.text <= t[s..]) then None else Some(s + |p.word.text|)
  {
    hide Skip;
  }

  lemma RestOne(pieces: seq<Piece>, t: string)
    requires pieces != []
    ensures RestAt(pieces, t) == match PieceAt(pieces[0], t)
                                 case None => None
                                 case Some(k) =>
                                   var m := RestAt(pieces[1..], t[k..]);
                                   if m.None? then None else Some(k + m.value)
  {
    hide PieceAt;
  }

  lemma OneSpan(pieces: seq<Piece>, t: string, n: nat, s: nat)
    requires pieces != [] && Literals(pieces) && s == Skip(t, 0, IsSpace)
    ensures Span(pieces, t, n) <==> SpanFrom(pieces, t, n, s)
  {
    hide Skip, SpanFrom;
    assert pieces[0] in pieces;
    SpacesAreBlank(t, s);
    if Span(pieces, t, n) {
      var k :| 0 <= k <= |t| && Blank(t[..k]) && SpanFrom(pieces, t, n, k);
      StartsWord(pieces, t, n, k);
      BlanksEnd(t, k, pieces[0].word.text);
    }
  }

  lemma SpacesAreBlank(t: string, s: nat)
    requires s == Skip(t, 0, IsSpace)
    ensures s <= |t| && Blank(t[..s])
  {
    hide Skip;
  }

  lemma StartsWord(pieces: seq<Piece>, t: string, n: nat, k: nat)
    requires pieces != [] && k <= |t| && SpanFrom(pieces, t, n, k)
    ensures pieces[0].word.Literal? && pieces[0].word.text <= t[k..]
  {
  }

  /** A pattern of words matches the first `n` characters of a text. */
  ghost predicate Starts(p: Pattern, t: string, n: nat) {
    p.first <= t && |p.first| <= n && Span(p.rest, t[|p.first|..], n - |p.first|)
  }

  lemma StartsIff(p: Pattern, t: string, n: nat)
    requires Literals(p.rest)
    ensures At(p, t) == Some(n) <==> Starts(p, t, n)
  {
    hide RestAt, Span;
    if p.first <= t && |p.first| <= n {
      SpanIff(p.rest, t[|p.first|..], n - |p.first|);
    }
  }
}
