/** `function name (`: where the header pattern and the tests for a function begin. */
module FunctionHeads {
  import opened Wrappers
  import opened SolidityText
  import opened Patterns

  const PARENTHESIS := Piece(false, Literal("("))

  /** `function\s+\w+\s*\(`. */
  const HEAD := Pattern(FUNCTION, [Piece(true, Identifier), PARENTHESIS])

  /** `function\s+name\s*\(`. */
  function Named(name: string): Pattern {
    Pattern(FUNCTION, [Piece(true, Literal(name)), PARENTHESIS])
  }

  predicate IsName(name: string) {
    name != "" && forall c :: c in name ==> IsWord(c)
  }

  lemma TwoAreSane(w: Word)
    requires match w case Literal(x) => Plain(x) case Identifier => true
    ensures var ps := [Piece(true, w), PARENTHESIS]; Sane(ps) && LastOf(ps) == '('
  {
    var ps := [Piece(true, w), PARENTHESIS];
    assert ps[1..] == [PARENTHESIS] && [PARENTHESIS][1..] == [];
    assert Sane([]) && Plain("(");
    assert Sane([PARENTHESIS]);
  }

  lemma HeadIsValid()
    ensures Valid(HEAD) && Last(HEAD) == '('
  {
    TwoAreSane(Identifier);
  }

  lemma NamedIsValid(name: string)
    requires IsName(name)
    ensures Valid(Named(name)) && Last(Named(name)) == '('
  {
    assert name[0] in name;
    TwoAreSane(Literal(name));
  }

  /** The scan of a head: the end of the spaces, of the name, and of the spaces before the parenthesis. */
  ghost predicate HeadScan(t: string, nameStart: nat, nameEnd: nat, open: nat) {
    && FUNCTION <= t
    && |FUNCTION| < nameStart < nameEnd <= open < |t|
    && nameStart == Skip(t, |FUNCTION|, IsSpace)
    && nameEnd == Skip(t, nameStart, IsWord)
    && open == Skip(t, nameEnd, IsSpace) && t[open] == '('
  }

  lemma {:induction false} SkipShift(t: string, n: nat, i: nat, p: char -> bool)
    requires n <= i <= |t|
    ensures Skip(t[n..], i - n, p) == Skip(t, i, p) - n
    decreases |t| - i
  {
    if i < |t| && p(t[i]) {
      SkipShift(t, n, i + 1, p);
    }
  }

  lemma ScanIsHead(t: string, nameStart: nat, nameEnd: nat, open: nat)
    requires HeadScan(t, nameStart, nameEnd, open)
    ensures At(HEAD, t) == Some(open + 1)
    ensures At(Named(t[nameStart..nameEnd]), t) == Some(open + 1)
  {
    var name := t[nameStart..nameEnd];
    NameThenParenthesis(t, Identifier, nameStart, nameEnd, open);
    NameThenParenthesis(t, Literal(name), nameStart, nameEnd, open);
  }

  lemma NameThenParenthesis(t: string, w: Word, nameStart: nat, nameEnd: nat, open: nat)
    requires HeadScan(t, nameStart, nameEnd, open)
    requires w == Identifier || w == Literal(t[nameStart..nameEnd])
    ensures At(Pattern(FUNCTION, [Piece(true, w), PARENTHESIS]), t) == Some(open + 1)
  {
    hide Skip, PieceAt, RestAt;
    var n := |FUNCTION|;
    NamePiece(t, w, nameStart, nameEnd, open);
    assert t[n..][nameEnd - n..] == t[nameEnd..];
    Parenthesis(t, nameEnd, open);
    TwoPieces(Piece(true, w), PARENTHESIS, t[n..], nameEnd - n, open + 1 - nameEnd);
  }

  lemma NamePiece(t: string, w: Word, nameStart: nat, nameEnd: nat, open: nat)
    requires HeadScan(t, nameStart, nameEnd, open)
    requires w == Identifier || w == Literal(t[nameStart..nameEnd])
    ensures PieceAt(Piece(true, w), t[|FUNCTION|..]) == Some(nameEnd - |FUNCTION|)
  {
    hide Skip, IsWord, IsSpace, WordAt;
    var n := |FUNCTION|;
    SkipShift(t, n, n, IsSpace);
    assert t[n..][nameStart - n..] == t[nameStart..];
    NameWord(t, w, nameStart, nameEnd);
  }

  lemma NameWord(t: string, w: Word, nameStart: nat, nameEnd: nat)
    requires nameStart < nameEnd <= |t| && nameEnd == Skip(t, nameStart, IsWord)
    requires w == Identifier || w == Literal(t[nameStart..nameEnd])
    ensures WordAt(w, t[nameStart..]) == Some(nameEnd - nameStart)
  {
    hide Skip;
    SkipShift(t, nameStart, nameStart, IsWord);
    assert t[nameStart..][..nameEnd - nameStart] == t[nameStart..nameEnd];
    assert t[nameStart..][0] == t[nameStart];
  }

  lemma Parenthesis(t: string, nameEnd: nat, open: nat)
    requires nameEnd <= open < |t| && open == Skip(t, nameEnd, IsSpace) && t[open] == '('
    ensures PieceAt(PARENTHESIS, t[nameEnd..]) == Some(open + 1 - nameEnd)
  {
    SkipShift(t, nameEnd, nameEnd, IsSpace);
    assert t[nameEnd..][open - nameEnd..] == t[open..];
  }

  /** Every head is scanned like that. */
  lemma HeadIsScan(t: string) returns (nameStart: nat, nameEnd: nat, open: nat)
    requires At(HEAD, t).Some?
    ensures HeadScan(t, nameStart, nameEnd, open) && At(HEAD, t) == Some(open + 1)
  {
    hide Skip, PieceAt, RestAt;
    var n := |FUNCTION|;
    var k, m := TwoPiecesOf(Piece(true, Identifier), PARENTHESIS, t[n..]);
    nameStart, nameEnd, open := ScanName(t, k);
    assert t[n..][k..] == t[nameEnd..];
    ScanParenthesis(t, nameEnd, m);
  }

  lemma ScanName(t: string, k: nat) returns (nameStart: nat, nameEnd: nat, open: nat)
    requires FUNCTION <= t && PieceAt(Piece(true, Identifier), t[|FUNCTION|..]) == Some(k)
    ensures |FUNCTION| < nameStart < nameEnd == |FUNCTION| + k <= open <= |t|
    ensures nameStart == Skip(t, |FUNCTION|, IsSpace) && nameEnd == Skip(t, nameStart, IsWord)
    ensures open == Skip(t, nameEnd, IsSpace)
  {
    hide Skip;
    var n := |FUNCTION|;
    nameStart := Skip(t, n, IsSpace);
    SkipShift(t, n, n, IsSpace);
    assert t[n..][nameStart - n..] == t[nameStart..];
    SkipShift(t, nameStart, nameStart, IsWord);
    nameEnd := Skip(t, nameStart, IsWord);
    open := Skip(t, nameEnd, IsSpace);
    assert t[nameStart..][0] == t[nameStart];
  }

  lemma ScanParenthesis(t: string, nameEnd: nat, m: nat)
    requires nameEnd <= |t| && PieceAt(PARENTHESIS, t[nameEnd..]) == Some(m)
    ensures var open := Skip(t, nameEnd, IsSpace);
            open < |t| && t[open] == '(' && open + 1 == nameEnd + m
  {
    hide Skip;
    SkipShift(t, nameEnd, nameEnd, IsSpace);
    var open := Skip(t, nameEnd, IsSpace);
    assert t[nameEnd..][open - nameEnd..] == t[open..];
    assert t[open..][0] == t[open];
  }

  /** Every header starts with the head of its name. */
  lemma HeaderIsHead(t: string)
    requires HeaderAt(t).Some?
    ensures At(HEAD, t) == Some(HeaderAt(t).value.open + 1)
    ensures At(Named(HeaderAt(t).value.name), t) == Some(HeaderAt(t).value.open + 1)
    ensures IsName(HeaderAt(t).value.name)
  {
    hide HeaderAt, Skip, At;
    var nameStart, nameEnd := MatchIsScanned(t);
    ScanIsHead(t, nameStart, nameEnd, HeaderAt(t).value.open);
    assert forall c :: c in t[nameStart..nameEnd] ==> IsWord(c);
  }

  /** A head of one name is a head, and that name is the one scanned. */
  lemma NamedIsHead(name: string, t: string)
    requires IsName(name) && At(Named(name), t).Some?
    ensures At(HEAD, t) == At(Named(name), t)
    ensures HeaderAt(t).Some? ==> HeaderAt(t).value.name == name
  {
    hide HeaderAt, PieceAt, Skip, RestAt;
    var n := |FUNCTION|;
    var k, m := TwoPiecesOf(Piece(true, Literal(name)), PARENTHESIS, t[n..]);
    var nameEnd := n + k;
    assert t[n..][k..] == t[nameEnd..];
    ScanParenthesis(t, nameEnd, m);
    var open := Skip(t, nameEnd, IsSpace);
    ScanLiteral(t, name, k);
    hide At;
    ScanIsHead(t, nameEnd - |name|, nameEnd, open);
    if HeaderAt(t).Some? {
      var a, b := MatchIsScanned(t);
    }
  }

  /** A name followed by something that is no word character is scanned as an identifier. */
  lemma ScanLiteral(t: string, name: string, k: nat)
    requires FUNCTION <= t && IsName(name) && |FUNCTION| + k < |t|
    requires PieceAt(Piece(true, Literal(name)), t[|FUNCTION|..]) == Some(k)
    requires Skip(t, |FUNCTION| + k, IsSpace) < |t| && t[Skip(t, |FUNCTION| + k, IsSpace)] == '('
    ensures |name| < k
    ensures var nameEnd := |FUNCTION| + k; var nameStart := nameEnd - |name|;
            && |FUNCTION| < nameStart && nameStart == Skip(t, |FUNCTION|, IsSpace)
            && nameEnd == Skip(t, nameStart, IsWord) && t[nameStart..nameEnd] == name
  {
    hide Skip, IsWord, IsSpace;
    var n := |FUNCTION|;
    SkipShift(t, n, n, IsSpace);
    var nameStart := Skip(t, n, IsSpace);
    assert t[n..][nameStart - n..] == t[nameStart..];
    NameScanned(t, name, nameStart);
  }

  lemma NameScanned(t: string, name: string, nameStart: nat)
    requires IsName(name) && nameStart <= |t| && name <= t[nameStart..]
    requires var open := Skip(t, nameStart + |name|, IsSpace); open < |t| && t[open] == '('
    ensures t[nameStart..nameStart + |name|] == name && Skip(t, nameStart, IsWord) == nameStart + |name|
  {
    hide Skip, IsWord, IsName;
    var nameEnd := nameStart + |name|;
    assert t[nameStart..nameEnd] == t[nameStart..][..|name|];
    forall i | nameStart <= i < nameEnd
      ensures IsWord(t[i])
    {
      assert t[i] == t[nameStart..nameEnd][i - nameStart] && t[i] == name[i - nameStart];
      WordInName(name, i - nameStart);
    }
    NoWordNext(t, nameEnd);
    SkipIs(t, nameStart, IsWord, nameEnd);
  }

  lemma WordInName(name: string, i: nat)
    requires IsName(name) && i < |name|
    ensures IsWord(name[i])
  {
  }

  lemma NoWordNext(t: string, i: nat)
    requires i <= |t| && Skip(t, i, IsSpace) < |t| && t[Skip(t, i, IsSpace)] == '('
    ensures i < |t| && !IsWord(t[i])
  {
    assert Skip(t, i, IsSpace) > i ==> IsSpace(t[i]);
  }

  /** A head that starts before a function header and is not complete there is none. */
  lemma NoHeadAcross(y: string, header: string, rest: string)
    requires y != "" && At(HEAD, y).None? && HeaderAt(header).Some?
    ensures At(HEAD, y + header + rest).None?
  {
    hide At, HeaderAt, Skip;
    var t, f := y + header + rest, header + rest;
    HeadIsValid();
    HeaderScanned(header);
    var d := Skip(header, |FUNCTION|, IsSpace);
    assert forall k :: 0 <= k <= d ==> f[k] == header[k];
    if At(HEAD, t).Some? {
      var a, b, c := HeadIsScan(t);
      if c < |y| {
        AtIsLocal(HEAD, t, y, c + 1);
      } else {
        assert t[|y|..] == f;
        CrossingHead(t, |y|, f, d, a, b, c);
      }
    }
  }

  lemma HeaderScanned(header: string)
    requires HeaderAt(header).Some?
    ensures FUNCTION <= header
    ensures var d := Skip(header, |FUNCTION|, IsSpace); |FUNCTION| < d < |header| && IsWord(header[d])
  {
    hide HeaderAt, Skip;
    var d, e := MatchIsScanned(header);
  }

  /** A word, spaces and another word inside a scan leave no room for the parenthesis. */
  lemma CrossingHead(t: string, n: nat, f: string, d: nat, a: nat, b: nat, c: nat)
    requires 0 < n && HeadScan(t, a, b, c) && n <= |t| && t[n..] == f
    requires FUNCTION <= f && |FUNCTION| < d < |f| && IsWord(f[d])
    requires forall k :: |FUNCTION| <= k < d ==> IsSpace(f[k])
    ensures c < n
  {
    hide Skip;
    assert forall k :: 0 <= k < |FUNCTION| ==> t[k] == FUNCTION[k];
    LetterAt(f);
    assert t[n + 0] == f[0] && t[n + 8] == f[8] && t[n + d] == f[d];
    assert n <= c ==> |FUNCTION| <= n;
    assert n <= c ==> a <= n < b;
    assert n <= c ==> b <= n + 8 && c < n + d;
  }

  lemma LetterAt(f: string)
    requires FUNCTION <= f
    ensures f[0] == 'f' && forall k :: 0 <= k < |FUNCTION| ==> IsWord(f[k]) && !IsSpace(f[k])
    ensures forall k :: 0 < k < |FUNCTION| ==> FUNCTION[k] != 'f'
  {
    assert forall k :: 0 <= k < |FUNCTION| ==> f[k] == FUNCTION[k];
  }
}
