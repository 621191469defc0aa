/**
 * Function bodies in Solidity text, found by header pattern and brace counting.
 *
 * The header pattern is `function\s+(\w+)\s*\([^)]*\)[^{]*\{`. Its parts start with characters the part
 * before cannot take, so a match at a position is unique and is computed left to right here.
 */
module SolidityText {
  import opened Wrappers

  predicate IsSpace(c: char) {
    c == ' ' || c == '\t' || c == '\n' || c == '\r'
  }

  predicate IsWord(c: char) {
    'a' <= c <= 'z' || 'A' <= c <= 'Z' || '0' <= c <= '9' || c == '_'
  }

  predicate NotClosing(c: char) {
    c != ')'
  }

  predicate NotOpeningBrace(c: char) {
    c != '{'
  }

  const FUNCTION := "function"

  /** The end of the longest stretch from `i` whose characters all satisfy `p`. */
  function Skip(t: string, i: nat, p: char -> bool): (r: nat)
    requires i <= |t|
    ensures i <= r <= |t|
    ensures forall k :: i <= k < r ==> p(t[k])
    ensures r < |t| ==> !p(t[r])
    decreases |t| - i
  {
    if i < |t| && p(t[i]) then Skip(t, i + 1, p) else i
  }

  lemma SkipIs(t: string, i: nat, p: char -> bool, r: nat)
    requires i <= r <= |t|
    requires forall k :: i <= k < r ==> p(t[k])
    requires r < |t| ==> !p(t[r])
    ensures Skip(t, i, p) == r
  {
  }

  /** A matched header, with the offsets of its parentheses and its length including the brace. */
  datatype Header = Header(name: string, open: nat, close: nat, length: nat)

  function HeaderAt(t: string): (r: Option<Header>)
    ensures r.Some? ==> 0 < r.value.length <= |t|
  {
    if !(FUNCTION <= t) then None else
      var nameStart := Skip(t, |FUNCTION|, IsSpace);
      var nameEnd := Skip(t, nameStart, IsWord);
      var open := Skip(t, nameEnd, IsSpace);
      if nameStart == |FUNCTION| || nameEnd == nameStart || open == |t| || t[open] != '(' then None else
        var close := Skip(t, open + 1, NotClosing);
        if close == |t| then None else
          var brace := Skip(t, close + 1, NotOpeningBrace);
          if brace == |t| then None else Some(Header(t[nameStart..nameEnd], open, close, brace + 1))
  }

  /** What a match at the start of a text looks like. */
  ghost predicate HeaderShape(t: string, h: Header) {
    && |FUNCTION| < h.open < h.close < h.length <= |t|
    && (forall k :: 0 <= k < h.open ==> IsSpace(t[k]) || IsWord(t[k]))
    && t[h.open] == '(' && t[h.close] == ')' && t[h.length - 1] == '{'
    && (forall k :: h.open < k < h.close ==> t[k] != ')')
    && (forall k :: h.close < k < h.length - 1 ==> t[k] != '{')
  }

  lemma HeaderHasShape(t: string)
    requires HeaderAt(t).Some?
    ensures HeaderShape(t, HeaderAt(t).value)
  {
    var h := HeaderAt(t).value;
    assert forall k :: 0 <= k < |FUNCTION| ==> t[k] == FUNCTION[k] && IsWord(FUNCTION[k]);
  }

  ghost predicate SameUpTo(t: string, u: string, n: nat) {
    n <= |t| && n <= |u| && forall k :: 0 <= k < n ==> t[k] == u[k]
  }

  lemma {:induction false} SkipPrefix(t: string, u: string, i: nat, p: char -> bool, n: nat)
    requires i <= n && SameUpTo(t, u, n)
    requires Skip(t, i, p) < n
    ensures Skip(u, i, p) == Skip(t, i, p)
    decreases |t| - i
  {
    if p(t[i]) {
      SkipPrefix(t, u, i + 1, p, n);
    }
  }

  /** The scan positions of a match, with the scan itself. */
  ghost predicate Scanned(t: string, nameStart: nat, nameEnd: nat, h: Header) {
    && FUNCTION <= t
    && |FUNCTION| < nameStart < nameEnd <= h.open < h.close < h.length <= |t|
    && nameStart == Skip(t, |FUNCTION|, IsSpace)
    && nameEnd == Skip(t, nameStart, IsWord)
    && h.open == Skip(t, nameEnd, IsSpace) && t[h.open] == '('
    && h.close == Skip(t, h.open + 1, NotClosing)
    && h.length == Skip(t, h.close + 1, NotOpeningBrace) + 1
    && h.name == t[nameStart..nameEnd]
  }

  lemma MatchIsScanned(t: string) returns (nameStart: nat, nameEnd: nat)
    requires HeaderAt(t).Some?
    ensures Scanned(t, nameStart, nameEnd, HeaderAt(t).value)
  {
    nameStart := Skip(t, |FUNCTION|, IsSpace);
    nameEnd := Skip(t, nameStart, IsWord);
  }

  lemma ScannedIsMatch(t: string, nameStart: nat, nameEnd: nat, h: Header)
    requires Scanned(t, nameStart, nameEnd, h)
    ensures HeaderAt(t) == Some(h)
  {
  }

  lemma NameIsLocal(t: string, u: string, nameStart: nat, nameEnd: nat, h: Header)
    requires Scanned(t, nameStart, nameEnd, h) && SameUpTo(t, u, h.length)
    ensures FUNCTION <= u && nameStart == Skip(u, |FUNCTION|, IsSpace) && nameEnd == Skip(u, nameStart, IsWord)
  {
    SkipPrefix(t, u, |FUNCTION|, IsSpace, h.length);
    SkipPrefix(t, u, nameStart, IsWord, h.length);
  }

  lemma ParametersAreLocal(t: string, u: string, nameEnd: nat, h: Header)
    requires nameEnd <= h.open < h.close < h.length && SameUpTo(t, u, h.length)
    requires h.open == Skip(t, nameEnd, IsSpace) && h.close == Skip(t, h.open + 1, NotClosing)
    requires h.length == Skip(t, h.close + 1, NotOpeningBrace) + 1
    ensures h.open == Skip(u, nameEnd, IsSpace) && h.close == Skip(u, h.open + 1, NotClosing)
    ensures h.length == Skip(u, h.close + 1, NotOpeningBrace) + 1
  {
    SkipPrefix(t, u, nameEnd, IsSpace, h.length);
    SkipPrefix(t, u, h.open + 1, NotClosing, h.length);
    SkipPrefix(t, u, h.close + 1, NotOpeningBrace, h.length);
  }

  lemma ScanIsLocal(t: string, u: string, nameStart: nat, nameEnd: nat, h: Header)
    requires Scanned(t, nameStart, nameEnd, h) && SameUpTo(t, u, h.length)
    ensures Scanned(u, nameStart, nameEnd, h)
  {
    hide Skip;
    NameIsLocal(t, u, nameStart, nameEnd, h);
    ParametersAreLocal(t, u, nameEnd, h);
    assert t[nameStart..nameEnd] == u[nameStart..nameEnd];
  }

  /** A match depends only on the matched text. */
  lemma HeaderIsLocal(t: string, u: string, h: Header)
    requires HeaderAt(t) == Some(h)
    requires SameUpTo(t, u, h.length)
    ensures HeaderAt(u) == Some(h)
  {
    var nameStart, nameEnd := MatchIsScanned(t);
    ScanIsLocal(t, u, nameStart, nameEnd, h);
    ScannedIsMatch(u, nameStart, nameEnd, h);
  }

  /** A match starting earlier ends no later than a match it starts before. */
  lemma ShapesNest(t: string, g: Header, o: nat, h: Header)
    requires o <= |t| && HeaderShape(t, g) && HeaderShape(t[o..], h)
    ensures g.length <= o + h.length
  {
    assert t[o..][h.open] == t[o + h.open] && t[o..][h.close] == t[o + h.close];
    assert t[o..][h.length - 1] == t[o + h.length - 1];
    assert g.open <= o + h.open;
    assert g.close <= o + h.close;
  }

  /** Text up to the end of some match decides which matches start before it. */
  lemma PrefixDecides(t: string, u: string, o: nat, h: Header)
    requires o <= |t| && HeaderAt(t[o..]) == Some(h)
    requires SameUpTo(t, u, o + h.length)
    ensures HeaderAt(u) == HeaderAt(t)
  {
    HeaderHasShape(t[o..]);
    HeaderIsLocal(t[o..], u[o..], h);
    HeaderHasShape(u[o..]);
    if HeaderAt(t).Some? {
      MatchCarriesOver(t, u, HeaderAt(t).value, o, h);
    } else if HeaderAt(u).Some? {
      MatchCarriesOver(u, t, HeaderAt(u).value, o, h);
    }
  }

  lemma MatchCarriesOver(t: string, u: string, g: Header, o: nat, h: Header)
    requires HeaderAt(t) == Some(g)
    requires o <= |t| && HeaderShape(t[o..], h) && SameUpTo(t, u, o + h.length)
    ensures HeaderAt(u) == Some(g)
  {
    HeaderHasShape(t);
    ShapesNest(t, g, o, h);
    HeaderIsLocal(t, u, g);
  }
}
