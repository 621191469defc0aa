/**
 * The regular expressions of the patches: words separated by optional or required white space. Where a
 * match starts decides where it ends, so the greedy search is a function.
 */
module Patterns {
  import opened Wrappers
  import opened SolidityText

  datatype Word = Literal(text: string) | Identifier

  /** `\s*` or `\s+`, then a word. */
  datatype Piece = Piece(spaced: bool, word: Word)

  datatype Pattern = Pattern(first: string, rest: seq<Piece>)

  function WordAt(w: Word, t: string): (r: Option<nat>)
    ensures r.Some? ==> r.value <= |t|
  {
    match w
    case Literal(x) => if x <= t then Some(|x|) else None
    case Identifier => if t != "" && IsWord(t[0]) then Some(Skip(t, 0, IsWord)) else None
  }

  function PieceAt(p: Piece, t: string): (r: Option<nat>)
    ensures r.Some? ==> r.value <= |t|
  {
    var s := Skip(t, 0, IsSpace);
    var n := WordAt(p.word, t[s..]);
    if n.None? || (p.spaced && s == 0) then None else Some(s + n.value)
  }

  function RestAt(ps: seq<Piece>, t: string): (r: Option<nat>)
    ensures r.Some? ==> r.value <= |t|
  {
    if ps == [] then Some(0) else
      var k := PieceAt(ps[0], t);
      if k.None? then None else
        var m := RestAt(ps[1..], t[k.value..]);
        if m.None? then None else Some(k.value + m.value)
  }

  /** The length of a match at the start of a text. */
  function At(p: Pattern, t: string): (r: Option<nat>)
    ensures r.Some? ==> r.value <= |t|
  {
    if !(p.first <= t) then None else
      var m := RestAt(p.rest, t[|p.first|..]);
      if m.None? then None else Some(|p.first| + m.value)
  }

  /** `pattern.test(t)`. */
  ghost predicate Found(p: Pattern, t: string) {
    exists i :: 0 <= i <= |t| && At(p, t[i..]).Some?
  }

  // ---- Well-formed patterns ----

  predicate Plain(x: string) {
    x != "" && !IsSpace(x[0])
  }

  /** Words start with no space, an identifier is followed by something that ends it, and a literal comes last. */
  predicate Sane(ps: seq<Piece>) {
    ps == [] ||
    (Sane(ps[1..]) &&
     match ps[0].word
     case Literal(x) => Plain(x)
     case Identifier => ps[1..] != [] && ps[1].word.Literal? && Plain(ps[1].word.text) && !IsWord(ps[1].word.text[0]))
  }

  predicate Valid(p: Pattern) {
    Plain(p.first) && Sane(p.rest)
  }

  lemma {:induction false} LiteralsAreSane(ps: seq<Piece>)
    requires forall q :: q in ps ==> q.word.Literal? && Plain(q.word.text)
    ensures Sane(ps)
  {
    if ps != [] {
      assert ps[0] in ps;
      assert forall q :: q in ps[1..] ==> q in ps;
      LiteralsAreSane(ps[1..]);
    }
  }

  predicate WordUses(w: Word, c: char) {
    match w
    case Literal(x) => c in x
    case Identifier => IsWord(c)
  }

  predicate Uses(p: Pattern, c: char) {
    c in p.first || exists q :: q in p.rest && WordUses(q.word, c)
  }

  lemma UsesNone(p: Pattern, c: char)
    requires p.rest == []
    ensures Uses(p, c) <==> c in p.first
  {
  }

  lemma UsesOne(p: Pattern, a: Piece, c: char)
    requires p.rest == [a]
    ensures Uses(p, c) <==> c in p.first || WordUses(a.word, c)
  {
    assert a in p.rest;
  }

  lemma UsesTwo(p: Pattern, a: Piece, b: Piece, c: char)
    requires p.rest == [a, b]
    ensures Uses(p, c) <==> c in p.first || WordUses(a.word, c) || WordUses(b.word, c)
  {
    assert a in p.rest && b in p.rest;
  }

  lemma UsesThree(p: Pattern, a: Piece, b: Piece, d: Piece, c: char)
    requires p.rest == [a, b, d]
    ensures Uses(p, c) <==> c in p.first || WordUses(a.word, c) || WordUses(b.word, c) || WordUses(d.word, c)
  {
    assert a in p.rest && b in p.rest && d in p.rest;
  }

  /** The last character of every match. */
  function Last(p: Pattern): char
    requires Valid(p)
  {
    if p.rest == [] then p.first[|p.first| - 1] else LastOf(p.rest)
  }

  function LastOf(ps: seq<Piece>): char
    requires Sane(ps) && ps != []
  {
    if |ps| == 1 then ps[0].word.text[|ps[0].word.text| - 1] else LastOf(ps[1..])
  }

  // ---- A match reads only what it matches ----

  lemma WordIsLocal(w: Word, t: string, u: string, n: nat)
    requires WordAt(w, t) == Some(n) && SameUpTo(t, u, n)
    requires w.Identifier? ==> SameUpTo(t, u, n + 1)
    ensures WordAt(w, u) == Some(n)
  {
    match w
    case Literal(x) => assert u[..|x|] == x;
    case Identifier => SkipPrefix(t, u, 0, IsWord, n + 1);
  }

  lemma Shifted(t: string, u: string, s: nat, n: nat)
    requires s <= n && SameUpTo(t, u, n)
    ensures SameUpTo(t[s..], u[s..], n - s)
  {
  }

  /** The first piece of a match is not empty, starts with its word's first character, and the rest follows. */
  lemma RestStep(ps: seq<Piece>, t: string) returns (k: nat)
    requires Sane(ps) && ps != [] && RestAt(ps, t).Some?
    ensures PieceAt(ps[0], t) == Some(k) && 0 < k <= |t| && Sane(ps[1..]) && RestAt(ps[1..], t[k..]).Some?
    ensures RestAt(ps, t).value == k + RestAt(ps[1..], t[k..]).value
  {
    hide PieceAt, Skip;
    k := PieceAt(ps[0], t).value;
    PieceIsNotEmpty(ps, t);
  }

  lemma PieceIsNotEmpty(ps: seq<Piece>, t: string)
    requires Sane(ps) && ps != [] && PieceAt(ps[0], t).Some?
    ensures 0 < PieceAt(ps[0], t).value
  {
    hide RestAt;
  }

  lemma RestSteps(ps: seq<Piece>, t: string, k: nat)
    requires ps != [] && PieceAt(ps[0], t) == Some(k) && RestAt(ps[1..], t[k..]).Some?
    ensures RestAt(ps, t) == Some(k + RestAt(ps[1..], t[k..]).value)
  {
    hide PieceAt, Skip;
  }

  lemma NoPieces(t: string)
    ensures RestAt([], t) == Some(0)
  {
  }

  lemma TwoPieces(p: Piece, q: Piece, t: string, k: nat, m: nat)
    requires PieceAt(p, t) == Some(k) && PieceAt(q, t[k..]) == Some(m)
    ensures RestAt([p, q], t) == Some(k + m)
  {
    hide PieceAt, RestAt;
    NoPieces(t[k..][m..]);
    assert [p, q][1..] == [q] && [q][1..] == [];
    RestSteps([q], t[k..], m);
    RestSteps([p, q], t, k);
  }

  lemma TwoPiecesOf(p: Piece, q: Piece, t: string) returns (k: nat, m: nat)
    requires RestAt([p, q], t).Some?
    ensures PieceAt(p, t) == Some(k) && k <= |t| && PieceAt(q, t[k..]) == Some(m)
    ensures RestAt([p, q], t) == Some(k + m)
  {
    hide PieceAt;
    assert [p, q][1..] == [q] && [q][1..] == [];
    k := PieceAt(p, t).value;
    m := PieceAt(q, t[k..]).value;
    NoPieces(t[k..][m..]);
  }

  lemma PieceIsLocal(p: Piece, t: string, u: string, k: nat)
    requires PieceAt(p, t) == Some(k) && SameUpTo(t, u, k)
    requires match p.word case Literal(x) => Plain(x) case Identifier => SameUpTo(t, u, k + 1)
    ensures PieceAt(p, u) == Some(k)
  {
    var s := Skip(t, 0, IsSpace);
    if p.word.Identifier? {
      SkipPrefix(t, u, 0, IsSpace, k + 1);
      Shifted(t, u, s, k + 1);
    } else {
      assert t[s..][0] == t[s];
      SkipPrefix(t, u, 0, IsSpace, k);
      Shifted(t, u, s, k);
    }
    WordIsLocal(p.word, t[s..], u[s..], k - s);
  }

  lemma {:induction false} RestIsLocal(ps: seq<Piece>, t: string, u: string, n: nat)
    requires Sane(ps) && RestAt(ps, t) == Some(n) && SameUpTo(t, u, n)
    ensures RestAt(ps, u) == Some(n)
    decreases |ps|
  {
    hide PieceAt, RestAt, Sane;
    if ps == [] {
      NoPieces(t);
      NoPieces(u);
    } else {
      var k := RestStep(ps, t);
      IdentifierEnds(ps, t);
      PieceIsLocal(ps[0], t, u, k);
      Shifted(t, u, k, n);
      RestIsLocal(ps[1..], t[k..], u[k..], n - k);
      RestSteps(ps, u, k);
    }
  }

  /** An identifier is followed by a character of the match. */
  lemma IdentifierEnds(ps: seq<Piece>, t: string)
    requires Sane(ps) && ps != [] && RestAt(ps, t).Some?
    ensures PieceAt(ps[0], t).Some?
    ensures match ps[0].word
            case Literal(x) => Plain(x)
            case Identifier => PieceAt(ps[0], t).value < RestAt(ps, t).value
  {
    hide PieceAt, RestAt;
    var k := RestStep(ps, t);
    if ps[0].word.Identifier? {
      var m := RestStep(ps[1..], t[k..]);
    }
  }

  lemma AtIsLocal(p: Pattern, t: string, u: string, n: nat)
    requires Valid(p) && At(p, t) == Some(n) && SameUpTo(t, u, n)
    ensures At(p, u) == Some(n)
  {
    hide RestAt, Sane;
    var f := |p.first|;
    assert u[..f] == t[..f];
    Shifted(t, u, f, n);
    RestIsLocal(p.rest, t[f..], u[f..], n - f);
  }

  // ---- What a match is made of ----

  lemma {:induction false} RestUses(ps: seq<Piece>, t: string, i: nat)
    requires Sane(ps) && RestAt(ps, t).Some? && i < RestAt(ps, t).value
    ensures IsSpace(t[i]) || exists q :: q in ps && WordUses(q.word, t[i])
    decreases |ps|
  {
    hide PieceAt, RestAt, Sane;
    if ps == [] {
      NoPieces(t);
    } else {
      var n := RestStep(ps, t);
      if i < n {
        PieceUsed(ps[0], t, i);
        assert ps[0] in ps;
      } else {
        assert t[n..][i - n] == t[i];
        RestUses(ps[1..], t[n..], i - n);
        assert forall q :: q in ps[1..] ==> q in ps;
      }
    }
  }

  lemma PieceUsed(p: Piece, t: string, i: nat)
    requires PieceAt(p, t).Some? && i < PieceAt(p, t).value
    ensures IsSpace(t[i]) || WordUses(p.word, t[i])
  {
    var s := Skip(t, 0, IsSpace);
    if i >= s {
      assert t[s..][i - s] == t[i];
      WordUsed(p.word, t[s..], i - s);
    }
  }

  lemma WordUsed(w: Word, t: string, i: nat)
    requires WordAt(w, t).Some? && i < WordAt(w, t).value
    ensures WordUses(w, t[i])
  {
    if w.Literal? {
      assert t[i] == w.text[i];
    }
  }

  lemma AtUses(p: Pattern, t: string, i: nat)
    requires Valid(p) && At(p, t).Some? && i < At(p, t).value
    ensures (p.rest != [] && IsSpace(t[i])) || Uses(p, t[i])
  {
    var f := |p.first|;
    if i < f {
      assert t[i] == p.first[i];
    } else {
      assert t[f..][i - f] == t[i];
      RestUses(p.rest, t[f..], i - f);
    }
  }

  lemma {:induction false} RestLast(ps: seq<Piece>, t: string)
    requires Sane(ps) && ps != [] && RestAt(ps, t).Some?
    ensures 0 < RestAt(ps, t).value && t[RestAt(ps, t).value - 1] == LastOf(ps)
    decreases |ps|
  {
    hide RestAt, PieceAt;
    var n := RestStep(ps, t);
    if |ps| == 1 {
      assert ps[1..] == [];
      NoPieces(t[n..]);
      PieceEnds(ps[0], t);
    } else {
      RestLast(ps[1..], t[n..]);
      var m := RestAt(ps[1..], t[n..]).value;
      assert t[n..][m - 1] == t[n + m - 1];
    }
  }

  lemma PieceEnds(p: Piece, t: string)
    requires p.word.Literal? && Plain(p.word.text) && PieceAt(p, t).Some?
    ensures 0 < PieceAt(p, t).value && t[PieceAt(p, t).value - 1] == p.word.text[|p.word.text| - 1]
  {
    var s := Skip(t, 0, IsSpace);
    var n := |p.word.text|;
    assert t[s..][n - 1] == t[s + n - 1];
  }

  lemma AtEnds(p: Pattern, t: string)
    requires Valid(p) && At(p, t).Some?
    ensures |p.first| <= At(p, t).value && t[..|p.first|] == p.first && t[At(p, t).value - 1] == Last(p)
  {
    var f := |p.first|;
    if p.rest != [] {
      RestLast(p.rest, t[f..]);
      var m := RestAt(p.rest, t[f..]).value;
      assert t[f..][m - 1] == t[f + m - 1];
    }
  }

  // ---- Finding a pattern in parts of a text ----

  lemma FoundHere(p: Pattern, t: string, i: nat)
    requires i <= |t| && At(p, t[i..]).Some?
    ensures Found(p, t)
  {
  }

  /** What is found stays found inside a longer text. */
  lemma FoundWithin(p: Pattern, a: string, x: string, b: string)
    requires Valid(p) && Found(p, x)
    ensures Found(p, a + x + b)
  {
    hide At, Valid;
    var i :| 0 <= i <= |x| && At(p, x[i..]).Some?;
    var t := a + x + b;
    assert t[|a| + i..] == x[i..] + b;
    AtIsLocal(p, x[i..], x[i..] + b, At(p, x[i..]).value);
    assert x[i..] <= t[|a| + i..];
    FoundHere(p, t, |a| + i);
  }

  /** A match that ends within the first part is found there. */
  lemma FoundBefore(p: Pattern, x: string, y: string, i: nat)
    requires Valid(p) && i <= |x| && At(p, (x + y)[i..]).Some? && i + At(p, (x + y)[i..]).value <= |x|
    ensures Found(p, x)
  {
    hide At, Valid;
    var n := At(p, (x + y)[i..]).value;
    assert (x + y)[i..] == x[i..] + y;
    AtIsLocal(p, (x + y)[i..], x[i..], n);
    FoundHere(p, x, i);
  }

  /** No match contains this character. */
  predicate Never(p: Pattern, c: char) {
    !Uses(p, c) && (p.rest == [] || !IsSpace(c))
  }

  /** A character no match contains separates what comes before it from what comes after. */
  lemma FoundAcross(p: Pattern, a: string, c: char, b: string)
    requires Valid(p) && Never(p, c) && Found(p, a + [c] + b)
    ensures Found(p, a) || Found(p, b)
  {
    hide At, Valid, Uses;
    var t := a + [c] + b;
    var i :| 0 <= i <= |t| && At(p, t[i..]).Some?;
    var n := At(p, t[i..]).value;
    if i <= |a| {
      if i + n > |a| {
        assert t[i..][|a| - i] == c;
        AtUses(p, t[i..], |a| - i);
      } else {
        assert t == a + ([c] + b);
        FoundBefore(p, a, [c] + b, i);
      }
    } else {
      assert t[i..] == b[i - |a| - 1..];
      FoundHere(p, b, i - |a| - 1);
    }
  }

  lemma StartsWithFirst(p: Pattern, t: string)
    requires Valid(p) && At(p, t).Some?
    ensures t != "" && t[0] == p.first[0]
  {
    AtEnds(p, t);
    assert t[..|p.first|][0] == t[0];
  }

  /** Matches start with the first character of the pattern. */
  lemma FoundAfter(p: Pattern, y: string, x: string)
    requires Valid(p) && p.first[0] !in y && Found(p, y + x)
    ensures Found(p, x)
  {
    hide At;
    var t := y + x;
    var i :| 0 <= i <= |t| && At(p, t[i..]).Some?;
    if i < |y| {
      assert t[i..][0] == y[i];
      assert y[i] in y;
      StartsWithFirst(p, t[i..]);
    } else {
      assert t[i..] == x[i - |y|..];
      FoundHere(p, x, i - |y|);
    }
  }

  /** Matches end with the last character of the pattern. */
  lemma FoundUpTo(p: Pattern, x: string, y: string)
    requires Valid(p) && Last(p) !in y && Found(p, x + y)
    ensures Found(p, x)
  {
    hide At, Valid;
    var t := x + y;
    var i :| 0 <= i <= |t| && At(p, t[i..]).Some?;
    var n := At(p, t[i..]).value;
    AtEnds(p, t[i..]);
    FirstIsNotEmpty(p);
    assert t[i..][n - 1] == t[i + n - 1];
    assert forall k :: |x| <= k < |t| ==> t[k] in y;
    FoundBefore(p, x, y, i);
  }

  lemma FirstIsNotEmpty(p: Pattern)
    requires Valid(p)
    ensures 0 < |p.first|
  {
  }

  lemma FoundHas(p: Pattern, c: char, t: string)
    requires Valid(p) && c in p.first && Found(p, t)
    ensures c in t
  {
    hide At, Valid;
    var i :| 0 <= i <= |t| && At(p, t[i..]).Some?;
    AtEnds(p, t[i..]);
    var k :| 0 <= k < |p.first| && p.first[k] == c;
    assert t[i..][..|p.first|][k] == t[i + k];
  }

  /** A text without some character of the first word holds no match. */
  lemma NotFound(p: Pattern, c: char, t: string)
    requires Valid(p) && c in p.first && c !in t
    ensures !Found(p, t)
  {
    hide Found;
    if Found(p, t) {
      FoundHas(p, c, t);
    }
  }

  lemma TooShort(p: Pattern, t: string)
    requires |t| < |p.first|
    ensures !Found(p, t)
  {
  }
}
