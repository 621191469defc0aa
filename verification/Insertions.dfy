/** The two places where the patches insert text: behind the entrants array, and at the end of a description. */
module Insertions {
  import opened Wrappers
  import opened SolidityText
  import opened Patterns

  datatype Target = Anchor | Description

  const END := Piece(false, Literal(";"))
  /** `address\[\]\s+entrants\s*;` and the same with `public`. */
  const ENTRANTS := Pattern("address[]", [Piece(true, Literal("entrants")), END])
  const PUBLIC_ENTRANTS := Pattern("address[]", [Piece(true, Literal("public")), Piece(true, Literal("entrants")), END])

  /** `schema\.description\s*=\s*unicode"`. */
  const OPENING := Pattern("schema.description", [Piece(false, Literal("=")), Piece(false, Literal("unicode\""))])

  predicate NotQuote(c: char) {
    c != '"'
  }

  function AnchorAt(t: string): (r: Option<nat>)
    ensures r.Some? ==> r.value <= |t|
  {
    if At(ENTRANTS, t).Some? then At(ENTRANTS, t) else At(PUBLIC_ENTRANTS, t)
  }

  /** The offset of the closing quote of `schema\.description\s*=\s*unicode"[^"]*"`. */
  function DescriptionAt(t: string): (r: Option<nat>)
    ensures r.Some? ==> r.value < |t| && t[r.value] == '"'
  {
    var open := At(OPENING, t);
    if open.None? then None else
      var close := Skip(t, open.value, NotQuote);
      if close == |t| then None else Some(close)
  }

  /** Where to insert, if a match starts here. */
  function Locate(k: Target, t: string): (r: Option<nat>)
    ensures r.Some? ==> r.value <= |t|
  {
    match k
    case Anchor => AnchorAt(t)
    case Description => DescriptionAt(t)
  }

  /** Where the first match wants the insertion. */
  function First(k: Target, t: string): (r: Option<nat>)
    ensures r.Some? ==> r.value <= |t|
  {
    hide Locate;
    if t == "" then None
    else if Locate(k, t).Some? then Locate(k, t)
    else Behind(First(k, t[1..]), 1)
  }

  function Behind(r: Option<nat>, n: nat): Option<nat> {
    if r.None? then None else Some(n + r.value)
  }

  function Inserted(t: string, p: nat, text: string): string
    requires p <= |t|
  {
    t[..p] + text + t[p..]
  }

  /** `t.replace(pattern, ...)` with the text put at the place the pattern determines. */
  function InsertFirst(k: Target, t: string, text: string): string {
    if First(k, t).Some? then Inserted(t, First(k, t).value, text) else t
  }

  lemma ThreeAreSane(p: Piece, q: Piece)
    requires p.word.Literal? && Plain(p.word.text) && q.word.Literal? && Plain(q.word.text)
    ensures Sane([p, q]) && LastOf([p, q]) == q.word.text[|q.word.text| - 1]
  {
    assert [p, q][1..] == [q] && [q][1..] == [];
    assert Sane([]);
    assert Sane([q]);
  }

  lemma TargetsAreValid()
    ensures Valid(ENTRANTS) && Valid(PUBLIC_ENTRANTS) && Valid(OPENING)
    ensures Last(ENTRANTS) == ';' && Last(PUBLIC_ENTRANTS) == ';' && Last(OPENING) == '"'
  {
    ThreeAreSane(Piece(true, Literal("entrants")), END);
    ThreeAreSane(Piece(false, Literal("=")), Piece(false, Literal("unicode\"")));
    assert PUBLIC_ENTRANTS.rest[1..] == ENTRANTS.rest;
  }

  /** No match of either target contains these characters. */
  predicate Stops(c: char) {
    c == '{' || c == '}' || c == 'f'
  }

  lemma StopsTargets(c: char)
    requires Stops(c)
    ensures !Uses(ENTRANTS, c) && !Uses(PUBLIC_ENTRANTS, c) && !Uses(OPENING, c) && !IsSpace(c)
  {
    hide Uses;
    UsesTwo(ENTRANTS, Piece(true, Literal("entrants")), END, c);
    UsesTwo(OPENING, Piece(false, Literal("=")), Piece(false, Literal("unicode\"")), c);
    UsesThree(PUBLIC_ENTRANTS, Piece(true, Literal("public")), Piece(true, Literal("entrants")), END, c);
    NoStops(c);
  }

  lemma NoStops(c: char)
    requires Stops(c)
    ensures c !in "address[]" && c !in "entrants" && c !in "public" && c !in ";"
    ensures c !in "schema.description" && c !in "=" && c !in "unicode\""
  {
    if c == '{' {
      assert '{' !in "schema.description";
    } else if c == '}' {
      assert '}' !in "schema.description";
    } else {
      assert 'f' !in "schema.description";
    }
  }

  predicate Delimited(rest: string) {
    rest == "" || Stops(rest[0])
  }

  /** The words end in an array declaration that only lacks its semicolon. */
  ghost predicate EndsInAnchor(x: string) {
    exists i :: 0 <= i <= |x| && (EndsAt(ENTRANTS, x[i..]) || EndsAt(PUBLIC_ENTRANTS, x[i..]))
  }

  ghost predicate EndsAt(p: Pattern, x: string) {
    At(p, x + ";") == Some(|x| + 1)
  }

  /** Every description opened here is closed here, and a semicolon behind its words declares no array. */
  ghost predicate Quoted(x: string) {
    forall i :: 0 <= i <= |x| && At(OPENING, x[i..]).Some? ==> Closes(x[i..])
  }

  ghost predicate Closes(t: string)
    requires At(OPENING, t).Some?
  {
    DescriptionAt(t).Some? && At(OPENING, t).value <= DescriptionAt(t).value
    && !EndsInAnchor(t[At(OPENING, t).value..DescriptionAt(t).value])
  }

  /** A match that cannot contain the next character is the same without what follows. */
  lemma AtInContext(p: Pattern, x: string, rest: string)
    requires Valid(p) && (rest == "" || (!Uses(p, rest[0]) && !IsSpace(rest[0])))
    ensures At(p, x + rest) == At(p, x)
  {
    hide At, Valid, Uses;
    if At(p, x + rest).Some? {
      var n := At(p, x + rest).value;
      if n > |x| {
        assert (x + rest)[|x|] == rest[0];
        AtUses(p, x + rest, |x|);
      } else {
        AtIsLocal(p, x + rest, x, n);
      }
    } else if At(p, x).Some? {
      AtIsLocal(p, x, x + rest, At(p, x).value);
    }
  }

  /** What follows a text is no part of a match that starts in it. */
  ghost predicate Separate(x: string, rest: string) {
    forall i :: 0 <= i <= |x| ==>
                  && At(ENTRANTS, x[i..] + rest) == At(ENTRANTS, x[i..])
                  && At(PUBLIC_ENTRANTS, x[i..] + rest) == At(PUBLIC_ENTRANTS, x[i..])
                  && At(OPENING, x[i..] + rest) == At(OPENING, x[i..])
  }

  lemma DelimitedIsSeparate(x: string, rest: string)
    requires Delimited(rest)
    ensures Separate(x, rest)
  {
    hide At;
    TargetsAreValid();
    if rest != "" {
      StopsTargets(rest[0]);
    }
    forall i | 0 <= i <= |x|
      ensures At(ENTRANTS, x[i..] + rest) == At(ENTRANTS, x[i..])
      ensures At(PUBLIC_ENTRANTS, x[i..] + rest) == At(PUBLIC_ENTRANTS, x[i..])
      ensures At(OPENING, x[i..] + rest) == At(OPENING, x[i..])
    {
      AtInContext(ENTRANTS, x[i..], rest);
      AtInContext(PUBLIC_ENTRANTS, x[i..], rest);
      AtInContext(OPENING, x[i..], rest);
    }
  }

  lemma LocateInContext(k: Target, x: string, rest: string)
    requires Quoted(x) && Separate(x, rest)
    ensures Locate(k, x + rest) == Locate(k, x)
  {
    hide At;
    assert x[0..] == x;
    if At(OPENING, x).Some? {
      SkipPrefix(x, x + rest, At(OPENING, x).value, NotQuote, |x|);
    }
  }

  lemma SeparateSuffix(x: string, rest: string)
    requires x != "" && Separate(x, rest)
    ensures Separate(x[1..], rest)
  {
    hide At;
    assert forall i :: 0 <= i <= |x[1..]| ==> x[1..][i..] == x[i + 1..];
  }

  lemma QuotedSuffix(x: string, n: nat)
    requires n <= |x| && Quoted(x)
    ensures Quoted(x[n..])
  {
    hide At, Closes;
    forall i | 0 <= i <= |x[n..]| && At(OPENING, x[n..][i..]).Some?
      ensures Closes(x[n..][i..])
    {
      assert x[n..][i..] == x[n + i..];
    }
  }

  /** The first match of a text is in its first part, or it is the first of the rest. */
  lemma {:induction false} FirstInContext(k: Target, x: string, rest: string)
    requires Quoted(x) && Separate(x, rest)
    ensures First(k, x + rest) == if First(k, x).Some? then First(k, x) else Behind(First(k, rest), |x|)
  {
    hide Locate, Quoted, Separate;
    if x == "" {
      assert x + rest == rest;
    } else {
      LocateInContext(k, x, rest);
      QuotedSuffix(x, 1);
      SeparateSuffix(x, rest);
      assert (x + rest)[1..] == x[1..] + rest;
      FirstInContext(k, x[1..], rest);
    }
  }

  lemma InsertInContext(k: Target, x: string, rest: string, text: string)
    requires Quoted(x) && Separate(x, rest)
    ensures InsertFirst(k, x + rest, text)
            == if First(k, x).Some? then InsertFirst(k, x, text) + rest else x + InsertFirst(k, rest, text)
  {
    hide First, Quoted, Separate;
    FirstInContext(k, x, rest);
    if First(k, x).Some? {
      InsertEarly(x, rest, First(k, x).value, text);
    } else if First(k, rest).Some? {
      InsertLate(x, rest, First(k, rest).value, text);
    }
  }

  lemma InsertEarly(x: string, rest: string, p: nat, text: string)
    requires p <= |x|
    ensures Inserted(x + rest, p, text) == Inserted(x, p, text) + rest
  {
  }

  lemma InsertLate(x: string, rest: string, p: nat, text: string)
    requires p <= |rest|
    ensures Inserted(x + rest, |x| + p, text) == x + Inserted(rest, p, text)
  {
  }
}
