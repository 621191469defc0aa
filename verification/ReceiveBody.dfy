/** The `receive()` body the ledger scanner reads, and when a body replacement leaves it alone. */
module ReceiveBody {
  import opened Wrappers
  import opened SolidityText
  import opened FunctionBodies
  import opened SourceEditing
  import opened SourceLoops
  import opened SourcePatches

  const RECEIVE := "receive"

  /** The length of a match of `receive\s*\(\s*\)[^{]*\{` at the start of a text. */
  function ReceiveAt(t: string): (r: Option<nat>)
    ensures r.Some? ==> 0 < r.value <= |t| && t[r.value - 1] == '{'
  {
    if !(RECEIVE <= t) then None else
      var open := Skip(t, |RECEIVE|, IsSpace);
      if open == |t| || t[open] != '(' then None else
        var close := Skip(t, open + 1, IsSpace);
        if close == |t| || t[close] != ')' then None else
          var brace := Skip(t, close + 1, NotOpeningBrace);
          if brace == |t| then None else Some(brace + 1)
  }

  /** The first match. */
  function ReceivePos(t: string): (r: Option<nat>)
    ensures r.Some? ==> r.value < |t| && ReceiveAt(t[r.value..]).Some?
    decreases |t|
  {
    hide ReceiveAt;
    if t == "" then None
    else if ReceiveAt(t).Some? then Some(0)
    else
      var rest := ReceivePos(t[1..]);
      if rest.None? then None else
        DropDrop(t, 1, rest.value);
        Some(1 + rest.value)
  }

  function ReceiveStart(t: string): (r: nat)
    requires ReceivePos(t).Some?
    ensures ReceivePos(t).value < r <= |t|
  {
    ReceivePos(t).value + ReceiveAt(t[ReceivePos(t).value..]).value
  }

  /** `""` when there is no match. */
  function ReceiveBody(t: string): string {
    if ReceivePos(t).None? then "" else BodyOf(t[ReceiveStart(t)..])
  }

  /** Find the first match, then count braces to the end of the body. */
  method ReadReceiveBody(source: string) returns (body: string)
    ensures body == ReceiveBody(source)
  {
    hide ReceiveAt, ReceivePos, Walk;
    var at := 0;
    while at < |source| && ReceiveAt(source[at..]).None?
      invariant at <= |source| && ReceivePos(source) == Behind(ReceivePos(source[at..]), at)
    {
      SearchStep(source[at..]);
      assert source[at..][1..] == source[at + 1..];
      at := at + 1;
    }
    if at == |source| {
      assert ReceivePos(source[at..]) == None;
      return "";
    }
    SearchStep(source[at..]);
    var start := at + ReceiveAt(source[at..]).value;
    var end := WalkBody(source, start);
    body := if start == |source| then "" else source[start..end - 1];
    assert start < |source| ==> source[start..end - 1] == source[start..][..end - 1 - start];
  }

  // ---- A match reads only up to its brace ----

  lemma FirstBrace(t: string)
    requires ReceiveAt(t).Some?
    ensures forall k :: 0 <= k < ReceiveAt(t).value - 1 ==> t[k] != '{'
  {
    assert forall k :: 0 <= k < |RECEIVE| ==> t[k] == RECEIVE[k] && RECEIVE[k] != '{';
  }

  lemma ReceiveIsLocal(t: string, u: string)
    requires ReceiveAt(t).Some? && SameUpTo(t, u, ReceiveAt(t).value)
    ensures ReceiveAt(u) == ReceiveAt(t)
  {
    hide Skip;
    var n := ReceiveAt(t).value;
    var open := Skip(t, |RECEIVE|, IsSpace);
    var close := Skip(t, open + 1, IsSpace);
    SkipPrefix(t, u, |RECEIVE|, IsSpace, n);
    SkipPrefix(t, u, open + 1, IsSpace, n);
    SkipPrefix(t, u, close + 1, NotOpeningBrace, n);
    assert forall k :: 0 <= k < |RECEIVE| ==> t[k] == RECEIVE[k];
  }

  /** Text up to an opening brace decides which matches start before it. */
  lemma BraceDecides(t: string, u: string, n: nat)
    requires 0 < n && SameUpTo(t, u, n) && t[n - 1] == '{'
    ensures ReceiveAt(u) == ReceiveAt(t) && (ReceiveAt(t).Some? ==> ReceiveAt(t).value <= n)
  {
    hide ReceiveAt;
    if ReceiveAt(t).Some? {
      FirstBrace(t);
      ReceiveIsLocal(t, u);
    } else if ReceiveAt(u).Some? {
      FirstBrace(u);
      ReceiveIsLocal(u, t);
    }
  }

  /** A match that starts before the brace is found in both texts. */
  lemma {:induction false} FoundBefore(t: string, u: string, n: nat)
    requires 0 < n && SameUpTo(t, u, n) && t[n - 1] == '{'
    requires ReceivePos(t).Some? && ReceivePos(t).value < n
    ensures ReceivePos(u) == ReceivePos(t) && ReceiveStart(t) <= n && ReceiveStart(u) == ReceiveStart(t)
  {
    hide ReceiveAt, ReceivePos;
    BraceDecides(t, u, n);
    SearchStep(t);
    SearchStep(u);
    if ReceiveAt(t).Some? {
      assert t[0..] == t && u[0..] == u;
    } else {
      var r := ReceivePos(t[1..]).value;
      assert t[1..][r..] == t[1 + r..];
      FoundBefore(t[1..], u[1..], n - 1);
      assert u[1..][r..] == u[1 + r..];
    }
  }

  function Behind(r: Option<nat>, n: nat): Option<nat> {
    if r.None? then None else Some(n + r.value)
  }

  lemma SearchStep(t: string)
    requires t != ""
    ensures ReceivePos(t) == if ReceiveAt(t).Some? then Some(0) else Behind(ReceivePos(t[1..]), 1)
  {
    hide ReceiveAt;
  }

  lemma {:induction false} FoundBehind(t: string, n: nat)
    requires n <= |t|
    requires ReceivePos(t).None? || ReceivePos(t).value >= n
    ensures ReceivePos(t) == Behind(ReceivePos(t[n..]), n)
  {
    hide ReceiveAt, ReceivePos;
    if n == 0 {
      assert t[0..] == t;
    } else {
      SearchStep(t);
      FoundBehind(t[1..], n - 1);
      assert t[1..][n - 1..] == t[n..];
    }
  }

  /** No head of `receive()` starts in a body in front of this text. */
  ghost predicate NoReceiveIn(b: string, rest: string) {
    forall i :: 0 <= i < |b| ==> ReceiveAt(b[i..] + rest).None?
  }

  lemma {:induction false} SearchPastBody(b: string, rest: string)
    requires NoReceiveIn(b, rest)
    ensures ReceivePos(b + rest) == Behind(ReceivePos(rest), |b|)
    decreases |b|
  {
    hide ReceiveAt, ReceivePos;
    if b == "" {
      assert b + rest == rest;
    } else {
      assert b[0..] == b;
      SearchStep(b + rest);
      assert (b + rest)[1..] == b[1..] + rest;
      assert NoReceiveIn(b[1..], rest) by {
        assert forall i :: 0 <= i < |b[1..]| ==> b[1..][i..] == b[1 + i..];
      }
      SearchPastBody(b[1..], rest);
    }
  }

  // ---- Replacing a body ----

  /** The replaced body lies inside the text the scanner reads as the body of `receive()`. */
  predicate Encloses(t: string, start: nat)
    requires start <= |t|
  {
    ReceivePos(t).Some? && ReceiveStart(t) <= start < ReceiveStart(t) + Walk(t[ReceiveStart(t)..], 1)
  }

  lemma {:induction false} AfterDeeper(b: string, depth: nat, more: nat)
    requires depth > 0 && After(b, depth).Some?
    ensures After(b, depth + more) == Some(After(b, depth).value + more)
  {
    if b != "" {
      AfterDeeper(b[1..], Nested(b[0], depth), more);
    }
  }

  /** Text the walk has passed leaves a positive depth, and the walk continues from there. */
  lemma {:induction false} WalkSplits(a: string, b: string, depth: nat) returns (left: nat)
    requires depth > 0 && Walk(a + b, depth) > |a|
    ensures After(a, depth) == Some(left) && left > 0
  {
    left := depth;
    if a != "" {
      assert (a + b)[1..] == a[1..] + b;
      left := WalkSplits(a[1..], b, Nested(a[0], depth));
    }
  }

  /** A walk that stops before the edit does not see it. */
  lemma WalkStopsEarly(a: string, b: string, c: string)
    requires Walk(a + b, 1) <= |a| && b != ""
    ensures BodyOf(a + c) == BodyOf(a + b)
  {
    StopsIn(a, b, 1);
    WalkIsLocal(a + b, a + c, 1, |a|);
    if a != "" {
      assert (a + b)[..Walk(a + b, 1) - 1] == (a + c)[..Walk(a + b, 1) - 1];
    }
  }

  lemma {:induction false} StopsIn(a: string, b: string, depth: nat)
    requires Walk(a + b, depth) <= |a| && b != "" && depth > 0
    ensures Closed(a + b, depth)
  {
    if a == "" {
      assert false;
    } else {
      assert (a + b)[1..] == a[1..] + b;
      if Nested(a[0], depth) > 0 {
        StopsIn(a[1..], b, Nested(a[0], depth));
      }
    }
  }

  /** An enclosed body is part of what the scanner reads. */
  lemma EnclosedText(a: string, was: string, body: string, rest: string)
    requires Balanced(was) && Balanced(body) && rest != "" && Walk(a + (was + rest), 1) > |a|
    ensures BodyOf(a + (body + rest)) == BodyOf(a + (was + rest)) <==> body == was
  {
    hide Walk, After;
    var depth := WalkSplits(a, was + rest, 1);
    AroundBody(a, was, rest, depth);
    AroundBody(a, body, rest, depth);
    var end := rest[..Walk(rest, depth) - 1];
    SameMiddle(a, body, was, end);
  }

  lemma AroundBody(a: string, body: string, rest: string, depth: nat)
    requires depth > 0 && After(a, 1) == Some(depth) && Balanced(body) && rest != ""
    ensures 0 < Walk(rest, depth) <= |rest|
    ensures BodyOf(a + (body + rest)) == a + body + rest[..Walk(rest, depth) - 1]
  {
    hide Walk, After;
    var t := a + (body + rest);
    WalkPast(a, body + rest, 1, depth);
    AfterDeeper(body, 1, depth - 1);
    WalkPast(body, rest, depth, depth);
    var w := Walk(rest, depth);
    assert 0 < w by { WalkPositive(rest, depth); }
    assert t[..Walk(t, 1) - 1] == a + body + rest[..w - 1];
  }

  lemma WalkPositive(t: string, depth: nat)
    requires t != "" && depth > 0
    ensures Walk(t, depth) > 0
  {
  }

  /** The parts of a text around a closed body; what follows starts with the closing brace. */
  lemma SplitAtBody(t: string, start: nat)
    requires 0 < start <= |t| && Closed(t[start..], 1)
    ensures start < |t| && FromClose(t, start) != "" && FromClose(t, start)[0] == '}'
    ensures t == t[..start] + (BodyOf(t[start..]) + FromClose(t, start)) && Balanced(BodyOf(t[start..]))
  {
    hide Walk;
    NotEmpty(t[start..]);
    OwnText(t, start);
    ClosedBody(t[start..], 1);
    EndsInBrace(t[start..], 1);
    assert t[start + Walk(t[start..], 1) - 1] == t[start..][Walk(t[start..], 1) - 1];
  }

  lemma {:induction false} EndsInBrace(t: string, depth: nat)
    requires depth > 0 && Closed(t, depth)
    ensures 0 < Walk(t, depth) <= |t| && t[Walk(t, depth) - 1] == '}'
  {
    if Nested(t[0], depth) > 0 {
      EndsInBrace(t[1..], Nested(t[0], depth));
    }
  }

  /**
   * Replacing a closed body by a balanced one, where no head of `receive()` starts in either, leaves the scanned
   * `receive()` body alone exactly when it does not enclose the replaced one or nothing is replaced.
   */
  lemma ReceiveKeptIff(t: string, name: string, body: string)
    requires NamePos(t, name).Some? && Balanced(body) && NoReceiveIn(body, Following(t, name))
    requires Closed(t[BodyStart(t, NamePos(t, name).value)..], 1)
    requires NoReceiveIn(BodyAt(t, NamePos(t, name).value), Following(t, name))
    ensures var o := NamePos(t, name).value;
            ReceiveBody(ReplaceFunctionBody(t, name, body)) == ReceiveBody(t)
            <==> !Encloses(t, BodyStart(t, o)) || body == BodyAt(t, o)
  {
    hide HeaderAt, NamePos, ReplaceFunctionBody, Closed, ReceivePos, ReceiveBody, Walk, NoReceiveIn, Balanced;
    var o := NamePos(t, name).value;
    var start := BodyStart(t, o);
    var was, rest := BodyAt(t, o), FromClose(t, start);
    ReplaceAt(t, name, body);
    SplitAtBody(t, start);
    HeaderEndsInBrace(t[o..]);
    assert t[start - 1] == t[o..][HeaderAt(t[o..]).value.length - 1];
    assert Spliced(t, o, body) == t[..start] + (body + rest);
    SplicedReceive(t[..start], was, body, rest);
  }

  lemma HeaderEndsInBrace(t: string)
    requires HeaderAt(t).Some?
    ensures t[HeaderAt(t).value.length - 1] == '{'
  {
    HeaderHasShape(t);
  }

  lemma SplicedReceive(p: string, was: string, body: string, rest: string)
    requires p != "" && p[|p| - 1] == '{' && rest != "" && rest[0] == '}'
    requires NoReceiveIn(was, rest) && NoReceiveIn(body, rest) && Balanced(was) && Balanced(body)
    ensures ReceiveBody(p + (body + rest)) == ReceiveBody(p + (was + rest))
            <==> !Encloses(p + (was + rest), |p|) || body == was
  {
    hide ReceivePos, Walk, NoReceiveIn, Balanced, ReceiveAt, BodyOf;
    var t, u := p + (was + rest), p + (body + rest);
    var n := |p|;
    if ReceivePos(t).Some? && ReceivePos(t).value < n {
      FoundBefore(t, u, n);
      var s := ReceiveStart(t);
      var a := p[s..];
      assert t[s..] == a + (was + rest) && u[s..] == a + (body + rest);
      if Walk(t[s..], 1) <= |a| {
        WalkStopsEarly(a, was + rest, body + rest);
      } else {
        EnclosedText(a, was, body, rest);
      }
    } else {
      if ReceivePos(u).Some? && ReceivePos(u).value < n {
        FoundBefore(u, t, n);
      }
      FoundInRest(p, was, rest);
      FoundInRest(p, body, rest);
    }
  }

  /** With no match before the body and none in it, the search finds what it finds behind the body. */
  lemma FoundInRest(p: string, body: string, rest: string)
    requires NoReceiveIn(body, rest)
    requires var t := p + (body + rest); ReceivePos(t).None? || ReceivePos(t).value >= |p|
    ensures var t := p + (body + rest);
            && ReceivePos(t) == Behind(ReceivePos(rest), |p| + |body|)
            && ReceiveBody(t) == ReceiveBody(rest)
            && !Encloses(t, |p|)
  {
    hide ReceivePos, Walk, NoReceiveIn, ReceiveAt, BodyOf;
    var t := p + (body + rest);
    FoundBehind(t, |p|);
    assert t[|p|..] == body + rest;
    SearchPastBody(body, rest);
    if ReceivePos(rest).Some? {
      var r := ReceivePos(rest).value;
      assert t[|p| + |body| + r..] == rest[r..];
      assert t[ReceiveStart(t)..] == rest[ReceiveStart(rest)..];
    }
  }

  // ---- A declaration without a body exposes receive() ----

  const EXPOSED := "function e();receive(){}"

  lemma {:induction false} FoundAtLatest(t: string, n: nat)
    requires n < |t| && ReceiveAt(t[n..]).Some?
    ensures ReceivePos(t).Some? && ReceivePos(t).value <= n
  {
    hide ReceiveAt, ReceivePos;
    SearchStep(t);
    if n == 0 {
      assert t[0..] == t;
    } else if ReceiveAt(t).None? {
      assert t[1..][n - 1..] == t[n..];
      FoundAtLatest(t[1..], n - 1);
    }
  }

  lemma ExposedHeader()
    ensures NamePos(EXPOSED, "e") == Some(0) && BodyStart(EXPOSED, 0) == 23
  {
    hide HeaderAt;
    ExposedMatch();
    assert EXPOSED[0..] == EXPOSED;
  }

  lemma ExposedMatch()
    ensures HeaderAt(EXPOSED) == Some(Header("e", 10, 11, 23))
  {
    hide Skip, HeaderAt;
    var t := EXPOSED;
    SkipIs(t, 8, IsSpace, 9);
    SkipIs(t, 9, IsWord, 10);
    SkipIs(t, 10, IsSpace, 10);
    SkipIs(t, 11, NotClosing, 11);
    SkipIs(t, 12, NotOpeningBrace, 22);
    ScannedIsMatch(t, 9, 10, Header("e", 10, 11, 23));
  }

  lemma ExposedReceiveMatch()
    ensures ReceiveAt(EXPOSED[13..]) == Some(10)
  {
    hide Skip;
    var t := EXPOSED[13..];
    assert t == "receive(){}";
    SkipIs(t, 7, IsSpace, 7);
    SkipIs(t, 8, IsSpace, 8);
    SkipIs(t, 9, NotOpeningBrace, 9);
  }

  lemma ExposedReceive()
    ensures ReceivePos(EXPOSED).Some? && ReceiveStart(EXPOSED) == 23
  {
    hide ReceivePos, ReceiveAt;
    ExposedReceiveMatch();
    FoundAtLatest(EXPOSED, 13);
    var r := ReceivePos(EXPOSED).value;
    var n := ReceiveAt(EXPOSED[r..]).value;
    OnlyBrace(r, n - 1);
  }

  lemma OnlyBrace(r: nat, k: nat)
    requires r + k < |EXPOSED| && EXPOSED[r..][k] == '{'
    ensures r + k == 22
  {
    assert EXPOSED[r..][k] == EXPOSED[r + k];
  }

  /** Editing the function declared before it rewrites the body of `receive()` in this text. */
  lemma BodilessHeaderExposesReceive()
    ensures NamePos(EXPOSED, "e").Some? && Encloses(EXPOSED, BodyStart(EXPOSED, NamePos(EXPOSED, "e").value))
    ensures ReceiveBody(ReplaceFunctionBody(EXPOSED, "e", "r")) != ReceiveBody(EXPOSED)
  {
    hide HeaderAt, NamePos, ReplaceFunctionBody, ReceivePos, ReceiveBody;
    ExposedHeader();
    ExposedReceive();
    ExposedBody();
    ReceiveKeptIff(EXPOSED, "e", "r");
  }

  lemma ExposedBody()
    requires HeaderAt(EXPOSED[0..]).Some? && BodyStart(EXPOSED, 0) == 23
    ensures Closed(EXPOSED[23..], 1) && Walk(EXPOSED[23..], 1) == 1 && BodyAt(EXPOSED, 0) == ""
    ensures FromClose(EXPOSED, 23) == "}" && NoReceiveIn("", "}") && NoReceiveIn("r", "}") && Balanced("r")
  {
    hide HeaderAt;
    assert EXPOSED[23..] == "}" && "}"[1..] == "" && "r"[1..] == "";
    assert After("", 1) == Some(1);
    assert "r"[0..] + "}" == "r}";
  }
}
