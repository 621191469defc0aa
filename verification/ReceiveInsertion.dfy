/** What inserting text without braces does to the body of `receive()`: it grows, or nothing happens. */
module ReceiveInsertion {
  import opened Wrappers
  import opened SolidityText
  import opened FunctionBodies
  import opened SourceEditing
  import opened SourcePatches
  import opened R = ReceiveBody

  /** No head of `receive()` reaches from the text in front into what follows. */
  predicate Stopped(a: string, rest: string) {
    (a != "" && a[|a| - 1] == ';') || (rest != "" && (rest[0] == ';' || rest[0] == '"'))
  }

  /** The inserted text holds no brace, heads stop in front of it before and after, and none starts in it. */
  ghost predicate Quiet(a: string, y: string, b: string) {
    y != "" && NoBraces(y) && Stopped(a, b) && Stopped(a, y + b) && NoReceiveIn(y, b)
  }

  // ---- One match ----

  /** A match is a head without semicolon and quote, and the first brace behind it. */
  lemma HeadOf(t: string) returns (open: nat, close: nat)
    requires ReceiveAt(t).Some?
    ensures 7 <= open < close < |t| && RECEIVE <= t
    ensures open == Skip(t, |RECEIVE|, IsSpace) && t[open] == '('
    ensures close == Skip(t, open + 1, IsSpace) && t[close] == ')'
    ensures Skip(t, close + 1, NotOpeningBrace) < |t|
    ensures ReceiveAt(t) == Some(Skip(t, close + 1, NotOpeningBrace) + 1)
    ensures forall k :: 0 <= k <= close ==> t[k] != ';' && t[k] != '"'
  {
    hide Skip;
    open := Skip(t, |RECEIVE|, IsSpace);
    close := Skip(t, open + 1, IsSpace);
    assert forall k :: 0 <= k < |RECEIVE| ==> t[k] == RECEIVE[k] && RECEIVE[k] != ';' && RECEIVE[k] != '"';
    assert forall k :: |RECEIVE| <= k < open ==> IsSpace(t[k]);
    assert forall k :: open < k < close ==> IsSpace(t[k]);
  }

  lemma MatchFrom(t: string, open: nat, close: nat)
    requires RECEIVE <= t && open == Skip(t, |RECEIVE|, IsSpace) && open < |t| && t[open] == '('
    requires close == Skip(t, open + 1, IsSpace) && close < |t| && t[close] == ')'
    ensures ReceiveAt(t) == var brace := Skip(t, close + 1, NotOpeningBrace);
                            if brace == |t| then None else Some(brace + 1)
  {
    hide Skip;
  }

  lemma StopsHead(a: string, rest: string, close: nat)
    requires Stopped(a, rest) && close < |a + rest|
    requires forall k :: 0 <= k <= close ==> (a + rest)[k] != ';' && (a + rest)[k] != '"'
    ensures close < |a|
  {
    assert a != "" ==> (a + rest)[|a| - 1] == a[|a| - 1];
    assert rest != "" ==> (a + rest)[|a|] == rest[0];
  }

  lemma SameHead(t: string, u: string, open: nat, close: nat, n: nat)
    requires SameUpTo(t, u, n) && close < n && open < close && RECEIVE <= t && |RECEIVE| <= open
    requires open == Skip(t, |RECEIVE|, IsSpace) && t[open] == '(' && close == Skip(t, open + 1, IsSpace)
    requires t[close] == ')'
    ensures RECEIVE <= u && open == Skip(u, |RECEIVE|, IsSpace) && u[open] == '('
    ensures close == Skip(u, open + 1, IsSpace) && u[close] == ')'
  {
    SkipPrefix(t, u, |RECEIVE|, IsSpace, n);
    SkipPrefix(t, u, open + 1, IsSpace, n);
    assert forall k :: 0 <= k < |RECEIVE| ==> t[k] == RECEIVE[k];
    hide Skip;
    assert u[..|RECEIVE|] == RECEIVE;
  }

  function Moved(r: Option<nat>, n: nat, more: nat): Option<nat> {
    if r.None? || r.value <= n then r else Some(r.value + more)
  }

  /** The first brace from a place in front of an insertion. */
  lemma BraceOver(a: string, y: string, b: string, i: nat)
    requires NoBraces(y) && i <= |a|
    ensures var p, q := Skip(a + b, i, NotOpeningBrace), Skip(a + y + b, i, NotOpeningBrace);
            q == if p < |a| then p else p + |y|
  {
    var t, u := a + b, a + y + b;
    var p := Skip(t, i, NotOpeningBrace);
    if p < |a| {
      SkipPrefix(t, u, i, NotOpeningBrace, |a|);
    } else {
      hide Skip;
      assert forall k :: i <= k < |a| ==> u[k] == t[k] && NotOpeningBrace(t[k]);
      assert forall k :: |a| <= k < |a| + |y| ==> u[k] == y[k - |a|] && y[k - |a|] in y;
      assert forall k :: |a| + |y| <= k < p + |y| ==> u[k] == t[k - |y|] && NotOpeningBrace(t[k - |y|]);
      assert p < |t| ==> u[p + |y|] == t[p];
      SkipIs(u, i, NotOpeningBrace, p + |y|);
    }
  }

  lemma MatchOver(a: string, y: string, b: string)
    requires NoBraces(y) && Stopped(a, b) && Stopped(a, y + b)
    ensures ReceiveAt(a + y + b) == Moved(ReceiveAt(a + b), |a|, |y|)
  {
    hide ReceiveAt, Skip, Stopped;
    var t, u := a + b, a + y + b;
    assert u == a + (y + b);
    if ReceiveAt(t).Some? {
      var open, close := HeadOf(t);
      StopsHead(a, b, close);
      SameHead(t, u, open, close, |a|);
      MatchFrom(u, open, close);
      BraceOver(a, y, b, close + 1);
    } else if ReceiveAt(u).Some? {
      var open, close := HeadOf(u);
      StopsHead(a, y + b, close);
      SameHead(u, t, open, close, |a|);
      MatchFrom(t, open, close);
      BraceOver(a, y, b, close + 1);
    }
  }

  // ---- The first match ----

  lemma StartOver(a: string, y: string, b: string)
    requires a != "" && NoBraces(y) && Stopped(a, b) && Stopped(a, y + b)
    ensures ReceiveAt(a + y + b).Some? <==> ReceiveAt(a + b).Some?
    ensures (a + b)[1..] == a[1..] + b && (a + y + b)[1..] == a[1..] + y + b
  {
    hide ReceiveAt, Stopped, NoBraces;
    MatchOver(a, y, b);
  }

  lemma StoppedBehind(a: string, rest: string, n: nat)
    requires n < |a| && Stopped(a, rest)
    ensures Stopped(a[n..], rest)
  {
  }

  function Shifted(r: Option<nat>, n: nat, more: nat): Option<nat> {
    if r.None? || r.value < n then r else Some(r.value + more)
  }

  lemma ShiftedBehind(r: Option<nat>, n: nat, more: nat)
    ensures Shifted(Behind(r, 1), n + 1, more) == Behind(Shifted(r, n, more), 1)
    ensures Shifted(Some(0), n + 1, more) == Some(0) && Shifted(r, 0, more) == Behind(r, more)
  {
  }

  /** A first match in front of the insertion stays, a later one moves. */
  lemma {:induction false} PosOver(a: string, y: string, b: string)
    requires NoBraces(y) && NoReceiveIn(y, b) && (a != "" ==> Stopped(a, b) && Stopped(a, y + b))
    ensures ReceivePos(a + y + b) == Shifted(ReceivePos(a + b), |a|, |y|)
  {
    hide ReceiveAt, ReceivePos, NoReceiveIn, Stopped, NoBraces, Shifted, Behind;
    var t, u := a + b, a + y + b;
    if a == "" {
      assert t == b && u == y + b;
      SearchPastBody(y, b);
      ShiftedBehind(ReceivePos(b), 0, |y|);
    } else {
      ShiftedBehind(ReceivePos(a[1..] + b), |a| - 1, |y|);
      StartOver(a, y, b);
      if a[1..] != "" {
        StoppedBehind(a, b, 1);
        StoppedBehind(a, y + b, 1);
      }
      SearchStep(t);
      SearchStep(u);
      PosOver(a[1..], y, b);
    }
  }

  // ---- The body ----

  lemma {:induction false} ClosedOver(a: string, b: string, depth: nat)
    requires depth > 0 && After(a, depth).Some?
    ensures After(a, depth).value > 0 && (Closed(a + b, depth) <==> Closed(b, After(a, depth).value))
  {
    if a == "" {
      assert a + b == b;
    } else {
      assert (a + b)[1..] == a[1..] + b;
      ClosedOver(a[1..], b, Nested(a[0], depth));
    }
  }

  lemma {:induction false} ClosedLonger(t: string, u: string, depth: nat)
    requires Closed(t, depth) && t <= u
    ensures Closed(u, depth) && Walk(u, depth) == Walk(t, depth) <= |t|
  {
    if depth > 0 {
      assert t[1..] <= u[1..] by { assert u[1..][..|t| - 1] == t[1..]; }
      ClosedLonger(t[1..], u[1..], Nested(t[0], depth));
    }
  }

  /** An insertion inside a body makes it longer, one behind it changes nothing. */
  lemma BodyOver(a: string, y: string, b: string)
    requires NoBraces(y) && Closed(a + b, 1)
    ensures Closed(a + (y + b), 1)
    ensures Walk(a + b, 1) <= |a| ==> BodyOf(a + (y + b)) == BodyOf(a + b)
    ensures Walk(a + b, 1) > |a| ==> |BodyOf(a + (y + b))| == |BodyOf(a + b)| + |y|
  {
    hide Walk, After, Closed;
    var w := Walk(a + b, 1);
    if w <= |a| {
      ClosedInside(a, b);
      ClosedLonger(a, a + b, 1);
      ClosedLonger(a, a + (y + b), 1);
      WalkPositive(a + b, 1);
      if a + b != "" {
        assert (a + b)[..w - 1] == (a + (y + b))[..w - 1];
      }
    } else {
      BodyAround(a, y, b);
    }
  }

  lemma ClosedInside(a: string, b: string)
    requires Closed(a + b, 1) && Walk(a + b, 1) <= |a|
    ensures Closed(a, 1) && a != ""
  {
    hide Walk, Closed;
    CutClosed(a, b, 1);
    assert Closed("", 1) ==> false by { NothingClosed(); }
  }

  lemma NothingClosed()
    ensures !Closed("", 1)
  {
  }

  lemma {:induction false} CutClosed(a: string, b: string, depth: nat)
    requires Closed(a + b, depth) && Walk(a + b, depth) <= |a|
    ensures Closed(a, depth)
  {
    if depth > 0 {
      if a != "" {
        assert (a + b)[1..] == a[1..] + b;
        CutClosed(a[1..], b, Nested(a[0], depth));
      }
    }
  }

  lemma BodyAround(a: string, y: string, b: string)
    requires NoBraces(y) && Closed(a + b, 1) && Walk(a + b, 1) > |a|
    ensures Closed(a + (y + b), 1) && |BodyOf(a + (y + b))| == |BodyOf(a + b)| + |y|
  {
    hide Walk, After, Closed, BodyOf;
    var depth := WalkSplits(a, b, 1);
    ClosedOver(a, b, 1);
    PlainTextKeepsDepth(y, "", depth);
    assert y + "" == y;
    NothingAfter(depth);
    ClosedOver(y, b, depth);
    ClosedOver(a, y + b, 1);
    WalkPast(a, b, 1, depth);
    WalkPast(y, b, depth, depth);
    WalkPast(a, y + b, 1, depth);
    BodyLength(a + b);
    BodyLength(a + (y + b));
  }

  lemma NothingAfter(depth: nat)
    requires depth > 0
    ensures After("", depth) == Some(depth)
  {
  }

  lemma BodyLength(t: string)
    requires Closed(t, 1)
    ensures 0 < Walk(t, 1) <= |t| && |BodyOf(t)| == Walk(t, 1) - 1
  {
    hide Walk;
    WalkPositive(t, 1);
  }

  // ---- The insertion ----

  /** The text inside `receive()` grows by what is inserted into it, and otherwise stays as it was. */
  lemma InsertedReceive(a: string, y: string, b: string)
    requires Quiet(a, y, b)
    requires ReceivePos(a + b).Some? && Closed((a + b)[ReceiveStart(a + b)..], 1)
    ensures var t, u, r := a + b, a + y + b, ReceivePos(a + b).value;
            && ReceivePos(u) == Some(if r < |a| then r else r + |y|)
            && Closed(u[ReceiveStart(u)..], 1)
            && (Encloses(t, |a|) ==> |R.ReceiveBody(u)| == |R.ReceiveBody(t)| + |y|)
            && (!Encloses(t, |a|) ==> R.ReceiveBody(u) == R.ReceiveBody(t))
  {
    hide ReceiveAt, ReceivePos, NoReceiveIn, Stopped, Walk, Closed, BodyOf;
    var t, u := a + b, a + y + b;
    PosOver(a, y, b);
    var r := ReceivePos(t).value;
    if r >= |a| {
      assert u[r + |y|..] == t[r..];
      assert u[ReceiveStart(u)..] == t[ReceiveStart(t)..];
    } else {
      StoppedBehind(a, b, r);
      StoppedBehind(a, y + b, r);
      MatchOver(a[r..], y, b);
      assert t[r..] == a[r..] + b && u[r..] == a[r..] + y + b;
      var s := ReceiveStart(t);
      if s > |a| {
        assert ReceiveStart(u) == s + |y| && u[s + |y|..] == t[s..];
      } else {
        assert ReceiveStart(u) == s && t[s..] == a[s..] + b && u[s..] == a[s..] + (y + b);
        BodyOver(a[s..], y, b);
      }
    }
  }
}
