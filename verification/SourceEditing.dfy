/** What a body replacement leaves alone, and the loops that read and edit source text. */
module SourceEditing {
  import opened Wrappers
  import opened SolidityText
  import opened FunctionBodies

  // ---- When reading and replacing agree ----

  /** The chunk scan jumps over the first header of `name` because an earlier match contains its start. */
  predicate Swallowed(t: string, name: string)
    decreases |t|
  {
    if t == "" then false
    else if HeaderAt(t).None? then Swallowed(t[1..], name)
    else
      var h := HeaderAt(t).value;
      h.name != name && NamePos(t, name).Some? &&
      (NamePos(t, name).value < h.length || Swallowed(t[h.length..], name))
  }

  lemma {:induction false} NamePosSkips(t: string, name: string, n: nat)
    requires n <= |t|
    requires NamePos(t, name).None? || NamePos(t, name).value >= n
    ensures NamePos(t[n..], name) == if NamePos(t, name).None? then None else Some(NamePos(t, name).value - n)
  {
    hide HeaderAt;
    if n == 0 {
      assert t[0..] == t;
    } else {
      NamePosSkips(t[1..], name, n - 1);
      assert t[1..][n - 1..] == t[n..];
    }
  }

  lemma {:induction false} NamePosFound(t: string, name: string, n: nat)
    requires n <= |t| && NamePos(t[n..], name).Some?
    ensures NamePos(t, name).Some? && NamePos(t, name).value <= n + NamePos(t[n..], name).value
  {
    hide HeaderAt;
    if n == 0 {
      assert t[0..] == t;
    } else {
      assert t[1..][n - 1..] == t[n..];
      NamePosFound(t[1..], name, n - 1);
    }
  }

  /** Reading and replacing target the same declaration exactly when it is not swallowed. */
  lemma {:induction false} SameTargetIff(t: string, name: string)
    ensures ChunkPos(t, name) == NamePos(t, name) <==> !Swallowed(t, name)
    decreases |t|
  {
    hide HeaderAt;
    if t != "" {
      if HeaderAt(t).None? {
        SameTargetIff(t[1..], name);
      } else if HeaderAt(t).value.name != name {
        var n := HeaderAt(t).value.length;
        var o := NamePos(t, name);
        if o.Some? && o.value < n {
          assert ChunkPos(t, name).Some? ==> ChunkPos(t, name).value >= n;
        } else {
          NamePosSkips(t, name, n);
          SameTargetIff(t[n..], name);
          if o.None? {
            NothingSwallowed(t[n..], name);
          }
        }
      }
    }
  }

  lemma {:induction false} NothingSwallowed(t: string, name: string)
    requires NamePos(t, name).None?
    ensures !Swallowed(t, name)
    decreases |t|
  {
    hide HeaderAt;
    if t != "" && HeaderAt(t).None? {
      NothingSwallowed(t[1..], name);
    }
  }

  // ---- Only one chunk changes ----

  /** No header starts in a body in front of this text. */
  ghost predicate NoHeaderIn(b: string, rest: string) {
    forall i :: 0 <= i < |b| ==> HeaderAt(b[i..] + rest).None?
  }

  lemma {:induction false} ChunksSkipBody(b: string, rest: string)
    requires NoHeaderIn(b, rest)
    ensures Chunks(b + rest) == Chunks(rest)
    decreases |b|
  {
    hide HeaderAt;
    if b == "" {
      assert b + rest == rest;
    } else {
      assert b[0..] == b;
      assert (b + rest)[1..] == b[1..] + rest;
      assert NoHeaderIn(b[1..], rest) by {
        assert forall i :: 0 <= i < |b[1..]| ==> b[1..][i..] == b[i + 1..];
      }
      ChunksSkipBody(b[1..], rest);
    }
  }

  /** The brace count reaches zero. */
  predicate Closed(t: string, depth: nat) {
    depth == 0 || (t != "" && Closed(t[1..], Nested(t[0], depth)))
  }

  lemma {:induction false} WalkIsLocal(t: string, u: string, depth: nat, n: nat)
    requires Closed(t, depth) && Walk(t, depth) <= n && SameUpTo(t, u, n)
    ensures Walk(u, depth) == Walk(t, depth)
    decreases |t|
  {
    if depth > 0 {
      WalkIsLocal(t[1..], u[1..], Nested(t[0], depth), n - 1);
    }
  }

  /**
   * No header of `name` is swallowed, every function scanned before it closes before it starts, and its own
   * body is closed by a brace and contains no header.
   */
  ghost predicate Editable(t: string, name: string)
    decreases |t|
  {
    if t == "" then true
    else if HeaderAt(t).None? then Editable(t[1..], name)
    else
      var h := HeaderAt(t).value;
      if h.name == name then
        var rest := FromClose(t, h.length);
        rest != "" && rest[0] == '}' && NoHeaderIn(BodyOf(t[h.length..]), rest)
      else ClosesBefore(t, h.length, NamePos(t, name)) && Editable(t[h.length..], name)
  }

  predicate ClosesBefore(t: string, start: nat, o: Option<nat>)
    requires start <= |t|
  {
    o.Some? ==> Closed(t[start..], 1) && start + Walk(t[start..], 1) <= o.value
  }

  function WithChunkBody(chunks: seq<Chunk>, name: string, body: string): seq<Chunk> {
    if chunks == [] then []
    else if chunks[0].name == name then [chunks[0].(body := body)] + chunks[1..]
    else [chunks[0]] + WithChunkBody(chunks[1..], name, body)
  }

  /** The text from the brace that closes the function edited. */
  function Following(t: string, name: string): string {
    if NamePos(t, name).None? then "" else FromClose(t, BodyStart(t, NamePos(t, name).value))
  }

  /** It is the same behind a prefix that no header of `name` starts in. */
  lemma FollowingShifts(t: string, name: string, n: nat)
    requires n <= |t| && NamePos(t, name).Some? && n <= NamePos(t, name).value
    ensures Following(t[n..], name) == Following(t, name)
  {
    hide HeaderAt, NamePos, FromClose;
    NamePosSkips(t, name, n);
    var o := NamePos(t, name).value;
    assert t[n..][o - n..] == t[o..];
    FromCloseShifts(t, BodyStart(t, o), n);
  }

  lemma FromCloseShifts(t: string, start: nat, n: nat)
    requires n < start <= |t|
    ensures FromClose(t[n..], start - n) == FromClose(t, start)
  {
    hide Walk;
    assert t[n..][start - n..] == t[start..];
    var w := Walk(t[start..], 1);
    assert t[n..][start - n + w - 1..] == t[start + w - 1..];
  }

  lemma EditHere(t: string, name: string, body: string)
    requires HeaderAt(t).Some? && HeaderAt(t).value.name == name
    requires Editable(t, name) && Balanced(body) && NoHeaderIn(body, Following(t, name))
    ensures Chunks(ReplaceFunctionBody(t, name, body)) == WithChunkBody(Chunks(t), name, body)
  {
    hide HeaderAt, Balanced, NoHeaderIn, Walk, Chunks, BodyOf, FromClose;
    var h := HeaderAt(t).value;
    var rest := FromClose(t, h.length);
    FollowingHere(t, name);
    assert t[0..] == t && t != "" && rest != "";
    SplicedBody(t, 0, body);
    HeaderHasShape(t);
    OwnBody(t, h.length);
    ChunkHere(t, name, BodyOf(t[h.length..]), rest);
    EditedHere(t, name, body, rest);
  }

  /** A header, a body without headers and the rest are listed as one function and the rest's. */
  lemma ChunkHere(t: string, name: string, body: string, rest: string)
    requires HeaderAt(t).Some? && HeaderAt(t).value.name == name && t[HeaderAt(t).value.length..] == body + rest
    requires NoHeaderIn(body, rest) && rest != "" && rest[0] == '}' && BodyOf(body + rest) == body
    ensures Chunks(t) == [Chunk(name, t[..HeaderAt(t).value.length], body)] + Chunks(rest)
  {
    hide HeaderAt, NoHeaderIn, BodyOf;
    ChunksSkipBody(body, rest);
  }

  lemma EditedHere(t: string, name: string, body: string, rest: string)
    requires HeaderAt(t).Some? && HeaderAt(t).value.name == name
    requires NoHeaderIn(body, rest) && rest != "" && rest[0] == '}' && BodyOf(body + rest) == body
    ensures var n := HeaderAt(t).value.length;
            Chunks(t[..n] + body + rest) == [Chunk(name, t[..n], body)] + Chunks(rest)
  {
    hide HeaderAt, NoHeaderIn, Chunks, BodyOf;
    var h := HeaderAt(t).value;
    var u := t[..h.length] + body + rest;
    HeaderIsLocal(t, u, h);
    assert u[h.length..] == body + rest && u[..h.length] == t[..h.length];
    ChunkHere(u, name, body, rest);
  }

  lemma FollowingHere(t: string, name: string)
    requires HeaderAt(t).Some? && HeaderAt(t).value.name == name
    ensures Following(t, name) == FromClose(t, HeaderAt(t).value.length)
  {
    hide HeaderAt, FromClose;
    assert t[0..] == t;
  }

  lemma OwnBody(t: string, start: nat)
    requires 0 < start <= |t| && t[start - 1] == '{' && FromClose(t, start) != "" && FromClose(t, start)[0] == '}'
    ensures t[start..] == BodyOf(t[start..]) + FromClose(t, start)
  {
    assert t[start..] == BodyOf(t[start..]) + FromClose(t, start);
  }

  lemma ChunkBefore(t: string, u: string, n: nat, end: nat)
    requires n <= end && SameUpTo(t, u, end)
    requires Closed(t[n..], 1) && n + Walk(t[n..], 1) <= end
    ensures BodyOf(u[n..]) == BodyOf(t[n..])
  {
    WalkIsLocal(t[n..], u[n..], 1, end - n);
    var w := Walk(t[n..], 1);
    if w > 0 {
      assert t[n..][..w - 1] == u[n..][..w - 1];
    }
  }

  lemma SpliceBehind(t: string, n: nat, o: nat, body: string)
    requires n <= |t| && o < |t[n..]| && HeaderAt(t[n..][o..]).Some?
    ensures t[n..][o..] == t[n + o..]
    ensures t[..n] + Spliced(t[n..], o, body) == Spliced(t, n + o, body)
  {
    hide HeaderAt, Walk;
    assert t[n..][o..] == t[n + o..];
    var k := BodyStart(t[n..], o);
    assert BodyStart(t, n + o) == n + k;
    assert t[n..][k..] == t[n + k..];
    var w := Walk(t[n + k..], 1);
    assert t[n..][k + w - 1..] == t[n + k + w - 1..];
    PrefixJoins(t, n, k);
    assert t[..n] + (t[n..][..k] + body + FromClose(t[n..], k)) == (t[..n] + t[n..][..k]) + body + FromClose(t[n..], k);
  }

  lemma PrefixJoins(t: string, n: nat, k: nat)
    requires n <= |t| && k <= |t[n..]|
    ensures t[..n] + t[n..][..k] == t[..n + k]
  {
  }

  /** Editing behind a prefix that no header of `name` starts in. */
  lemma EditBehind(t: string, name: string, body: string, n: nat)
    requires n <= |t| && NamePos(t, name).Some? && n <= NamePos(t, name).value
    ensures var u := ReplaceFunctionBody(t, name, body);
            && u == t[..n] + ReplaceFunctionBody(t[n..], name, body)
            && SameUpTo(t, u, NamePos(t, name).value)
            && HeaderAt(u) == HeaderAt(t)
  {
    hide HeaderAt, NamePos, ReplaceFunctionBody, Spliced, Walk;
    var o := NamePos(t, name).value;
    var u := Spliced(t, o, body);
    ReplaceAt(t, name, body);
    NamePosSkips(t, name, n);
    ReplaceAt(t[n..], name, body);
    SpliceBehind(t, n, o - n, body);
    SplicedPrefix(t, o, body);
    PrefixDecides(t, u, o, HeaderAt(t[o..]).value);
  }

  lemma SplicedPrefix(t: string, o: nat, body: string)
    requires o < |t| && HeaderAt(t[o..]).Some?
    ensures SameUpTo(t, Spliced(t, o, body), BodyStart(t, o))
  {
    hide HeaderAt;
  }

  lemma {:induction false} NotListed(t: string, name: string, body: string)
    requires NamePos(t, name).None?
    ensures WithChunkBody(Chunks(t), name, body) == Chunks(t)
    decreases |t|
  {
    hide HeaderAt, BodyOf;
    if t != "" {
      var n := if HeaderAt(t).Some? then HeaderAt(t).value.length else 1;
      NamePosSkips(t, name, n);
      NotListed(t[n..], name, body);
      assert HeaderAt(t).Some? ==> Chunks(t)[1..] == Chunks(t[n..]);
    }
  }

  lemma ScannedBefore(t: string, name: string, body: string)
    requires HeaderAt(t).Some? && HeaderAt(t).value.name != name
    requires NamePos(t, name).Some? && ClosesBefore(t, HeaderAt(t).value.length, NamePos(t, name))
    ensures var u, n := ReplaceFunctionBody(t, name, body), HeaderAt(t).value.length;
            Chunks(u) == [Chunks(t)[0]] + Chunks(ReplaceFunctionBody(t[n..], name, body))
  {
    hide HeaderAt, BodyOf, NamePos, ReplaceFunctionBody, Walk, Closed;
    var u, n := ReplaceFunctionBody(t, name, body), HeaderAt(t).value.length;
    EditBehind(t, name, body, n);
    ChunkBefore(t, u, n, NamePos(t, name).value);
    assert u[..n] == t[..n] && u[n..] == ReplaceFunctionBody(t[n..], name, body);
  }

  /** Replacing one body changes that chunk and no other: names, headers and every other body stay. */
  lemma {:induction false} OneChunkChanges(t: string, name: string, body: string)
    requires Editable(t, name) && Balanced(body) && NoHeaderIn(body, Following(t, name))
    ensures Chunks(ReplaceFunctionBody(t, name, body)) == WithChunkBody(Chunks(t), name, body)
    decreases |t|
  {
    hide HeaderAt, BodyOf, Balanced, NoHeaderIn, ClosesBefore, ReplaceFunctionBody, NamePos, FromClose, Following;
    if NamePos(t, name).None? {
      ReplaceAt(t, name, body);
      NotListed(t, name, body);
    } else if HeaderAt(t).None? {
      FoundNotHere(t, name);
      EditBehind(t, name, body, 1);
      FollowingShifts(t, name, 1);
      OneChunkChanges(t[1..], name, body);
      assert ReplaceFunctionBody(t, name, body)[1..] == ReplaceFunctionBody(t[1..], name, body);
    } else if HeaderAt(t).value.name == name {
      EditHere(t, name, body);
    } else {
      var n := HeaderAt(t).value.length;
      ScannedBefore(t, name, body);
      AlreadyBehind(t, name);
      FollowingShifts(t, name, n);
      OneChunkChanges(t[n..], name, body);
      assert Chunks(t)[1..] == Chunks(t[n..]);
    }
  }

  lemma AlreadyBehind(t: string, name: string)
    requires HeaderAt(t).Some? && NamePos(t, name).Some?
    requires ClosesBefore(t, HeaderAt(t).value.length, NamePos(t, name))
    ensures HeaderAt(t).value.length <= NamePos(t, name).value
  {
    hide HeaderAt, NamePos, Closed;
  }

  lemma FoundNotHere(t: string, name: string)
    requires NamePos(t, name).Some? && HeaderAt(t).None?
    ensures NamePos(t, name).value >= 1
  {
    assert t[0..] == t;
  }

  // ---- A declaration without a body swallows its successor ----

  const BODILESS := "function a();function b(){}"

  lemma BodilessHeader()
    ensures HeaderAt(BODILESS) == Some(Header("a", 10, 11, 26))
  {
    hide Skip, HeaderAt;
    var t := BODILESS;
    SkipIs(t, 8, IsSpace, 9);
    SkipIs(t, 9, IsWord, 10);
    SkipIs(t, 10, IsSpace, 10);
    SkipIs(t, 11, NotClosing, 11);
    SkipIs(t, 12, NotOpeningBrace, 25);
    ScannedIsMatch(t, 9, 10, Header("a", 10, 11, 26));
  }

  lemma SecondHeader()
    ensures HeaderAt(BODILESS[13..]) == Some(Header("b", 10, 11, 13))
  {
    hide Skip, HeaderAt;
    var t := BODILESS[13..];
    assert t == "function b(){}";
    SkipIs(t, 8, IsSpace, 9);
    SkipIs(t, 9, IsWord, 10);
    SkipIs(t, 10, IsSpace, 10);
    SkipIs(t, 11, NotClosing, 11);
    SkipIs(t, 12, NotOpeningBrace, 12);
    ScannedIsMatch(t, 9, 10, Header("b", 10, 11, 13));
  }

  /** Reading finds no `b` in this text, yet replacing `b` edits it. */
  lemma ReadingAndReplacingDisagree()
    ensures FindFunctionBody(BODILESS, "b") == None
    ensures NamePos(BODILESS, "b").Some? && Swallowed(BODILESS, "b")
  {
    hide HeaderAt;
    BodilessHeader();
    SecondHeader();
    assert NamePos(BODILESS[13..], "b") == Some(0) by {
      assert BODILESS[13..][0..] == BODILESS[13..];
    }
    NamePosFound(BODILESS, "b", 13);
    FindAt(BODILESS, "b");
    LastBrace();
    assert BODILESS[26..] == "}";
  }

  lemma LastBrace()
    ensures ChunkPos("}", "b") == None
  {
    assert "}"[1..] == "";
  }
}
