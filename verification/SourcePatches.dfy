/** Contract-level declarations, and the guarded body patches applied to generated source. */
module SourcePatches {
  import opened Wrappers
  import opened SolidityText
  import opened FunctionBodies
  import opened SourceEditing

  // ---- Declarations at brace depth one ----

  function Level(c: char): int {
    if c == '{' then 1 else if c == '}' then -1 else 0
  }

  function Depth(t: string): int {
    if t == "" then 0 else Level(t[0]) + Depth(t[1..])
  }

  /** The characters at depth one, braces dropped, when reading starts at `depth`. */
  function Region(t: string, depth: int): string {
    if t == "" then ""
    else (if Level(t[0]) == 0 && depth == 1 then [t[0]] else "") + Region(t[1..], depth + Level(t[0]))
  }

  function DeclarationRegion(t: string): string {
    Region(t, 0)
  }

  method ReadDeclarations(source: string) returns (out: string)
    ensures out == DeclarationRegion(source)
  {
    var depth := 0;
    out := "";
    for i := 0 to |source|
      invariant out + Region(source[i..], depth) == DeclarationRegion(source)
    {
      var c := source[i];
      assert source[i..][1..] == source[i + 1..];
      if c == '{' {
        depth := depth + 1;
      } else if c == '}' {
        depth := depth - 1;
      } else if depth == 1 {
        assert out + Region(source[i..], depth) == out + [c] + Region(source[i + 1..], depth);
        out := out + [c];
      }
    }
    assert source[|source|..] == "";
  }

  lemma {:induction false} RegionAppend(a: string, b: string, depth: int)
    ensures Region(a + b, depth) == Region(a, depth) + Region(b, depth + Depth(a))
    ensures Depth(a + b) == Depth(a) + Depth(b)
  {
    if a == "" {
      assert a + b == b;
    } else {
      assert (a + b)[1..] == a[1..] + b;
      RegionAppend(a[1..], b, depth + Level(a[0]));
    }
  }

  /** Text that never closes its own function stays below the depth it starts at. */
  lemma {:induction false} InnerText(b: string, inner: nat, depth: int)
    requires inner > 0 && After(b, inner).Some?
    ensures Depth(b) == After(b, inner).value - inner
    ensures depth > inner ==> Region(b, depth) == ""
  {
    if b != "" {
      InnerText(b[1..], Nested(b[0], inner), depth + Level(b[0]));
    }
  }

  lemma {:induction false} ClosedBody(t: string, depth: nat)
    requires depth > 0 && Closed(t, depth)
    ensures After(t[..Walk(t, depth) - 1], depth) == Some(1)
  {
    var w := Walk(t, depth);
    var next := Nested(t[0], depth);
    if next > 0 {
      ClosedBody(t[1..], next);
      assert t[..w - 1][1..] == t[1..][..w - 2];
    } else {
      assert Walk(t[1..], next) == 0 && t[..0] == "";
    }
  }

  /**
   * Replacing a closed body by a balanced one keeps the declaration text exactly when both bodies show the
   * same characters at depth one; inside a contract neither shows any.
   */
  lemma DeclarationsKeptIff(t: string, name: string, body: string)
    requires NamePos(t, name).Some? && Balanced(body)
    requires Closed(t[BodyStart(t, NamePos(t, name).value)..], 1)
    ensures var o := NamePos(t, name).value;
            var level := Depth(t[..BodyStart(t, o)]);
            && (DeclarationRegion(ReplaceFunctionBody(t, name, body)) == DeclarationRegion(t)
                <==> Region(body, level) == Region(BodyAt(t, o), level))
            && (level >= 2 ==> Region(body, level) == Region(BodyAt(t, o), level) == "")
  {
    hide HeaderAt, NamePos, ReplaceFunctionBody, Closed, Walk, Region, Depth;
    var o := NamePos(t, name).value;
    var start := BodyStart(t, o);
    var was, rest := BodyAt(t, o), FromClose(t, start);
    ReplaceAt(t, name, body);
    ClosedBody(t[start..], 1);
    NotEmpty(t[start..]);
    OwnText(t, start);
    SplitRegion(t[..start], body, rest);
    SplitRegion(t[..start], was, rest);
    InnerText(body, 1, Depth(t[..start]));
    InnerText(was, 1, Depth(t[..start]));
    var p, q := Region(t[..start], 0), Region(rest, Depth(t[..start]));
    SameMiddle(p, Region(body, Depth(t[..start])), Region(was, Depth(t[..start])), q);
  }

  lemma NotEmpty(t: string)
    requires Closed(t, 1)
    ensures t != ""
  {
  }

  lemma OwnText(t: string, start: nat)
    requires 0 < start < |t|
    ensures t == t[..start] + BodyOf(t[start..]) + FromClose(t, start)
  {
    assert t[start..] == BodyOf(t[start..]) + FromClose(t, start);
  }

  lemma SplitRegion(prefix: string, body: string, rest: string)
    ensures Region(prefix + body + rest, 0)
            == Region(prefix, 0) + Region(body, Depth(prefix)) + Region(rest, Depth(prefix) + Depth(body))
  {
    hide Region, Depth;
    RegionAppend(prefix + body, rest, 0);
    RegionAppend(prefix, body, 0);
  }

  lemma SameMiddle(p: string, a: string, b: string, q: string)
    ensures p + a + q == p + b + q <==> a == b
  {
    if p + a + q == p + b + q {
      assert |a| == |b|;
      assert a == (p + a + q)[|p|..|p| + |a|];
      assert b == (p + b + q)[|p|..|p| + |b|];
    }
  }

  // ---- Guarded patches ----

  /** Insert `text` before or after an existing, non-empty body unless `done` already recognises it. */
  function Patch(t: string, name: string, done: string -> bool, edit: string -> string): string {
    match FindFunctionBody(t, name)
    case None => t
    case Some(body) => if body == "" || done(body) then t else ReplaceFunctionBody(t, name, edit(body))
  }

  /**
   * A patch whose result its own test recognises does nothing the second time, and after the first time the
   * body read back is the edited one.
   */
  lemma PatchIsIdempotent(t: string, name: string, done: string -> bool, edit: string -> string)
    requires FindFunctionBody(t, name).Some? ==> SameTarget(t, name)
    requires var body := FindFunctionBody(t, name);
             body.Some? ==> done(edit(body.value)) && Balanced(edit(body.value))
    ensures var u := Patch(t, name, done, edit);
            && Patch(u, name, done, edit) == u
            && (u != t ==> FindFunctionBody(u, name) == Some(edit(FindFunctionBody(t, name).value)))
  {
    hide HeaderAt, FindFunctionBody, ReplaceFunctionBody, NamePos, ChunkPos;
    var body := FindFunctionBody(t, name);
    if body.Some? {
      PutGet(t, name, edit(body.value));
    }
  }

  predicate NoBraces(t: string) {
    forall c :: c in t ==> c != '{' && c != '}'
  }

  lemma {:induction false} PlainTextKeepsDepth(a: string, b: string, depth: nat)
    requires depth > 0 && NoBraces(a)
    ensures After(a + b, depth) == After(b, depth)
  {
    if a == "" {
      assert a + b == b;
    } else {
      assert (a + b)[1..] == a[1..] + b && a[0] in a;
      assert forall c :: c in a[1..] ==> c in a;
      PlainTextKeepsDepth(a[1..], b, depth);
    }
  }

  lemma {:induction false} AfterAppend(a: string, b: string, depth: nat)
    requires depth > 0
    ensures After(a, depth).Some? ==>
              After(a, depth).value > 0 && After(a + b, depth) == After(b, After(a, depth).value)
  {
    if a == "" {
      assert a + b == b;
    } else if Nested(a[0], depth) > 0 {
      assert (a + b)[1..] == a[1..] + b;
      AfterAppend(a[1..], b, Nested(a[0], depth));
    }
  }

  /** `${guard}${body.trimStart()}`: the entrant-count guards and the entrant cap. */
  function Guarded(guard: string, body: string): string {
    guard + body[Skip(body, 0, IsSpace)..]
  }

  lemma GuardedIsBalanced(guard: string, body: string)
    requires NoBraces(guard) && Balanced(body)
    ensures Balanced(Guarded(guard, body))
  {
    var n := Skip(body, 0, IsSpace);
    PlainTextKeepsDepth(guard, body[n..], 1);
    PlainTextKeepsDepth(body[..n], body[n..], 1);
    assert body[..n] + body[n..] == body;
  }

  function TrimEnd(t: string): (r: string)
    ensures r <= t && forall k :: |r| <= k < |t| ==> IsSpace(t[k])
  {
    if t != "" && IsSpace(t[|t| - 1]) then TrimEnd(t[..|t| - 1]) else t
  }

  /** `${body.trimEnd()}${text}`: the draw-fee reset. */
  function Extended(body: string, text: string): string {
    TrimEnd(body) + text
  }

  lemma ExtendedIsBalanced(body: string, text: string)
    requires NoBraces(text) && Balanced(body)
    ensures Balanced(Extended(body, text))
  {
    var n := |TrimEnd(body)|;
    assert TrimEnd(body) == body[..n];
    assert body[..n] + body[n..] == body && text + "" == text;
    Prefixed(body[..n], body[n..], 1);
    AfterAppend(body[..n], body[n..], 1);
    AfterAppend(body[..n], text, 1);
    var depth := After(body[..n], 1).value;
    assert body[n..] + "" == body[n..];
    assert NoBraces(body[n..]) by {
      forall c | c in body[n..] ensures IsSpace(c) {
        var k :| 0 <= k < |body[n..]| && body[n..][k] == c;
        assert body[n + k] == c;
      }
    }
    PlainTextKeepsDepth(body[n..], "", depth);
    PlainTextKeepsDepth(text, "", depth);
  }

  lemma {:induction false} Prefixed(a: string, b: string, depth: nat)
    requires depth > 0 && After(a + b, depth).Some?
    ensures After(a, depth).Some?
  {
    if a != "" {
      assert (a + b)[1..] == a[1..] + b;
      Prefixed(a[1..], b, Nested(a[0], depth));
    }
  }

  /** Inserting a guard, chosen from the body, is idempotent for every test that recognises texts starting with it. */
  lemma GuardPatchIsIdempotent(t: string, name: string, done: string -> bool, guard: string -> string)
    requires forall b :: NoBraces(guard(b)) && forall x :: done(guard(b) + x)
    requires FindFunctionBody(t, name).Some? ==>
               SameTarget(t, name) && Balanced(FindFunctionBody(t, name).value)
    ensures var edit := (b: string) => Guarded(guard(b), b);
            var u := Patch(t, name, done, edit);
            Patch(u, name, done, edit) == u
  {
    hide HeaderAt, FindFunctionBody, ReplaceFunctionBody, NamePos, ChunkPos, Balanced;
    var edit := (b: string) => Guarded(guard(b), b);
    var body := FindFunctionBody(t, name);
    if body.Some? {
      GuardedIsBalanced(guard(body.value), body.value);
    }
    PatchIsIdempotent(t, name, done, edit);
  }

  /** Appending the reset is idempotent for every test that recognises texts ending with it. */
  lemma ResetPatchIsIdempotent(t: string, name: string, done: string -> bool, text: string)
    requires NoBraces(text) && forall b :: done(b + text)
    requires FindFunctionBody(t, name).Some? ==>
               SameTarget(t, name) && Balanced(FindFunctionBody(t, name).value)
    ensures var edit := (b: string) => Extended(b, text);
            var u := Patch(t, name, done, edit);
            Patch(u, name, done, edit) == u
  {
    hide HeaderAt, FindFunctionBody, ReplaceFunctionBody, NamePos, ChunkPos, Balanced;
    var edit := (b: string) => Extended(b, text);
    var body := FindFunctionBody(t, name);
    if body.Some? {
      ExtendedIsBalanced(body.value, text);
    }
    PatchIsIdempotent(t, name, done, edit);
  }
}
