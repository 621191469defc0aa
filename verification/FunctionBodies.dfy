/** Reading and replacing the body of a named function: a lens over source text. */
module FunctionBodies {
  import opened Wrappers
  import opened SolidityText

  function Nested(c: char, depth: nat): nat
    requires depth > 0
  {
    if c == '{' then depth + 1 else if c == '}' then depth - 1 else depth
  }

  /** How many characters the brace count consumes before the depth reaches zero or the text ends. */
  function Walk(t: string, depth: nat): (r: nat)
    ensures r <= |t|
    ensures t != "" && depth > 0 ==> r > 0
  {
    if t == "" || depth == 0 then 0 else 1 + Walk(t[1..], Nested(t[0], depth))
  }

  /** The body in front of the closing brace of a header just consumed. */
  function BodyOf(t: string): string {
    if t == "" then "" else t[..Walk(t, 1) - 1]
  }

  datatype Chunk = Chunk(name: string, header: string, body: string)

  /** Matching resumes right after each header, so functions inside a body are listed too. */
  function Chunks(t: string): seq<Chunk>
    decreases |t|
  {
    if t == "" then [] else
      match HeaderAt(t)
      case Some(h) => [Chunk(h.name, t[..h.length], BodyOf(t[h.length..]))] + Chunks(t[h.length..])
      case None => Chunks(t[1..])
  }

  function FirstNamed(chunks: seq<Chunk>, name: string): Option<string> {
    if chunks == [] then None
    else if chunks[0].name == name then Some(chunks[0].body)
    else FirstNamed(chunks[1..], name)
  }

  function FindFunctionBody(t: string, name: string): Option<string> {
    FirstNamed(Chunks(t), name)
  }

  /** The text from the character that stopped the brace count. */
  function FromClose(t: string, start: nat): string
    requires 0 < start <= |t|
  {
    t[start + Walk(t[start..], 1) - 1..]
  }

  function ReplaceFunctionBody(t: string, name: string, body: string): string
    decreases |t|
  {
    if t == "" then "" else
      match HeaderAt(t)
      case Some(h) =>
        if h.name == name then t[..h.length] + body + FromClose(t, h.length)
        else [t[0]] + ReplaceFunctionBody(t[1..], name, body)
      case None => [t[0]] + ReplaceFunctionBody(t[1..], name, body)
  }

  // ---- Where the two searches stop ----

  lemma DropDrop(t: string, n: nat, o: nat)
    requires n + o <= |t|
    ensures t[n..][o..] == t[n + o..]
  {
  }

  /** The first match of the header of `name`: what replacing edits. */
  function NamePos(t: string, name: string): (r: Option<nat>)
    ensures r.Some? ==> r.value < |t| && HeaderAt(t[r.value..]).Some? && HeaderAt(t[r.value..]).value.name == name
    decreases |t|
  {
    if t == "" then None
    else if HeaderAt(t).Some? && HeaderAt(t).value.name == name then Some(0)
    else
      var rest := NamePos(t[1..], name);
      if rest.None? then None else
        DropDrop(t, 1, rest.value);
        Some(1 + rest.value)
  }

  /** A header behind a prefix is one of the whole text. */
  function LaterPos(t: string, n: nat, o: nat, name: string): (r: nat)
    requires n <= |t| && o < |t[n..]| && HeaderAt(t[n..][o..]).Some? && HeaderAt(t[n..][o..]).value.name == name
    ensures r == n + o < |t| && HeaderAt(t[r..]).Some? && HeaderAt(t[r..]).value.name == name
  {
    hide HeaderAt;
    DropDrop(t, n, o);
    n + o
  }

  /** The first chunk called `name`: what reading returns. */
  function ChunkPos(t: string, name: string): (r: Option<nat>)
    ensures r.Some? ==> r.value < |t| && HeaderAt(t[r.value..]).Some? && HeaderAt(t[r.value..]).value.name == name
    decreases |t|
  {
    hide HeaderAt;
    if t == "" then None
    else if HeaderAt(t).Some? && HeaderAt(t).value.name == name then Some(0)
    else
      var skip := if HeaderAt(t).Some? then HeaderAt(t).value.length else 1;
      var rest := ChunkPos(t[skip..], name);
      if rest.None? then None else Some(LaterPos(t, skip, rest.value, name))
  }

  function BodyStart(t: string, o: nat): (r: nat)
    requires o < |t| && HeaderAt(t[o..]).Some?
    ensures o < r <= |t|
  {
    o + HeaderAt(t[o..]).value.length
  }

  /** The text with the body that starts after the header at `o` exchanged. */
  function Spliced(t: string, o: nat, body: string): string
    requires o < |t| && HeaderAt(t[o..]).Some?
  {
    t[..BodyStart(t, o)] + body + FromClose(t, BodyStart(t, o))
  }

  function BodyAt(t: string, o: nat): string
    requires o < |t| && HeaderAt(t[o..]).Some?
  {
    BodyOf(t[BodyStart(t, o)..])
  }

  lemma ShiftSplice(t: string, o: nat, body: string)
    requires t != "" && o < |t[1..]| && HeaderAt(t[1..][o..]).Some?
    ensures t[1..][o..] == t[1 + o..]
    ensures [t[0]] + Spliced(t[1..], o, body) == Spliced(t, 1 + o, body)
  {
    hide HeaderAt;
    assert t[1..][o..] == t[1 + o..];
    var k := BodyStart(t[1..], o);
    assert BodyStart(t, 1 + o) == 1 + k;
    assert t[1..][k..] == t[1 + k..];
    var w := Walk(t[1 + k..], 1);
    assert t[1..][k + w - 1..] == t[k + w..];
    assert [t[0]] + t[1..][..k] == t[..1 + k];
  }

  lemma ShiftBody(t: string, n: nat, o: nat)
    requires n <= |t| && o < |t[n..]| && HeaderAt(t[n..][o..]).Some?
    ensures t[n..][o..] == t[n + o..]
    ensures BodyAt(t[n..], o) == BodyAt(t, n + o)
  {
    hide HeaderAt;
    assert t[n..][o..] == t[n + o..];
    var k := BodyStart(t[n..], o);
    assert t[n..][k..] == t[n + k..];
  }

  lemma {:induction false} ReplaceAt(t: string, name: string, body: string)
    ensures ReplaceFunctionBody(t, name, body) ==
            match NamePos(t, name)
            case None => t
            case Some(o) => Spliced(t, o, body)
    decreases |t|
  {
    hide HeaderAt;
    if t != "" {
      if HeaderAt(t).Some? && HeaderAt(t).value.name == name {
        assert t[0..] == t;
      } else {
        hide Spliced;
        ReplaceAt(t[1..], name, body);
        assert [t[0]] + t[1..] == t;
        var o := NamePos(t[1..], name);
        if o.Some? {
          ShiftSplice(t, o.value, body);
        }
      }
    }
  }

  lemma {:induction false} FindAt(t: string, name: string)
    ensures FindFunctionBody(t, name) ==
            match ChunkPos(t, name)
            case None => None
            case Some(o) => Some(BodyAt(t, o))
    decreases |t|
  {
    hide HeaderAt, BodyOf;
    if t != "" {
      if HeaderAt(t).None? {
        hide BodyAt;
        FindAt(t[1..], name);
        var o := ChunkPos(t[1..], name);
        if o.Some? {
          ShiftBody(t, 1, o.value);
        }
      } else if HeaderAt(t).value.name == name {
        assert t[0..] == t;
      } else {
        hide BodyAt;
        var n := HeaderAt(t).value.length;
        FindAt(t[n..], name);
        assert Chunks(t)[1..] == Chunks(t[n..]);
        var o := ChunkPos(t[n..], name);
        if o.Some? {
          ShiftBody(t, n, o.value);
        }
      }
    }
  }

  // ---- Both searches read only the text before the body ----

  lemma {:induction false} NamePosIsStable(t: string, u: string, name: string, o: nat)
    requires NamePos(t, name) == Some(o) && SameUpTo(t, u, BodyStart(t, o))
    ensures NamePos(u, name) == Some(o) && HeaderAt(u[o..]) == HeaderAt(t[o..])
    decreases |t|
  {
    hide HeaderAt;
    PrefixDecides(t, u, o, HeaderAt(t[o..]).value);
    if o == 0 {
      assert t[0..] == t && u[0..] == u;
    } else {
      assert t[1..][o - 1..] == t[o..] && u[1..][o - 1..] == u[o..];
      NamePosIsStable(t[1..], u[1..], name, o - 1);
    }
  }

  lemma {:induction false} ChunkPosIsStable(t: string, u: string, name: string, o: nat)
    requires ChunkPos(t, name) == Some(o) && SameUpTo(t, u, BodyStart(t, o))
    ensures ChunkPos(u, name) == Some(o) && HeaderAt(u[o..]) == HeaderAt(t[o..])
    decreases |t|
  {
    hide HeaderAt, ChunkPos;
    PrefixDecides(t, u, o, HeaderAt(t[o..]).value);
    ChunkStep(t, name);
    ChunkStep(u, name);
    if HeaderAt(t).Some? && HeaderAt(t).value.name == name {
      assert t[0..] == t && u[0..] == u;
    } else {
      var skip := ScanStep(t);
      assert t[skip..][o - skip..] == t[o..] && u[skip..][o - skip..] == u[o..];
      ChunkPosIsStable(t[skip..], u[skip..], name, o - skip);
    }
  }

  /** How far the scan moves from a position. */
  function ScanStep(t: string): (n: nat)
    requires t != ""
    ensures 0 < n <= |t|
  {
    if HeaderAt(t).Some? then HeaderAt(t).value.length else 1
  }

  lemma ChunkStep(t: string, name: string)
    requires t != ""
    ensures ChunkPos(t, name)
            == if HeaderAt(t).Some? && HeaderAt(t).value.name == name then Some(0)
               else var rest := ChunkPos(t[ScanStep(t)..], name);
                    if rest.None? then None else Some(ScanStep(t) + rest.value)
  {
    hide HeaderAt;
  }

  // ---- Balanced bodies ----

  /** The depth after a text, or None once a brace would close the function. */
  function After(b: string, depth: nat): Option<nat>
    requires depth > 0
  {
    if b == "" then Some(depth)
    else if Nested(b[0], depth) == 0 then None
    else After(b[1..], Nested(b[0], depth))
  }

  predicate Balanced(b: string) {
    After(b, 1) == Some(1)
  }

  lemma {:induction false} WalkPast(b: string, rest: string, depth: nat, end: nat)
    requires depth > 0 && After(b, depth) == Some(end)
    ensures end > 0 && Walk(b + rest, depth) == |b| + Walk(rest, end)
  {
    if b == "" {
      assert b + rest == rest;
    } else {
      assert (b + rest)[1..] == b[1..] + rest;
      WalkPast(b[1..], rest, Nested(b[0], depth), end);
    }
  }

  /** The last character consumed, read on its own, closes the function or is the last of the text. */
  lemma {:induction false} LastCloses(t: string, depth: nat)
    requires t != "" && depth > 0
    ensures Walk(t[Walk(t, depth) - 1..], 1) == 1
    decreases |t|
  {
    var next := Nested(t[0], depth);
    var w := Walk(t[1..], next);
    if w == 0 {
      assert t[0..] == t;
      if t[1..] != "" {
        assert next == 0 && t[0] == '}';
      }
      assert Walk(t[1..], Nested(t[0], 1)) == 0;
    } else {
      assert t[1..][w - 1..] == t[w..];
      LastCloses(t[1..], next);
    }
  }

  /** Reading `body` back from a spliced text. */
  lemma SplicedBody(t: string, o: nat, body: string)
    requires o < |t| && HeaderAt(t[o..]).Some? && Balanced(body)
    ensures var start, u := BodyStart(t, o), Spliced(t, o, body);
            && SameUpTo(t, u, start)
            && u[start..] == body + FromClose(t, start)
            && BodyOf(u[start..]) == body
            && Walk(u[start..], 1) == |body| + 1
            && u[start + Walk(u[start..], 1) - 1..] == FromClose(t, start)
  {
    hide HeaderAt;
    var start, u := BodyStart(t, o), Spliced(t, o, body);
    var rest := FromClose(t, start);
    assert u[start..] == body + rest;
    CloseIsOneStep(t, start);
    WalkPast(body, rest, 1, 1);
    assert (body + rest)[|body|..] == rest;
    assert u[start + |body|..] == u[start..][|body|..];
  }

  lemma CloseIsOneStep(t: string, start: nat)
    requires 0 < start <= |t|
    ensures FromClose(t, start) != "" && Walk(FromClose(t, start), 1) == 1
  {
    if start == |t| {
      assert Walk(t[start..], 1) == 0;
      var last := FromClose(t, start);
      assert |last| == 1 && last[1..] == "";
    } else {
      var u := t[start..];
      LastCloses(u, 1);
      assert t[start + Walk(u, 1) - 1..] == u[Walk(u, 1) - 1..];
    }
  }

  // ---- Lens laws ----

  /** Reading and replacing look at the same declaration, and there is one. */
  predicate SameTarget(t: string, name: string) {
    NamePos(t, name).Some? && ChunkPos(t, name) == NamePos(t, name)
  }

  /** Reading after replacing returns what was put, on any text, terminated or not. */
  lemma PutGet(t: string, name: string, body: string)
    requires SameTarget(t, name) && Balanced(body)
    ensures FindFunctionBody(ReplaceFunctionBody(t, name, body), name) == Some(body)
    ensures SameTarget(ReplaceFunctionBody(t, name, body), name)
  {
    hide HeaderAt, Spliced, BodyOf, FromClose, Walk, NamePos, ChunkPos, FindFunctionBody, ReplaceFunctionBody;
    var o := NamePos(t, name).value;
    var u := Spliced(t, o, body);
    ReplaceAt(t, name, body);
    SplicedBody(t, o, body);
    NamePosIsStable(t, u, name, o);
    ChunkPosIsStable(t, u, name, o);
    FindAt(u, name);
  }

  /** Replacing a body by itself changes nothing, unless the text ends right at the header's brace. */
  lemma GetPutIff(t: string, name: string)
    requires SameTarget(t, name)
    ensures FindFunctionBody(t, name).Some?
    ensures ReplaceFunctionBody(t, name, FindFunctionBody(t, name).value) == t
            <==> BodyStart(t, NamePos(t, name).value) < |t|
  {
    hide HeaderAt, NamePos, ChunkPos, FindFunctionBody, ReplaceFunctionBody, Spliced, BodyAt, Walk;
    var o := NamePos(t, name).value;
    FindAt(t, name);
    ReplaceAt(t, name, BodyAt(t, o));
    SpliceOwnBody(t, o);
  }

  lemma SpliceOwnBody(t: string, o: nat)
    requires o < |t| && HeaderAt(t[o..]).Some?
    ensures Spliced(t, o, BodyAt(t, o)) == t <==> BodyStart(t, o) < |t|
  {
    hide HeaderAt;
    var start := BodyStart(t, o);
    var body := BodyAt(t, o);
    if start < |t| {
      var w := Walk(t[start..], 1);
      assert body + FromClose(t, start) == t[start..];
      assert t[..start] + t[start..] == t;
    } else {
      assert |Spliced(t, o, body)| == |t| + 1;
    }
  }

  /** The second of two replacements wins; this needs no agreement with reading. */
  lemma PutPut(t: string, name: string, first: string, second: string)
    requires Balanced(first)
    ensures ReplaceFunctionBody(ReplaceFunctionBody(t, name, first), name, second)
            == ReplaceFunctionBody(t, name, second)
  {
    hide HeaderAt, Walk, Balanced;
    var pos := NamePos(t, name);
    ReplaceAt(t, name, first);
    ReplaceAt(t, name, second);
    if pos.Some? {
      var o := pos.value;
      var u := Spliced(t, o, first);
      SplicedBody(t, o, first);
      NamePosIsStable(t, u, name, o);
      ReplaceAt(u, name, second);
      assert u[..BodyStart(u, o)] == t[..BodyStart(t, o)];
    }
  }
}
