/** Which listed functions are top-level: the list resumes right after each header. */
module NestedFunctions {
  import opened Wrappers
  import opened SolidityText
  import opened FunctionBodies
  import opened SourceEditing

  /** The offsets of the listed headers, from an offset on. */
  function Listed(t: string, o: nat): (r: seq<nat>)
    requires o <= |t|
    ensures forall p :: p in r ==> o <= p < |t| && HeaderAt(t[p..]).Some?
    decreases |t| - o
  {
    hide HeaderAt;
    if o == |t| then []
    else if HeaderAt(t[o..]).None? then Listed(t, o + 1)
    else [o] + Listed(t, BodyStart(t, o))
  }

  function ChunkAt(t: string, o: nat): Chunk
    requires o < |t| && HeaderAt(t[o..]).Some?
  {
    Chunk(HeaderAt(t[o..]).value.name, t[o..BodyStart(t, o)], BodyAt(t, o))
  }

  /** The list is that of the functions at these offsets. */
  lemma {:induction false} ListedChunks(t: string, o: nat)
    requires o <= |t|
    ensures |Chunks(t[o..])| == |Listed(t, o)|
    ensures forall k :: 0 <= k < |Listed(t, o)| ==> Listed(t, o)[k] in Listed(t, o)
    ensures forall k :: 0 <= k < |Listed(t, o)| ==> Chunks(t[o..])[k] == ChunkAt(t, Listed(t, o)[k])
    decreases |t| - o
  {
    hide HeaderAt, BodyOf, ChunkAt, Chunks;
    if o == |t| {
      NoChunks();
    } else if HeaderAt(t[o..]).None? {
      ChunkElsewhere(t, o);
      ListedChunks(t, o + 1);
    } else {
      ChunkHere(t, o);
      ListedChunks(t, BodyStart(t, o));
    }
  }

  lemma NoChunks()
    ensures Chunks("") == []
  {
  }

  lemma ChunkElsewhere(t: string, o: nat)
    requires o < |t| && HeaderAt(t[o..]).None?
    ensures Chunks(t[o..]) == Chunks(t[o + 1..])
  {
    hide HeaderAt, BodyOf;
    assert t[o..][1..] == t[o + 1..];
  }

  lemma ChunkHere(t: string, o: nat)
    requires o < |t| && HeaderAt(t[o..]).Some?
    ensures Chunks(t[o..]) == [ChunkAt(t, o)] + Chunks(t[BodyStart(t, o)..])
  {
    hide HeaderAt, BodyOf;
    var n := HeaderAt(t[o..]).value.length;
    assert t[o..][n..] == t[o + n..] && t[o..][..n] == t[o..o + n];
  }

  /** A position in the body of the function at an offset. */
  predicate Inside(t: string, o: nat, p: nat)
    requires o < |t| && HeaderAt(t[o..]).Some?
  {
    BodyStart(t, o) <= p < BodyStart(t, o) + |BodyAt(t, o)| && p < |t|
  }

  ghost predicate NoneInside(t: string, listed: seq<nat>)
    requires forall o :: o in listed ==> o < |t| && HeaderAt(t[o..]).Some?
  {
    forall o, p :: o in listed && p in listed ==> !Inside(t, o, p)
  }

  ghost predicate NoHeaderInside(t: string, listed: seq<nat>)
    requires forall o :: o in listed ==> o < |t| && HeaderAt(t[o..]).Some?
  {
    forall o: nat, p: nat :: o in listed && p < |t| && Inside(t, o, p) ==> HeaderAt(t[p..]).None?
  }

  /** The scan reaches the first header at or behind an offset. */
  lemma {:induction false} FirstIsListed(t: string, o: nat, p: nat) returns (q: nat)
    requires o <= p < |t| && HeaderAt(t[p..]).Some?
    ensures o <= q <= p && q in Listed(t, o)
    decreases p - o
  {
    hide HeaderAt;
    if HeaderAt(t[o..]).Some? {
      q := o;
    } else {
      q := FirstIsListed(t, o + 1, p);
    }
  }

  lemma {:induction false} ListedBehind(t: string, o: nat, p: nat)
    requires o <= |t| && p in Listed(t, o)
    ensures forall q :: q in Listed(t, BodyStart(t, p)) ==> q in Listed(t, o)
    decreases |t| - o
  {
    hide HeaderAt;
    if HeaderAt(t[o..]).None? {
      ListedBehind(t, o + 1, p);
    } else if p != o {
      ListedBehind(t, BodyStart(t, o), p);
    }
  }

  /** All listed functions are top-level exactly when no header starts inside the body of a listed one. */
  lemma TopLevelIff(t: string)
    ensures NoneInside(t, Listed(t, 0)) <==> NoHeaderInside(t, Listed(t, 0))
  {
    hide HeaderAt, Inside;
    var listed := Listed(t, 0);
    if NoneInside(t, listed) {
      forall o: nat, p: nat | o in listed && p < |t| && Inside(t, o, p)
        ensures HeaderAt(t[p..]).None?
      {
        if HeaderAt(t[p..]).Some? {
          assert BodyStart(t, o) <= p < |t| by { InsideIsBehind(t, o, p); }
          var q := FirstIsListed(t, BodyStart(t, o), p);
          ListedBehind(t, 0, o);
          InsideEarlier(t, o, q, p);
        }
      }
    }
  }

  lemma InsideIsBehind(t: string, o: nat, p: nat)
    requires o < |t| && HeaderAt(t[o..]).Some? && Inside(t, o, p)
    ensures BodyStart(t, o) <= p < |t|
  {
  }

  lemma InsideEarlier(t: string, o: nat, q: nat, p: nat)
    requires o < |t| && HeaderAt(t[o..]).Some? && Inside(t, o, p) && BodyStart(t, o) <= q <= p
    ensures Inside(t, o, q)
  {
  }

  // ---- A function inside another ----

  const OUTER := "function a(){"
  const INNER := "function b(){"

  lemma ShortHeader(t: string, name: string)
    requires t == "function " + name + "(){" && |name| == 1 && IsWord(name[0])
    ensures HeaderAt(t) == Some(Header(name, 10, 11, 13)) && |t| == 13
  {
    hide Skip, HeaderAt;
    assert FUNCTION == "function " [..8];
    assert t[..8] == "function "[..8] && t[8] == ' ' && t[9..10] == name && t[10..] == "(){";
    assert t[10] == "(){"[0] && t[11] == "(){"[1] && t[12] == "(){"[2];
    SkipIs(t, 8, IsSpace, 9);
    SkipIs(t, 9, IsWord, 10);
    SkipIs(t, 10, IsSpace, 10);
    SkipIs(t, 11, NotClosing, 11);
    SkipIs(t, 12, NotOpeningBrace, 12);
    ScannedIsMatch(t, 9, 10, Header(name, 10, 11, 13));
  }

  lemma WithRest(t: string, name: string, rest: string)
    requires t == "function " + name + "(){" && |name| == 1 && IsWord(name[0])
    ensures |t| == 13 && HeaderAt(t + rest) == Some(Header(name, 10, 11, 13))
  {
    hide HeaderAt;
    ShortHeader(t, name);
    HeaderIsLocal(t, t + rest, Header(name, 10, 11, 13));
  }

  /** The list of functions names the inner one beside the outer one, in whose body it is. */
  lemma NestedIsListed()
    ensures var t := OUTER + (INNER + "}" + "}");
            && Chunks(t) == [Chunk("a", OUTER, INNER + "}"), Chunk("b", INNER, "")]
            && !NoneInside(t, Listed(t, 0))
  {
    hide HeaderAt, Walk, BodyOf;
    var r := INNER + ("}" + "}");
    var t := OUTER + r;
    assert INNER + "}" + "}" == r;
    assert OUTER == "function " + "a" + "(){" && INNER == "function " + "b" + "(){";
    WithRest(OUTER, "a", r);
    WithRest(INNER, "b", "}" + "}");
    assert t[13..] == r && t[..13] == OUTER && r[13..] == "}}" && r[..13] == INNER;
    Bodies(r);
    Braces();
    assert Chunks(r) == [Chunk("b", INNER, "")];
    assert Chunks(t) == [Chunk("a", OUTER, INNER + "}")] + Chunks(r);
    assert t[0..] == t;
    assert Listed(t, 0) == [0] + Listed(t, 13);
    assert Listed(t, 13) == [13] + Listed(t, 26);
    assert 0 in Listed(t, 0) && 13 in Listed(t, 0) && Inside(t, 0, 13);
  }

  lemma Bodies(r: string)
    requires r == INNER + ("}" + "}")
    ensures BodyOf(r) == INNER + "}" && BodyOf("}}") == ""
  {
    hide Walk;
    assert Balanced(INNER + "}") by { InnerIsBalanced(); }
    var y := "}";
    assert INNER + "}" + y == r;
    WalkPast(INNER + "}", y, 1, 1);
    OneBrace("");
    assert "}" + "" == "}";
    assert r[..|INNER| + 1] == INNER + "}";
    OneBrace("}");
    assert "}" + "}" == "}}" && "}}"[..0] == "";
  }

  lemma OneBrace(rest: string)
    ensures Walk("}" + rest, 1) == 1
  {
    assert ("}" + rest)[1..] == rest;
  }

  lemma InnerIsBalanced()
    ensures Balanced(INNER + "}")
  {
    var a := "function b()";
    assert INNER + "}" == a + "{}";
    PlainKeepsDepth(a, "{}", 1);
    assert "{}"[1..] == "}" && "}"[1..] == "";
    assert After("}", 2) == After("", 1) == Some(1);
  }

  lemma {:induction false} PlainKeepsDepth(a: string, b: string, depth: nat)
    requires depth > 0 && forall i :: 0 <= i < |a| ==> a[i] != '{' && a[i] != '}'
    ensures After(a + b, depth) == After(b, depth)
  {
    if a == "" {
      assert a + b == b;
    } else {
      assert (a + b)[1..] == a[1..] + b;
      PlainKeepsDepth(a[1..], b, depth);
    }
  }

  lemma Braces()
    ensures Chunks("}}") == []
  {
    hide HeaderAt;
    assert HeaderAt("}}").None? && HeaderAt("}").None? by { BracesAreNoHeaders(); }
    assert "}}"[1..] == "}" && "}"[1..] == "";
    assert Chunks("}") == Chunks("");
  }

  lemma BracesAreNoHeaders()
    ensures HeaderAt("}}").None? && HeaderAt("}").None?
  {
    assert FUNCTION[0] == 'f';
  }
}
