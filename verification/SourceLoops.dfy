/** The loops of the parser and of the patcher, proved against the recursive definitions. */
module SourceLoops {
  import opened Wrappers
  import opened SolidityText
  import opened FunctionBodies

  /** The depth-counting loop shared by reading and replacing; `i` ends one past the closing brace. */
  method WalkBody(source: string, start: nat) returns (i: nat)
    requires start <= |source|
    ensures start <= i <= |source|
    ensures i == start + Walk(source[start..], 1)
  {
    i := start;
    var depth := 1;
    while i < |source| && depth > 0
      invariant start <= i <= |source|
      invariant start + Walk(source[start..], 1) == i + Walk(source[i..], depth)
      decreases |source| - i
    {
      assert source[i..][1..] == source[i + 1..];
      depth := Nested(source[i], depth);
      i := i + 1;
    }
  }

  /** Leftmost header match from `from` on, as a sticky regex search finds it. */
  method NextHeader(source: string, from: nat) returns (at: nat, header: Option<Header>)
    requires from <= |source|
    ensures from <= at <= |source|
    ensures Chunks(source[from..]) == Chunks(source[at..])
    ensures header == if at == |source| then None else HeaderAt(source[at..])
    ensures header.None? <==> at == |source|
  {
    hide HeaderAt, BodyOf;
    at := from;
    while at < |source|
      invariant from <= at <= |source|
      invariant Chunks(source[from..]) == Chunks(source[at..])
    {
      header := HeaderAt(source[at..]);
      if header.Some? {
        return;
      }
      assert source[at..][1..] == source[at + 1..];
      at := at + 1;
    }
    header := None;
  }

  method ExtractFunctionChunks(source: string) returns (chunks: seq<Chunk>)
    ensures chunks == Chunks(source)
  {
    hide HeaderAt, Walk;
    chunks := [];
    var lastIndex := 0;
    assert source[0..] == source;
    while lastIndex < |source|
      invariant lastIndex <= |source|
      invariant chunks + Chunks(source[lastIndex..]) == Chunks(source)
    {
      var at, header := NextHeader(source, lastIndex);
      if header.None? {
        assert source[at..] == "";
        lastIndex := |source|;
        assert source[lastIndex..] == "";
      } else {
        var h := header.value;
        var start := at + h.length;
        var i := WalkBody(source, start);
        assert source[at..][h.length..] == source[start..];
        assert source[at..][..h.length] == source[at..start];
        var body := if start == |source| then "" else source[start..i - 1];
        assert body == BodyOf(source[start..]);
        chunks := chunks + [Chunk(h.name, source[at..start], body)];
        lastIndex := start;
      }
    }
    assert source[lastIndex..] == "";
  }

  /** The first match whose name is `fnName`. */
  method FindHeader(source: string, fnName: string) returns (at: Option<nat>)
    ensures at == NamePos(source, fnName)
  {
    hide HeaderAt;
    var i := 0;
    assert source[0..] == source;
    while i < |source|
      invariant i <= |source|
      invariant NamePos(source, fnName) ==
                match NamePos(source[i..], fnName)
                case None => None
                case Some(o) => Some(i + o)
    {
      var header := HeaderAt(source[i..]);
      if header.Some? && header.value.name == fnName {
        return Some(i);
      }
      assert source[i..][1..] == source[i + 1..];
      i := i + 1;
    }
    at := None;
  }

  method ReplaceBody(source: string, fnName: string, newBody: string) returns (out: string)
    ensures out == ReplaceFunctionBody(source, fnName, newBody)
  {
    hide HeaderAt, Walk, ReplaceFunctionBody, NamePos;
    ReplaceAt(source, fnName, newBody);
    var at := FindHeader(source, fnName);
    if at.None? {
      return source;
    }
    var start := BodyStart(source, at.value);
    var i := WalkBody(source, start);
    out := source[..start] + newBody + source[i - 1..];
  }
}
