/** What headers, bodies and declaration text are, without the scanner that finds them. */
module PlainReading {
  import opened Wrappers
  import opened SolidityText
  import opened FunctionBodies
  import opened SourceEditing
  import opened SourcePatches
  import opened PlainText
  import R = ReceiveBody

  // ---- Headers ----

  predicate Wordy(x: string) {
    x != "" && forall i :: 0 <= i < |x| ==>
                            'a' <= x[i] <= 'z' || 'A' <= x[i] <= 'Z' || '0' <= x[i] <= '9' || x[i] == '_'
  }

  /**
   * `function`, white space up to `s`, the name up to `e`, white space up to a parenthesis at `o`, the first closing
   * parenthesis behind it at `c`, and the first brace behind that at the end.
   */
  ghost predicate Declares(x: string, name: string, s: nat, e: nat, o: nat, c: nat) {
    && 8 < s < e <= o < c < |x| - 1 && x[..8] == "function" && Blank(x[8..s]) && x[s..e] == name && Wordy(name)
    && Blank(x[e..o]) && x[o] == '(' && ')' !in x[o + 1..c] && x[c] == ')' && '{' !in x[c + 1..|x| - 1]
    && x[|x| - 1] == '{'
  }

  ghost predicate IsHeader(x: string, name: string) {
    exists s, e, o, c :: Declares(x, name, s, e, o, c)
  }

  lemma HeaderPieces(t: string, s: nat, e: nat, h: Header)
    requires HeaderAt(t) == Some(h) && s == Skip(t, |FUNCTION|, IsSpace) && e == Skip(t, s, IsWord)
    ensures 8 < s < e <= h.open < h.close < h.length - 1 < |t| && h.name == t[s..e] && t[..8] == "function"
    ensures t[h.open] == '(' && t[h.close] == ')' && t[h.length - 1] == '{'
    ensures h.open == Skip(t, e, IsSpace) && h.close == Skip(t, h.open + 1, NotClosing)
    ensures h.length == Skip(t, h.close + 1, NotOpeningBrace) + 1
  {
    hide Skip;
    assert t[..8] == FUNCTION;
  }

  lemma HeaderIsDeclared(t: string)
    requires HeaderAt(t).Some?
    ensures IsHeader(t[..HeaderAt(t).value.length], HeaderAt(t).value.name)
  {
    hide Skip, HeaderAt;
    StartsWithFunction(t);
    var h := HeaderAt(t).value;
    var s := Skip(t, |FUNCTION|, IsSpace);
    var e := Skip(t, s, IsWord);
    HeaderPieces(t, s, e, h);
    var x := t[..h.length];
    assert x[..8] == t[..8] && x[s..e] == t[s..e];
    SpacesAre(t, 8, s, h.length);
    SpacesAre(t, e, h.open, h.length);
    WordIs(t, s, e);
    assert x[|x| - 1] == t[h.length - 1];
    assert Declares(x, h.name, s, e, h.open, h.close);
  }

  lemma StartsWithFunction(t: string)
    requires HeaderAt(t).Some?
    ensures FUNCTION <= t
  {
  }

  lemma SpacesAre(t: string, i: nat, j: nat, n: nat)
    requires i <= j <= n <= |t| && forall k :: i <= k < j ==> IsSpace(t[k])
    ensures Blank(t[..n][i..j])
  {
  }

  lemma WordIs(t: string, i: nat, j: nat)
    requires i < j <= |t| && forall k :: i <= k < j ==> IsWord(t[k])
    ensures Wordy(t[i..j])
  {
  }

  /** A text with a header in front is matched by exactly that header. */
  lemma DeclaredIsHeader(x: string, name: string, s: nat, e: nat, o: nat, c: nat, rest: string)
    requires Declares(x, name, s, e, o, c)
    ensures HeaderAt(x + rest) == Some(Header(name, o, c, |x|))
  {
    hide Skip, HeaderAt;
    var t := x + rest;
    assert t[..8] == x[..8] && t[s..e] == x[s..e];
    assert IsWord(name[0]) && x[s] == x[s..e][0];
    SkipsBlanks(x, rest, 8, s);
    SkipsWord(x, rest, s, e, o);
    SkipsBlanks(x, rest, e, o);
    SkipsTo(x, rest, o + 1, c, NotClosing);
    SkipsTo(x, rest, c + 1, |x| - 1, NotOpeningBrace);
    Matched(t, s, e, Header(name, o, c, |x|));
  }

  lemma SkipsBlanks(x: string, rest: string, i: nat, j: nat)
    requires i <= j < |x| && Blank(x[i..j]) && !IsSpace(x[j])
    ensures Skip(x + rest, i, IsSpace) == j
  {
    hide Skip;
    assert forall k :: i <= k < j ==> (x + rest)[k] == x[i..j][k - i];
    SkipIs(x + rest, i, IsSpace, j);
  }

  /** A name ends where white space or a parenthesis follows it. */
  lemma SkipsWord(x: string, rest: string, i: nat, j: nat, o: nat)
    requires i < j <= o < |x| && Wordy(x[i..j]) && Blank(x[j..o]) && x[o] == '('
    ensures Skip(x + rest, i, IsWord) == j
  {
    hide Skip;
    assert forall k :: i <= k < j ==> (x + rest)[k] == x[i..j][k - i];
    assert j < o ==> x[j] == x[j..o][0];
    SkipIs(x + rest, i, IsWord, j);
  }

  lemma SkipsTo(x: string, rest: string, i: nat, j: nat, p: char -> bool)
    requires i <= j < |x| && !p(x[j]) && forall c :: c in x[i..j] ==> p(c)
    ensures Skip(x + rest, i, p) == j
  {
    hide Skip;
    assert forall k :: i <= k < j ==> (x + rest)[k] == x[i..j][k - i] && x[i..j][k - i] in x[i..j];
    SkipIs(x + rest, i, p, j);
  }

  lemma Matched(t: string, s: nat, e: nat, h: Header)
    requires 8 < s < e <= h.open < h.close < h.length - 1 < |t| && t[..8] == "function" && t[s..e] == h.name
    requires s == Skip(t, 8, IsSpace) && e == Skip(t, s, IsWord) && h.open == Skip(t, e, IsSpace)
    requires t[h.open] == '(' && h.close == Skip(t, h.open + 1, NotClosing)
    requires h.length - 1 == Skip(t, h.close + 1, NotOpeningBrace)
    ensures HeaderAt(t) == Some(h)
  {
    hide Skip;
    assert FUNCTION <= t;
  }

  /** A header is matched at the start of a text exactly when the text starts with a declaration, of that name. */
  lemma HeaderIff(t: string, n: nat, name: string)
    requires n <= |t|
    ensures HeaderAt(t).Some? && HeaderAt(t).value.length == n && HeaderAt(t).value.name == name
            <==> IsHeader(t[..n], name)
  {
    hide HeaderAt, Declares;
    if HeaderAt(t).Some? {
      HeaderIsDeclared(t);
    }
    if IsHeader(t[..n], name) {
      var s, e, o, c :| Declares(t[..n], name, s, e, o, c);
      assert t[..n] + t[n..] == t;
      DeclaredIsHeader(t[..n], name, s, e, o, c, t[n..]);
    }
  }

  // ---- Bodies ----

  function Opens(x: string): nat {
    multiset(x)['{']
  }

  function Closes(x: string): nat {
    multiset(x)['}']
  }

  /** Every brace is closed, and none is closed that was not opened. */
  ghost predicate Nests(x: string) {
    Opens(x) == Closes(x) && forall k :: 0 <= k <= |x| ==> Closes(x[..k]) <= Opens(x[..k])
  }

  /** The same behind some braces already open. */
  ghost predicate StaysOpen(x: string, depth: int) {
    forall k :: 0 <= k <= |x| ==> Closes(x[..k]) < Opens(x[..k]) + depth
  }

  lemma CountFirst(c: char, x: string, k: nat)
    requires k <= |x|
    ensures Opens(([c] + x)[..k + 1]) == Opens(x[..k]) + (if c == '{' then 1 else 0)
    ensures Closes(([c] + x)[..k + 1]) == Closes(x[..k]) + (if c == '}' then 1 else 0)
  {
    assert ([c] + x)[..k + 1] == [c] + x[..k];
  }

  lemma StaysOpenStep(c: char, x: string, depth: nat)
    requires depth > 0
    ensures StaysOpen([c] + x, depth) <==> Nested(c, depth) > 0 && StaysOpen(x, Nested(c, depth))
  {
    var t, next := [c] + x, Nested(c, depth);
    assert t[..0] == "" && x[..0] == "";
    forall k | 0 <= k <= |x|
      ensures Closes(t[..k + 1]) - Opens(t[..k + 1]) - depth == Closes(x[..k]) - Opens(x[..k]) - next
    {
      CountFirst(c, x, k);
    }
    if StaysOpen(t, depth) {
      assert Closes(t[..0 + 1]) < Opens(t[..0 + 1]) + depth;
      forall k | 0 <= k <= |x|
        ensures Closes(x[..k]) < Opens(x[..k]) + next
      {
        assert Closes(t[..k + 1]) < Opens(t[..k + 1]) + depth;
      }
    }
    if next > 0 && StaysOpen(x, next) {
      forall k | 0 <= k <= |t|
        ensures Closes(t[..k]) < Opens(t[..k]) + depth
      {
        if k > 0 {
          assert Closes(x[..k - 1]) < Opens(x[..k - 1]) + next;
          assert t[..k - 1 + 1] == t[..k];
        }
      }
    }
  }

  /** The depth after a text is a count of braces, as long as it stays positive. */
  lemma {:induction false} AfterIff(x: string, depth: nat)
    requires depth > 0
    ensures After(x, depth).Some? <==> StaysOpen(x, depth)
    ensures After(x, depth).Some? ==> After(x, depth).value == depth + Opens(x) - Closes(x)
  {
    if x == "" {
      assert x[..0] == "";
    } else {
      var c, rest := x[0], x[1..];
      assert x == [c] + rest;
      StaysOpenStep(c, rest, depth);
      CountFirst(c, rest, |rest|);
      assert ([c] + rest)[..|rest| + 1] == x && rest[..|rest|] == rest;
      if Nested(c, depth) > 0 {
        AfterIff(rest, Nested(c, depth));
      }
    }
  }

  lemma BalancedIff(x: string)
    ensures Balanced(x) <==> Nests(x)
  {
    hide After;
    AfterIff(x, 1);
    if Nests(x) {
      forall k | 0 <= k <= |x|
        ensures Closes(x[..k]) < Opens(x[..k]) + 1
      {
      }
    }
    if StaysOpen(x, 1) {
      forall k | 0 <= k <= |x|
        ensures Closes(x[..k]) <= Opens(x[..k])
      {
        assert Closes(x[..k]) < Opens(x[..k]) + 1;
      }
    }
  }

  /** The body read behind a header is the nested text up to the brace that closes it. */
  lemma BodyIsNested(x: string, rest: string)
    requires Nests(x)
    ensures BodyOf(x + ("}" + rest)) == x && Closed(x + ("}" + rest), 1)
  {
    hide Walk, Closed;
    BalancedIff(x);
    WalkPast(x, "}" + rest, 1, 1);
    BraceCloses(rest);
    ClosedPast(x, "}" + rest);
    assert (x + ("}" + rest))[..|x|] == x;
  }

  lemma BraceCloses(rest: string)
    ensures Walk("}" + rest, 1) == 1 && Closed("}" + rest, 1)
  {
    assert ("}" + rest)[1..] == rest;
  }

  lemma {:induction false} ClosedPast(x: string, rest: string)
    requires Balanced(x) && Closed(rest, 1)
    ensures Closed(x + rest, 1)
  {
    ClosedFrom(x, rest, 1);
  }

  lemma {:induction false} ClosedFrom(x: string, rest: string, depth: nat)
    requires depth > 0 && After(x, depth).Some? && After(x, depth).value > 0 && Closed(rest, After(x, depth).value)
    ensures Closed(x + rest, depth)
  {
    if x == "" {
      assert x + rest == rest;
    } else {
      assert (x + rest)[1..] == x[1..] + rest;
      ClosedFrom(x[1..], rest, Nested(x[0], depth));
    }
  }

  /** A body is closed exactly when the text is nested text, a closing brace and more. */
  lemma ClosedIff(t: string)
    ensures Closed(t, 1) <==> exists n :: 0 <= n < |t| && t[n] == '}' && Nests(t[..n])
  {
    hide Walk, Closed, Nests;
    if Closed(t, 1) {
      var n := ClosedAt(t);
    }
    if exists n :: 0 <= n < |t| && t[n] == '}' && Nests(t[..n]) {
      var n :| 0 <= n < |t| && t[n] == '}' && Nests(t[..n]);
      assert t == t[..n] + ("}" + t[n + 1..]);
      BodyIsNested(t[..n], t[n + 1..]);
    }
  }

  lemma ClosedAt(t: string) returns (n: nat)
    requires Closed(t, 1)
    ensures n < |t| && t[n] == '}' && Nests(t[..n])
  {
    hide Closed, Nests, After;
    ClosedBody(t, 1);
    R.EndsInBrace(t, 1);
    n := Walk(t, 1) - 1;
    BalancedIff(t[..n]);
  }

  /** A body that is never closed is read to the end of the text, less its last character. */
  lemma UnclosedBody(t: string)
    requires !Closed(t, 1) && t != ""
    ensures BodyOf(t) == t[..|t| - 1]
  {
    UnclosedWalk(t, 1);
  }

  lemma {:induction false} UnclosedWalk(t: string, depth: nat)
    requires !Closed(t, depth)
    ensures Walk(t, depth) == |t|
  {
    if t != "" {
      UnclosedWalk(t[1..], Nested(t[0], depth));
    }
  }

  // ---- Declaration text ----

  lemma {:induction false} DepthCounts(t: string)
    ensures Depth(t) == Opens(t) - Closes(t)
  {
    if t != "" {
      var c, rest := t[0], t[1..];
      assert t == [c] + rest;
      DepthCounts(rest);
      CountFirst(c, rest, |rest|);
      assert ([c] + rest)[..|rest| + 1] == t && rest[..|rest|] == rest;
    }
  }

  /** A character is declaration text exactly when it is no brace and one brace is open in front of it. */
  lemma DeclarationTextIs(t: string, c: char)
    ensures DeclarationRegion("") == ""
    ensures DeclarationRegion(t + [c])
            == DeclarationRegion(t) + (if c != '{' && c != '}' && Opens(t) - Closes(t) == 1 then [c] else "")
  {
    RegionAppend(t, [c], 0);
    DepthCounts(t);
    assert [c][1..] == "";
  }

  // ---- First matches ----

  /** Replacing edits behind the first header of the name, wherever in the text it stands. */
  lemma {:induction false} FirstOfName(t: string, name: string, o: nat)
    requires o < |t| && HeaderAt(t[o..]).Some? && HeaderAt(t[o..]).value.name == name
    requires forall i :: 0 <= i < o ==> HeaderAt(t[i..]).Some? ==> HeaderAt(t[i..]).value.name != name
    ensures NamePos(t, name) == Some(o)
  {
    hide HeaderAt;
    assert t[0..] == t;
    if o > 0 {
      assert forall i :: 0 <= i < |t[1..]| ==> t[1..][i..] == t[i + 1..];
      FirstOfName(t[1..], name, o - 1);
    }
  }

  lemma {:induction false} NoneOfName(t: string, name: string)
    requires forall i :: 0 <= i < |t| ==> HeaderAt(t[i..]).Some? ==> HeaderAt(t[i..]).value.name != name
    ensures NamePos(t, name).None?
  {
    hide HeaderAt;
    if t != "" {
      assert t[0..] == t;
      assert forall i :: 0 <= i < |t[1..]| ==> t[1..][i..] == t[i + 1..];
      NoneOfName(t[1..], name);
    }
  }

  // ---- receive() ----

  /** `receive`, parentheses with only white space in and before them, and anything up to a brace. */
  ghost predicate Receiving(x: string, o: nat, c: nat) {
    && 7 <= o < c < |x| - 1 && x[..7] == "receive" && Blank(x[7..o]) && x[o] == '(' && Blank(x[o + 1..c])
    && x[c] == ')' && '{' !in x[c + 1..|x| - 1] && x[|x| - 1] == '{'
  }

  lemma ReceiveIff(t: string, n: nat)
    requires n <= |t|
    ensures R.ReceiveAt(t) == Some(n) <==> exists o, c :: Receiving(t[..n], o, c)
  {
    hide R.ReceiveAt, Receiving;
    if R.ReceiveAt(t) == Some(n) {
      var o, c := ReceivePieces(t);
    }
    if exists o, c :: Receiving(t[..n], o, c) {
      var o, c :| Receiving(t[..n], o, c);
      assert t[..n] + t[n..] == t;
      ReceivingIsHead(t[..n], o, c, t[n..]);
    }
  }

  lemma ReceivePieces(t: string) returns (o: nat, c: nat)
    requires R.ReceiveAt(t).Some?
    ensures Receiving(t[..R.ReceiveAt(t).value], o, c)
  {
    hide Skip;
    var n := R.ReceiveAt(t).value;
    o := Skip(t, 7, IsSpace);
    c := Skip(t, o + 1, IsSpace);
    assert t[..7] == R.RECEIVE;
    SpacesAre(t, 7, o, n);
    SpacesAre(t, o + 1, c, n);
    assert t[..n][..7] == t[..7];
  }

  lemma ReceivingIsHead(x: string, o: nat, c: nat, rest: string)
    requires Receiving(x, o, c)
    ensures R.ReceiveAt(x + rest) == Some(|x|)
  {
    hide Skip;
    var t := x + rest;
    assert t[..7] == x[..7];
    SkipsBlanks(x, rest, 7, o);
    SkipsBlanks(x, rest, o + 1, c);
    SkipsTo(x, rest, c + 1, |x| - 1, NotOpeningBrace);
  }

  // ---- Reading and replacing, from the text alone ----

  /** A header of `n` characters stands at `o`, and none before it. */
  ghost predicate FirstDeclared(t: string, name: string, o: nat, n: nat) {
    && o < |t| && o + n <= |t| && IsHeader(t[o..o + n], name)
    && forall i, m, other :: 0 <= i < o && 0 <= m <= |t| - i ==> !IsHeader(t[i..][..m], other)
  }

  lemma HeaderThere(t: string, o: nat, n: nat, name: string)
    requires o + n <= |t| && IsHeader(t[o..o + n], name)
    ensures HeaderAt(t[o..]).Some? && HeaderAt(t[o..]).value.length == n && HeaderAt(t[o..]).value.name == name
  {
    hide HeaderAt, IsHeader;
    assert t[o..][..n] == t[o..o + n];
    HeaderIff(t[o..], n, name);
  }

  lemma NoHeaderThere(t: string, o: nat)
    requires o <= |t| && forall m, other :: 0 <= m <= |t| - o ==> !IsHeader(t[o..][..m], other)
    ensures HeaderAt(t[o..]).None?
  {
    hide HeaderAt, IsHeader;
    if HeaderAt(t[o..]).Some? {
      HeaderIff(t[o..], HeaderAt(t[o..]).value.length, HeaderAt(t[o..]).value.name);
    }
  }

  /** The first function listed is the one with the first header, and listing goes on right behind that header. */
  lemma {:induction false} FirstListed(t: string, name: string, o: nat, n: nat)
    requires FirstDeclared(t, name, o, n)
    ensures Chunks(t) == [Chunk(name, t[o..o + n], BodyOf(t[o + n..]))] + Chunks(t[o + n..])
    decreases o
  {
    hide HeaderAt, IsHeader, BodyOf;
    assert t[0..] == t;
    if o == 0 {
      HeaderThere(t, 0, n, name);
    } else {
      NoHeaderThere(t, 0);
      var rest := t[1..];
      assert forall i :: 0 <= i <= |rest| ==> rest[i..] == t[i + 1..];
      assert rest[o - 1..o - 1 + n] == t[o..o + n];
      FirstListed(rest, name, o - 1, n);
    }
  }

  lemma {:induction false} NothingListed(t: string)
    requires forall i, m, other :: 0 <= i < |t| && 0 <= m <= |t| - i ==> !IsHeader(t[i..][..m], other)
    ensures Chunks(t) == []
  {
    hide HeaderAt, IsHeader;
    if t != "" {
      assert t[0..] == t;
      NoHeaderThere(t, 0);
      assert forall i :: 0 <= i <= |t[1..]| ==> t[1..][i..] == t[i + 1..];
      NothingListed(t[1..]);
    }
  }

  /** Reading takes the first listed function of the name. */
  lemma {:induction false} FoundFirst(chunks: seq<Chunk>, name: string, k: nat)
    requires k < |chunks| && chunks[k].name == name && forall i :: 0 <= i < k ==> chunks[i].name != name
    ensures FirstNamed(chunks, name) == Some(chunks[k].body)
  {
    if k > 0 {
      FoundFirst(chunks[1..], name, k - 1);
    }
  }

  lemma {:induction false} FoundNone(chunks: seq<Chunk>, name: string)
    requires forall i :: 0 <= i < |chunks| ==> chunks[i].name != name
    ensures FirstNamed(chunks, name) == None
  {
    if chunks != [] {
      FoundNone(chunks[1..], name);
    }
  }

  lemma ReadFirst(t: string, name: string, k: nat)
    requires k < |Chunks(t)| && Chunks(t)[k].name == name && forall i :: 0 <= i < k ==> Chunks(t)[i].name != name
    ensures FindFunctionBody(t, name) == Some(Chunks(t)[k].body)
  {
    hide Chunks;
    FoundFirst(Chunks(t), name, k);
  }

  lemma ReadNone(t: string, name: string)
    requires forall i :: 0 <= i < |Chunks(t)| ==> Chunks(t)[i].name != name
    ensures FindFunctionBody(t, name) == None
  {
    hide Chunks;
    FoundNone(Chunks(t), name);
  }

  /**
   * Replacing exchanges the nested text behind the first header of the name, up to the brace that closes it. Of a
   * body that is never closed only the last character stays.
   */
  lemma {:induction false} ReplacedIs(t: string, name: string, o: nat, n: nat, b: string)
    requires o < |t| && o + n <= |t| && IsHeader(t[o..o + n], name)
    requires forall i, m :: 0 <= i < o && 0 <= m <= |t| - i ==> !IsHeader(t[i..][..m], name)
    ensures forall x, rest :: Nests(x) && t[o + n..] == x + ("}" + rest) ==>
                                ReplaceFunctionBody(t, name, b) == t[..o + n] + b + ("}" + rest)
    ensures !Closed(t[o + n..], 1) && o + n < |t| ==>
              ReplaceFunctionBody(t, name, b) == t[..o + n] + b + t[|t| - 1..]
    decreases o, 1
  {
    hide HeaderAt, IsHeader, Nests, Walk, Closed;
    assert t[0..] == t;
    if o == 0 {
      HeaderThere(t, 0, n, name);
      forall x, rest | Nests(x) && t[n..] == x + ("}" + rest)
        ensures FromClose(t, n) == "}" + rest
      {
        ClosedFromBrace(t, n, x, rest);
      }
      if !Closed(t[n..], 1) && n < |t| {
        UnclosedWalk(t[n..], 1);
      }
    } else {
      NotHere(t, name);
      ReplacedLater(t, name, o, n, b);
    }
  }

  lemma ClosedFromBrace(t: string, n: nat, x: string, rest: string)
    requires 0 < n <= |t| && Nests(x) && t[n..] == x + ("}" + rest)
    ensures FromClose(t, n) == "}" + rest
  {
    hide Walk, Nests, Closed;
    BodyIsNested(x, rest);
    var w := Walk(t[n..], 1);
    assert |t[n..][..w - 1]| == |x|;
    assert t[n + w - 1..] == t[n..][w - 1..];
  }

  /** No header of the name stands at the start. */
  lemma NotHere(t: string, name: string)
    requires t != "" && forall m :: 0 <= m <= |t| ==> !IsHeader(t[0..][..m], name)
    ensures HeaderAt(t).Some? ==> HeaderAt(t).value.name != name
  {
    hide HeaderAt, IsHeader;
    assert t[0..] == t;
    if HeaderAt(t).Some? {
      HeaderIff(t, HeaderAt(t).value.length, HeaderAt(t).value.name);
    }
  }

  lemma {:induction false} ReplacedLater(t: string, name: string, o: nat, n: nat, b: string)
    requires 0 < o < |t| && o + n <= |t| && IsHeader(t[o..o + n], name)
    requires forall i, m :: 0 <= i < o && 0 <= m <= |t| - i ==> !IsHeader(t[i..][..m], name)
    requires HeaderAt(t).Some? ==> HeaderAt(t).value.name != name
    ensures forall x, rest :: Nests(x) && t[o + n..] == x + ("}" + rest) ==>
                                ReplaceFunctionBody(t, name, b) == t[..o + n] + b + ("}" + rest)
    ensures !Closed(t[o + n..], 1) && o + n < |t| ==>
              ReplaceFunctionBody(t, name, b) == t[..o + n] + b + t[|t| - 1..]
    decreases o, 0
  {
    hide HeaderAt, IsHeader, Nests, Walk, Closed;
    var u := t[1..];
    assert forall i :: 0 <= i <= |u| ==> u[i..] == t[i + 1..];
    assert u[o - 1..o - 1 + n] == t[o..o + n];
    ReplacedIs(u, name, o - 1, n, b);
    OneMoreInFront(t, o + n);
    var front := u[..o - 1 + n];
    assert ReplaceFunctionBody(t, name, b) == [t[0]] + ReplaceFunctionBody(u, name, b);
    hide ReplaceFunctionBody;
    forall x, rest | Nests(x) && t[o + n..] == x + ("}" + rest)
      ensures ReplaceFunctionBody(t, name, b) == t[..o + n] + b + ("}" + rest)
    {
      InFront(t[0], front, b, "}" + rest);
    }
    InFront(t[0], front, b, t[|t| - 1..]);
  }

  lemma OneMoreInFront(t: string, n: nat)
    requires 0 < n <= |t| && |t| > 1
    ensures [t[0]] + t[1..][..n - 1] == t[..n] && t[1..][|t[1..]| - 1..] == t[|t| - 1..]
  {
  }

  lemma InFront(c: char, front: string, b: string, rest: string)
    ensures [c] + (front + b + rest) == ([c] + front) + b + rest
  {
  }

  lemma {:induction false} ReplacedNowhere(t: string, name: string, b: string)
    requires forall i, m :: 0 <= i < |t| && 0 <= m <= |t| - i ==> !IsHeader(t[i..][..m], name)
    ensures ReplaceFunctionBody(t, name, b) == t
  {
    hide HeaderAt, IsHeader;
    if t != "" {
      NotHere(t, name);
      assert forall i :: 0 <= i <= |t[1..]| ==> t[1..][i..] == t[i + 1..];
      ReplacedNowhere(t[1..], name, b);
      assert [t[0]] + t[1..] == t;
    }
  }

  ghost predicate IsReceive(x: string) {
    exists o, c :: Receiving(x, o, c)
  }

  /** The body of `receive` is the text behind its first head. */
  lemma {:induction false} FirstReceive(t: string, o: nat, n: nat)
    requires o < |t| && o + n <= |t| && IsReceive(t[o..o + n])
    requires forall i, m :: 0 <= i < o && 0 <= m <= |t| - i ==> !IsReceive(t[i..][..m])
    ensures R.ReceivePos(t) == Some(o) && R.ReceiveBody(t) == BodyOf(t[o + n..])
  {
    hide R.ReceiveAt, R.ReceivePos, IsReceive, BodyOf;
    ReceiveThere(t, o, n);
    FirstReceivePos(t, o, n);
  }

  lemma ReceiveThere(t: string, o: nat, n: nat)
    requires o + n <= |t| && IsReceive(t[o..o + n])
    ensures R.ReceiveAt(t[o..]) == Some(n)
  {
    hide R.ReceiveAt, Receiving;
    ReceiveIff(t[o..], n);
    assert t[o..][..n] == t[o..o + n];
  }

  lemma {:induction false} FirstReceivePos(t: string, o: nat, n: nat)
    requires o < |t| && R.ReceiveAt(t[o..]) == Some(n)
    requires forall i, m :: 0 <= i < o && 0 <= m <= |t| - i ==> !IsReceive(t[i..][..m])
    ensures R.ReceivePos(t) == Some(o)
  {
    hide R.ReceiveAt, IsReceive;
    assert t[0..] == t;
    if o > 0 {
      NoReceiveHere(t);
      assert forall i :: 0 <= i <= |t[1..]| ==> t[1..][i..] == t[i + 1..];
      FirstReceivePos(t[1..], o - 1, n);
    }
  }

  lemma NoReceiveHere(t: string)
    requires t != "" && forall m :: 0 <= m <= |t| ==> !IsReceive(t[0..][..m])
    ensures R.ReceiveAt(t).None?
  {
    hide R.ReceiveAt, Receiving;
    assert t[0..] == t;
    if R.ReceiveAt(t).Some? {
      ReceiveIff(t, R.ReceiveAt(t).value);
    }
  }

  lemma {:induction false} NoReceive(t: string)
    requires forall i, m :: 0 <= i < |t| && 0 <= m <= |t| - i ==> !IsReceive(t[i..][..m])
    ensures R.ReceiveBody(t) == ""
  {
    hide R.ReceiveAt, Receiving;
    if t != "" {
      NoReceiveHere(t);
      assert forall i :: 0 <= i <= |t[1..]| ==> t[1..][i..] == t[i + 1..];
      NoReceive(t[1..]);
    }
  }
}
