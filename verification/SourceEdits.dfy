/** The edits of the patches, done on parts: a body exchanged, a text inserted, a header rewritten. */
module SourceEdits {
  import opened Wrappers
  import opened SolidityText
  import opened Patterns
  import opened FunctionHeads
  import opened Insertions
  import opened FunctionBodies
  import opened SourcePatches
  import opened SourceParts
  import opened SourceTests
  import opened PatchTexts

  function Content(p: Part): string {
    match p
    case Outside(x) => x
    case Declared(_, _, body) => body
  }

  function WithContent(p: Part, x: string): Part {
    match p
    case Outside(_) => Outside(x)
    case Declared(name, header, _) => Declared(name, header, x)
  }

  lemma OnePartOk(parts: seq<Part>, k: nat, p: Part)
    requires WellFormed(parts) && k < |parts| && PartOk(p) && (p.Declared? <==> parts[k].Declared?)
    ensures WellFormed(parts[k := p])
  {
  }

  // ---- One body exchanged ----

  lemma {:induction false} WithBodyAt(parts: seq<Part>, name: string, b: string) returns (k: nat)
    requires BodyIn(parts, name).Some?
    ensures k < |parts| && parts[k].Declared? && parts[k].name == name && Some(parts[k].body) == BodyIn(parts, name)
    ensures WithBody(parts, name, b) == parts[k := parts[k].(body := b)]
  {
    if parts[0].Declared? && parts[0].name == name {
      k := 0;
    } else {
      k := WithBodyAt(parts[1..], name, b);
      assert parts[1..][k] == parts[k + 1];
      k := k + 1;
    }
  }

  lemma {:induction false} BodiesAfter(parts: seq<Part>, name: string, b: string, other: string)
    ensures BodyIn(WithBody(parts, name, b), other)
            == if other == name && BodyIn(parts, name).Some? then Some(b) else BodyIn(parts, other)
  {
    if parts != [] {
      BodiesAfter(parts[1..], name, b, other);
      var after := WithBody(parts, name, b);
      if parts[0].Declared? && parts[0].name == name {
        assert after[1..] == parts[1..];
      } else {
        assert after[1..] == WithBody(parts[1..], name, b);
      }
    }
  }

  lemma WithBodyOk(parts: seq<Part>, name: string, b: string)
    requires WellFormed(parts) && BodyIn(parts, name).Some? && TextOk(b) && Balanced(b)
    ensures WellFormed(WithBody(parts, name, b))
  {
    hide WellFormed, TextOk, Balanced, HeaderOk;
    var k := WithBodyAt(parts, name, b);
    BodyOk(parts, k);
    OnePartOk(parts, k, parts[k].(body := b));
  }

  lemma BodyOk(parts: seq<Part>, k: nat)
    requires WellFormed(parts) && k < |parts|
    ensures PartOk(parts[k])
  {
  }

  /** `Patch`, on parts. */
  function PatchParts(parts: seq<Part>, name: string, done: string -> bool, edit: string -> string): seq<Part> {
    match BodyIn(parts, name)
    case None => parts
    case Some(b) => if b == "" || done(b) then parts else WithBody(parts, name, edit(b))
  }

  lemma PatchInRender(parts: seq<Part>, name: string, done: string -> bool, edit: string -> string)
    requires WellFormed(parts)
    ensures Patch(Render(parts), name, done, edit) == Render(PatchParts(parts, name, done, edit))
  {
    hide WellFormed, ReplaceFunctionBody, FindFunctionBody, Render, WithBody;
    FindInRender(parts, name);
    var b := BodyIn(parts, name);
    if b.Some? {
      ReplaceInRender(parts, name, edit(b.value));
    }
  }

  // ---- One text inserted ----

  function InsertParts(k: Target, parts: seq<Part>, text: string): seq<Part> {
    if parts == [] then []
    else if First(k, Content(parts[0])).Some? then
      [WithContent(parts[0], InsertFirst(k, Content(parts[0]), text))] + parts[1..]
    else [parts[0]] + InsertParts(k, parts[1..], text)
  }

  lemma NoTargetStarts(k: Target, c: char, rest: string)
    requires c == '{' || c == '}' || c == 'f'
    ensures First(k, [c] + rest) == Behind(First(k, rest), 1)
  {
    var t := [c] + rest;
    assert t[1..] == rest && t[0] == c;
    assert Locate(k, t).None? by {
      NoneStarts(t);
    }
    hide Locate;
  }

  lemma NoneStarts(t: string)
    requires t != "" && (t[0] == '{' || t[0] == '}' || t[0] == 'f')
    ensures At(ENTRANTS, t).None? && At(PUBLIC_ENTRANTS, t).None? && At(OPENING, t).None?
  {
    hide At;
    TargetsAreValid();
    if At(ENTRANTS, t).Some? {
      StartsWithFirst(ENTRANTS, t);
    }
    if At(PUBLIC_ENTRANTS, t).Some? {
      StartsWithFirst(PUBLIC_ENTRANTS, t);
    }
    if At(OPENING, t).Some? {
      StartsWithFirst(OPENING, t);
    }
  }

  /** Behind a brace the search goes on. */
  lemma InsertBehind(k: Target, c: char, rest: string, text: string)
    requires c == '{' || c == '}'
    ensures InsertFirst(k, [c] + rest, text) == [c] + InsertFirst(k, rest, text)
  {
    hide First;
    NoTargetStarts(k, c, rest);
    if First(k, rest).Some? {
      InsertLate([c], rest, First(k, rest).value, text);
    }
  }

  lemma {:induction false} NoTargetIn(k: Target, x: string)
    requires ';' !in x && '"' !in x
    ensures First(k, x).None?
  {
    hide At;
    if x != "" {
      NoTargetIn(k, x[1..]);
      NoTargetHere(k, x);
    }
  }

  lemma NoTargetHere(k: Target, x: string)
    requires ';' !in x && '"' !in x
    ensures Locate(k, x).None?
  {
    hide At;
    TargetsAreValid();
    if At(ENTRANTS, x).Some? {
      AtEnds(ENTRANTS, x);
    }
    if At(PUBLIC_ENTRANTS, x).Some? {
      AtEnds(PUBLIC_ENTRANTS, x);
    }
    if At(OPENING, x).Some? {
      AtEnds(OPENING, x);
    }
  }

  lemma QuotedWithout(x: string)
    requires '"' !in x
    ensures Quoted(x)
  {
    hide At, Closes;
    TargetsAreValid();
    forall i | 0 <= i <= |x|
      ensures At(OPENING, x[i..]).None?
    {
      if At(OPENING, x[i..]).Some? {
        AtEnds(OPENING, x[i..]);
      }
    }
  }

  lemma InsertInFunction(k: Target, d: Part, rest: string, text: string)
    requires d.Declared? && PartOk(d)
    ensures InsertFirst(k, Text(d) + rest, text)
            == if First(k, d.body).Some? then Text(d.(body := InsertFirst(k, d.body, text))) + rest
               else Text(d) + InsertFirst(k, rest, text)
  {
    hide HeaderAt, First, Balanced, Quoted, InsertFirst, Found, Separate;
    var inside := d.body + ("}" + rest);
    InsertPastHeader(k, d.name, d.header, inside, text);
    DelimitedIsSeparate(d.body, "}" + rest);
    InsertInContext(k, d.body, "}" + rest, text);
    InsertBehind(k, '}', rest, text);
    assert Text(d) + rest == d.header + inside;
    if First(k, d.body).Some? {
      var x := InsertFirst(k, d.body, text);
      assert d.header + (x + ("}" + rest)) == d.header + (x + "}") + rest;
    } else {
      var x := InsertFirst(k, rest, text);
      assert d.header + (d.body + ("}" + x)) == d.header + (d.body + "}") + x;
    }
  }

  lemma InsertPastHeader(k: Target, name: string, header: string, inside: string, text: string)
    requires HeaderOk(name, header)
    ensures InsertFirst(k, header + inside, text) == header + InsertFirst(k, inside, text)
  {
    hide HeaderAt, First, Quoted, InsertFirst, Found, Separate;
    HeaderHasShape(header);
    var h := header[..|header| - 1];
    assert header == h + "{" && header + inside == h + ("{" + inside);
    assert ';' !in h && '"' !in h;
    NoTargetIn(k, h);
    QuotedWithout(h);
    DelimitedIsSeparate(h, "{" + inside);
    InsertInContext(k, h, "{" + inside, text);
    InsertBehind(k, '{', inside, text);
  }

  /** Inserting at the first match of the text is inserting in the first part that has one. */
  lemma {:induction false} InsertInRender(k: Target, parts: seq<Part>, text: string)
    requires WellFormed(parts)
    ensures InsertFirst(k, Render(parts), text) == Render(InsertParts(k, parts, text))
  {
    hide First, WellFormed, Quoted, Found, HeaderOk, Balanced, Separate;
    if parts == [] {
      NothingInserted(k, text);
    } else {
      hide InsertFirst;
      Tail(parts);
      var p, rest := parts[0], Render(parts[1..]);
      InsertInRender(k, parts[1..], text);
      if p.Outside? {
        RenderIsDelimited(parts);
        DelimitedIsSeparate(p.text, rest);
        InsertInContext(k, p.text, rest, text);
      } else {
        InsertInFunction(k, p, rest, text);
      }
      RenderOne(k, parts, text);
    }
  }

  lemma NothingInserted(k: Target, text: string)
    ensures InsertFirst(k, "", text) == ""
  {
  }

  lemma RenderOne(k: Target, parts: seq<Part>, text: string)
    requires parts != []
    ensures var p := parts[0];
            Render(InsertParts(k, parts, text))
            == if First(k, Content(p)).Some? then
                 Text(WithContent(p, InsertFirst(k, Content(p), text))) + Render(parts[1..])
               else Text(p) + Render(InsertParts(k, parts[1..], text))
  {
    hide First, InsertFirst, Text;
    var q := InsertParts(k, parts, text);
    if First(k, Content(parts[0])).Some? {
      assert q[1..] == parts[1..];
    } else {
      assert q[1..] == InsertParts(k, parts[1..], text);
    }
  }

  /** The part that takes the text. */
  lemma {:induction false} InsertedAt(k: Target, parts: seq<Part>, text: string) returns (at: Option<nat>)
    ensures at.None? ==> InsertParts(k, parts, text) == parts
                         && forall i :: 0 <= i < |parts| ==> First(k, Content(parts[i])).None?
    ensures at.Some? ==> at.value < |parts| && First(k, Content(parts[at.value])).Some?
                         && InsertParts(k, parts, text)
                            == parts[at.value := WithContent(parts[at.value],
                                                             InsertFirst(k, Content(parts[at.value]), text))]
  {
    hide First, InsertFirst, Content, WithContent;
    if parts == [] {
      at := None;
    } else if First(k, Content(parts[0])).Some? {
      at := Some(0);
    } else {
      at := InsertedAt(k, parts[1..], text);
      if at.Some? {
        var p := parts[1..][at.value];
        UpdateBehind(parts, at.value, WithContent(p, InsertFirst(k, Content(p), text)));
        at := Some(at.value + 1);
      } else {
        assert forall i :: 0 < i < |parts| ==> parts[i] == parts[1..][i - 1];
      }
    }
  }

  lemma UpdateBehind(parts: seq<Part>, i: nat, q: Part)
    requires parts != [] && i < |parts[1..]|
    ensures parts[1..][i] == parts[i + 1] && [parts[0]] + parts[1..][i := q] == parts[i + 1 := q]
  {
  }
}
