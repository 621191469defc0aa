/** The headers of well-formed source after the patches: only the first open header of `enter` is rewritten. */
module PatchHeaders {
  import opened Wrappers
  import opened SolidityText
  import opened Patterns
  import opened FunctionHeads
  import opened Insertions
  import opened FunctionBodies
  import opened SourceParts
  import opened SourceTests
  import opened SourceEdits
  import opened EnterModifier
  import opened PatchTexts
  import opened DisclosurePatch
  import opened CommonPatches
  import opened PlainText
  import opened PatchTests
  import opened PatchPlaces
  import opened PatchSequence

  ghost predicate SameHeads(cs: seq<Chunk>, ds: seq<Chunk>) {
    |cs| == |ds| && forall k :: 0 <= k < |cs| ==> cs[k].name == ds[k].name && cs[k].header == ds[k].header
  }

  lemma SameAgain(cs: seq<Chunk>, ds: seq<Chunk>, es: seq<Chunk>)
    requires SameHeads(cs, ds) && SameHeads(ds, es)
    ensures SameHeads(cs, es)
  {
  }

  lemma SameHeadsBehind(c: Chunk, cs: seq<Chunk>, ds: seq<Chunk>)
    requires SameHeads(cs, ds)
    ensures SameHeads([c] + cs, [c] + ds)
  {
  }

  lemma {:induction false} HeadsAfterInsert(k: Target, parts: seq<Part>, text: string)
    ensures SameHeads(ChunksOf(parts), ChunksOf(InsertParts(k, parts, text)))
  {
    hide First, InsertFirst;
    if parts != [] {
      HeadsAfterInsert(k, parts[1..], text);
      var after := InsertParts(k, parts, text);
      if First(k, Content(parts[0])).Some? {
        assert after[1..] == parts[1..];
      } else {
        assert after[1..] == InsertParts(k, parts[1..], text);
      }
    }
  }

  lemma {:induction false} HeadsAfterBody(parts: seq<Part>, name: string, b: string)
    ensures SameHeads(ChunksOf(parts), ChunksOf(WithBody(parts, name, b)))
  {
    if parts != [] {
      HeadsAfterBody(parts[1..], name, b);
      var after := WithBody(parts, name, b);
      if parts[0].Declared? && parts[0].name == name {
        assert after[1..] == parts[1..];
      } else {
        assert after[1..] == WithBody(parts[1..], name, b);
      }
    }
  }

  lemma HeadsAfterPatch(parts: seq<Part>, name: string, done: string -> bool, edit: string -> string)
    ensures SameHeads(ChunksOf(parts), ChunksOf(PatchParts(parts, name, done, edit)))
  {
    hide BodyIn, WithBody, ChunksOf;
    var b := BodyIn(parts, name);
    if b.Some? {
      HeadsAfterBody(parts, name, edit(b.value));
    }
  }

  // ---- The rewritten header ----

  ghost predicate NoneOpen(cs: seq<Chunk>) {
    forall k, n :: 0 <= k < |cs| && 0 <= n <= |cs[k].header| ==> !Here(EnterHead, cs[k].header, n)
  }

  /** The first header of `enter` without the modifier is chunk `k`, and the first `n` characters are exchanged. */
  ghost predicate Reopened(cs: seq<Chunk>, ds: seq<Chunk>, k: nat, n: nat) {
    && |cs| == |ds| && k < |cs| && n <= |cs[k].header| && Here(EnterHead, cs[k].header, n) && NoneOpen(cs[..k])
    && ds[k].name == cs[k].name && ds[k].header == NEW_ENTER + cs[k].header[n..]
    && forall j :: 0 <= j < |cs| && j != k ==> ds[j].name == cs[j].name && ds[j].header == cs[j].header
  }

  ghost predicate OneReopened(cs: seq<Chunk>, ds: seq<Chunk>) {
    if NoneOpen(cs) then SameHeads(cs, ds) else exists k: nat, n: nat :: Reopened(cs, ds, k, n)
  }

  lemma OpenHere(c: Chunk, cs: seq<Chunk>, d: Chunk, n: nat)
    requires ExternalAt(c.header) == Some(n) && d.name == c.name && d.header == NEW_ENTER + c.header[n..]
    ensures OneReopened([c] + cs, [d] + cs)
  {
    hide ExternalAt, Here;
    HereIff(EnterHead, c.header, n);
    assert Search(EnterHead, c.header) == Some(n);
    assert ([c] + cs)[0] == c && ([c] + cs)[..0] == [];
    assert Reopened([c] + cs, [d] + cs, 0, n);
  }

  lemma OpenBehind(c: Chunk, cs: seq<Chunk>, ds: seq<Chunk>)
    requires ExternalAt(c.header).None? && OneReopened(cs, ds)
    ensures OneReopened([c] + cs, [c] + ds)
  {
    hide ExternalAt, Here;
    assert Search(EnterHead, c.header).None?;
    NothingHere(EnterHead, c.header);
    if NoneOpen(cs) {
      SameHeadsBehind(c, cs, ds);
    } else {
      var k: nat, n: nat :| Reopened(cs, ds, k, n);
      OneLater(c, cs, ds, k, n);
    }
  }

  lemma OneLater(c: Chunk, cs: seq<Chunk>, ds: seq<Chunk>, k: nat, n: nat)
    requires (forall m :: 0 <= m <= |c.header| ==> !Here(EnterHead, c.header, m)) && Reopened(cs, ds, k, n)
    ensures OneReopened([c] + cs, [c] + ds)
  {
    hide Here;
    var all, after := [c] + cs, [c] + ds;
    assert all[k + 1] == cs[k];
    var front := all[..k + 1];
    assert front == [c] + cs[..k];
    assert NoneOpen(front);
    forall j | 0 <= j < |all| && j != k + 1
      ensures after[j].name == all[j].name && after[j].header == all[j].header
    {
      if j > 0 {
        assert all[j] == cs[j - 1] && after[j] == ds[j - 1];
      }
    }
    assert Reopened(all, after, k + 1, n);
  }

  lemma {:induction false} ModifierHeads(parts: seq<Part>)
    ensures OneReopened(ChunksOf(parts), ChunksOf(ModifierParts(parts)))
  {
    hide ExternalAt, OneReopened, NewHeader;
    if parts == [] {
      NoHeads();
    } else {
      var p := parts[0];
      var after := ModifierParts(parts);
      if p.Declared? && ExternalAt(p.header).Some? {
        assert after[1..] == parts[1..];
        var n := ExternalAt(p.header).value;
        NewHeaderIs(p.header);
        OpenHere(Chunk(p.name, p.header, p.body), ChunksOf(parts[1..]), Chunk(p.name, NewHeader(p.header), p.body), n);
      } else {
        ModifierHeads(parts[1..]);
        assert after[1..] == ModifierParts(parts[1..]);
        assert after[0] == p;
        if p.Declared? {
          OpenBehind(Chunk(p.name, p.header, p.body), ChunksOf(parts[1..]), ChunksOf(after[1..]));
          assert ChunksOf(after) == [Chunk(p.name, p.header, p.body)] + ChunksOf(after[1..]);
        } else {
          assert ChunksOf(after) == ChunksOf(after[1..]) && ChunksOf(parts) == ChunksOf(parts[1..]);
        }
      }
    }
  }

  lemma NoHeads()
    ensures OneReopened([], [])
  {
  }

  lemma NewHeaderIs(header: string)
    requires ExternalAt(header).Some?
    ensures NewHeader(header) == NEW_ENTER + header[ExternalAt(header).value..]
  {
    hide ExternalAt, EnterHeader;
    EnterText();
  }

  // ---- The sequence ----

  ghost predicate Modifies(t: string) {
    HasHead(t, "enter") && (Contains(t, "entrants.push") || Contains(t, "hasEntered")) && !Guards(t)
  }

  lemma ModifiesIff(parts: seq<Part>)
    requires WellFormed(parts)
    ensures Modifies(Render(parts)) <==>
            !(BodyIn(parts, ENTER).None? || !(FoundParts(PUSH, parts) || FoundParts(HAS_ENTERED, parts))
              || SomeHeader(NonReentrantAt, parts))
  {
    hide WellFormed, Found, Render, FoundParts, BodyIn, NonReentrantAt, Contains, Heads, Guards, Somewhere;
    EnterIsName();
    CapTestsInRender(parts);
    ModifierTest(parts);
    NamesIff(Render(parts), "enter");
    GuardsIff(Render(parts));
    CappedIff(Render(parts));
  }

  lemma HeadsBefore(parts: seq<Part>)
    ensures SameHeads(ChunksOf(parts), ChunksOf(CapParts(parts)))
  {
    hide BodyIn, FoundParts, CappedParts, Checked, WithCap, CapDeclaration, InsertParts, PatchParts, ChunksOf;
    HeadsAfterInsert(Anchor, parts, CapDeclaration());
    HeadsAfterPatch(InsertParts(Anchor, parts, CapDeclaration()), ENTER, Checked, WithCap);
  }

  lemma HeadsBehind(p2: seq<Part>)
    ensures var bound := BoundParts(ResetParts(DiscloseParts(p2)), REQUEST_DRAW);
            SameHeads(ChunksOf(p2), ChunksOf(BoundParts(bound, REQUEST_ELIMINATION)))
  {
    hide FiresParts, FoundParts, Bounded, WithCheck, Resets, WithReset, Disclosure, InsertParts, PatchParts, ChunksOf;
    var edit := b => WithCheck(b);
    HeadsAfterInsert(Description, p2, Disclosure());
    var p3 := DiscloseParts(p2);
    HeadsAfterPatch(p3, FULFILL, Resets, WithReset);
    var p4 := ResetParts(p3);
    HeadsAfterPatch(p4, REQUEST_DRAW, Bounded, edit);
    HeadsAfterPatch(BoundParts(p4, REQUEST_DRAW), REQUEST_ELIMINATION, Bounded, edit);
  }

  lemma Composed(as0: seq<Chunk>, bs: seq<Chunk>, cs: seq<Chunk>, ds: seq<Chunk>)
    requires SameHeads(as0, bs) && OneReopened(bs, cs) && SameHeads(cs, ds)
    ensures OneReopened(as0, ds)
  {
    hide Here;
    if !NoneOpen(bs) {
      var k: nat, n: nat :| Reopened(bs, cs, k, n);
      assert Reopened(as0, ds, k, n);
    }
  }

  /**
   * On well-formed source, if the capped text declares an unguarded `enter` that admits entrants, the sequence
   * rewrites the first header of `enter` that only white space separates from its `external`; otherwise, and
   * elsewhere, names and headers stay.
   */
  lemma HeadersReadBack(parts: seq<Part>)
    requires WellFormed(parts)
    ensures var t, u := Render(parts), Common(Render(parts));
            if Modifies(EntrantCap(t)) then OneReopened(Chunks(t), Chunks(u)) else SameHeads(Chunks(t), Chunks(u))
  {
    hide WellFormed, Render, EntrantCap, CapParts, Modifies, ModifierParts, BodyIn, FoundParts, SomeHeader, ResetParts,
         DiscloseParts, BoundParts, SameHeads, OneReopened, ChunksOf, Chunks, Common;
    CapInRender(parts);
    var p1 := CapParts(parts);
    ModifiesIff(p1);
    CommonInRender(parts);
    ChunksOfRender(parts);
    ChunksOfRender(CommonParts(parts));
    HeadsBefore(parts);
    HeadsBehind(ModifyParts(p1));
    ModifierHeads(p1);
    var a, b, c, d := ChunksOf(parts), ChunksOf(p1), ChunksOf(ModifyParts(p1)), ChunksOf(CommonParts(parts));
    if Modifies(EntrantCap(Render(parts))) {
      Composed(a, b, c, d);
    } else {
      SameAgain(a, b, d);
    }
  }
}
