/** The sectioned text a model returns for a custom vault UI, and what its parser recovers from it. */
module UiSections {
  import opened Wrappers
  import opened SolidityText
  import opened SourcePatches

  datatype Section = Component | VaultAbi | I18n

  datatype UiPackage = UiPackage(componentTsx: string, vaultAbiTs: string, i18nJson: string)

  const END := "===END==="

  function Marker(s: Section): string {
    match s
    case Component => "===FILE:Component.tsx==="
    case VaultAbi => "===FILE:VaultABI.ts==="
    case I18n => "===FILE:i18n.json==="
  }

  function Trim(t: string): string {
    TrimEnd(t[Skip(t, 0, IsSpace)..])
  }

  function MarkerOf(line: string): (r: Option<Section>)
    ensures r.Some? <==> exists s :: Trim(line) == Marker(s)
    ensures r.Some? ==> Trim(line) == Marker(r.value)
  {
    var t := Trim(line);
    if t == Marker(Component) then Some(Component)
    else if t == Marker(VaultAbi) then Some(VaultAbi)
    else if t == Marker(I18n) then Some(I18n)
    else None
  }

  // ---- Lines ----

  function Split(t: string): (lines: seq<string>)
    ensures lines != []
  {
    if t == "" then [""]
    else
      var rest := Split(t[1..]);
      if t[0] == '\n' then [""] + rest else [[t[0]] + rest[0]] + rest[1..]
  }

  function Join(lines: seq<string>): string {
    if lines == [] then ""
    else if |lines| == 1 then lines[0]
    else lines[0] + "\n" + Join(lines[1..])
  }

  predicate OneLine(line: string) {
    '\n' !in line
  }

  lemma {:induction false} SplitFirst(line: string, rest: string)
    requires OneLine(line)
    ensures Split(line) == [line] && Split(line + "\n" + rest) == [line] + Split(rest)
  {
    var t := line + "\n" + rest;
    if line == "" {
      assert t[1..] == rest;
    } else {
      assert t[1..] == line[1..] + "\n" + rest;
      SplitFirst(line[1..], rest);
      assert [line[0]] + line[1..] == line;
    }
  }

  lemma {:induction false} SplitJoin(lines: seq<string>)
    requires lines != [] && forall l :: l in lines ==> OneLine(l)
    ensures Split(Join(lines)) == lines
  {
    if |lines| == 1 {
      SplitFirst(lines[0], "");
    } else {
      SplitJoin(lines[1..]);
      SplitFirst(lines[0], Join(lines[1..]));
    }
  }

  // ---- The scan ----

  datatype Scan = Scan(current: Option<Section>, buffer: seq<string>, sections: map<Section, string>)

  function Flush(s: Scan): map<Section, string> {
    if s.current.Some? then s.sections[s.current.value := Trim(Join(s.buffer))] else s.sections
  }

  function Next(s: Scan, line: string): Scan {
    if MarkerOf(line).Some? then Scan(MarkerOf(line), [], Flush(s))
    else if Trim(line) == END then Scan(None, [], Flush(s))
    else if s.current.Some? then s.(buffer := s.buffer + [line])
    else s
  }

  function ScanAll(lines: seq<string>): Scan {
    if lines == [] then Scan(None, [], map[])
    else Next(ScanAll(lines[..|lines| - 1]), lines[|lines| - 1])
  }

  function Packaged(sections: map<Section, string>): Option<UiPackage> {
    if (forall s :: s in sections && sections[s] != "") then
      Some(UiPackage(sections[Component], sections[VaultAbi], sections[I18n]))
    else None
  }

  /** What the parser makes of a raw text. */
  function Parsed(raw: string): Option<UiPackage> {
    Packaged(Flush(ScanAll(Split(raw))))
  }

  method ParseVaultUiSections(raw: string) returns (package: Option<UiPackage>)
    ensures package == Parsed(raw)
  {
    hide MarkerOf, Trim, Split;
    var lines := Split(raw);
    var current, buffer, sections := None, [], map[];
    for i := 0 to |lines|
      invariant Scan(current, buffer, sections) == ScanAll(lines[..i])
    {
      assert lines[..i + 1][..i] == lines[..i];
      var line := lines[i];
      var marker := MarkerOf(line);
      if marker.Some? {
        sections := Flush(Scan(current, buffer, sections));
        current, buffer := marker, [];
      } else if Trim(line) == END {
        sections := Flush(Scan(current, buffer, sections));
        current, buffer := None, [];
      } else if current.Some? {
        buffer := buffer + [line];
      }
    }
    assert lines[..|lines|] == lines;
    package := Packaged(Flush(Scan(current, buffer, sections)));
  }

  // ---- The documented layout ----

  /** One section: a marker line, possibly indented, and the lines below it. */
  datatype Block = Block(header: string, section: Section, lines: seq<string>)
  {
    ghost predicate Valid() {
      MarkerOf(header) == Some(section) && Plain(lines)
    }
  }

  ghost predicate Plain(lines: seq<string>) {
    forall l :: l in lines ==> MarkerOf(l).None? && Trim(l) != END
  }

  function Lay(blocks: seq<Block>): seq<string> {
    if blocks == [] then []
    else
      var last := blocks[|blocks| - 1];
      Lay(blocks[..|blocks| - 1]) + ([last.header] + last.lines)
  }

  /** The last block of a section wins. */
  function Contents(blocks: seq<Block>): map<Section, string> {
    if blocks == [] then map[]
    else
      var last := blocks[|blocks| - 1];
      Contents(blocks[..|blocks| - 1])[last.section := Trim(Join(last.lines))]
  }

  lemma {:induction false} ScanPlain(before: seq<string>, lines: seq<string>)
    requires Plain(lines)
    ensures var s := ScanAll(before);
            ScanAll(before + lines) == if s.current.Some? then s.(buffer := s.buffer + lines) else s
  {
    hide MarkerOf, Trim;
    if lines == [] {
      assert before + lines == before;
    } else {
      var rest, last := lines[..|lines| - 1], lines[|lines| - 1];
      assert last in lines;
      assert (before + lines)[..|before + lines| - 1] == before + rest;
      ScanPlain(before, rest);
      assert rest + [last] == lines;
    }
  }

  lemma ScanOne(before: seq<string>, line: string)
    ensures ScanAll(before + [line]) == Next(ScanAll(before), line)
  {
    assert (before + [line])[..|before|] == before;
  }

  lemma ScanBlock(before: seq<string>, b: Block)
    requires b.Valid()
    ensures Flush(ScanAll(before + ([b.header] + b.lines)))
            == Flush(ScanAll(before))[b.section := Trim(Join(b.lines))]
  {
    hide MarkerOf, Trim, ScanAll;
    ScanOne(before, b.header);
    ScanPlain(before + [b.header], b.lines);
    assert before + [b.header] + b.lines == before + ([b.header] + b.lines);
    assert [] + b.lines == b.lines;
  }

  lemma ScanNothing(pre: seq<string>)
    requires Plain(pre)
    ensures Flush(ScanAll(pre + Lay([]))) == Contents([])
  {
    hide MarkerOf, Trim;
    ScanPlain([], pre);
    assert [] + pre == pre && pre + [] == pre;
  }

  /** Text before the first marker is ignored, and each block ends up under its section. */
  lemma {:induction false} ScanBlocks(pre: seq<string>, blocks: seq<Block>)
    requires Plain(pre) && forall b :: b in blocks ==> b.Valid()
    ensures Flush(ScanAll(pre + Lay(blocks))) == Contents(blocks)
  {
    hide MarkerOf, Trim, Plain, ScanAll, Flush, Join;
    if blocks == [] {
      ScanNothing(pre);
    } else {
      var rest, last := blocks[..|blocks| - 1], blocks[|blocks| - 1];
      assert last in blocks;
      ScanBlocks(pre, rest);
      ScanBlock(pre + Lay(rest), last);
      var more := [last.header] + last.lines;
      assert pre + Lay(rest) + more == pre + (Lay(rest) + more);
    }
  }

  function Layout(pre: seq<string>, blocks: seq<Block>, end: string, post: seq<string>): seq<string> {
    pre + Lay(blocks) + [end] + post
  }

  /** Parsing a laid-out text returns exactly its sections, whatever surrounds them. */
  lemma LayoutIsRecovered(pre: seq<string>, blocks: seq<Block>, end: string, post: seq<string>)
    requires Plain(pre) && Plain(post) && Trim(end) == END && forall b :: b in blocks ==> b.Valid()
    requires forall l :: l in Layout(pre, blocks, end, post) ==> OneLine(l)
    ensures Parsed(Join(Layout(pre, blocks, end, post))) == Packaged(Contents(blocks))
  {
    hide MarkerOf, Trim, Lay, Contents, Packaged;
    var lines := pre + Lay(blocks);
    ScanBlocks(pre, blocks);
    ScanOne(lines, end);
    EndIsNoMarker(end);
    ScanPlain(lines + [end], post);
    SplitJoin(Layout(pre, blocks, end, post));
  }

  lemma EndIsNoMarker(line: string)
    requires Trim(line) == END
    ensures MarkerOf(line).None?
  {
    assert |END| == 9 && |Marker(Component)| == 24 && |Marker(VaultAbi)| == 22 && |Marker(I18n)| == 20;
  }

  /** Three sections, each once and in any order, come back as the package exactly when none is empty. */
  lemma AnyOrderIsRecovered(pre: seq<string>, blocks: seq<Block>, end: string, post: seq<string>,
                            content: Section -> string)
    requires Plain(pre) && Plain(post) && Trim(end) == END && forall b :: b in blocks ==> b.Valid()
    requires forall l :: l in Layout(pre, blocks, end, post) ==> OneLine(l)
    requires |blocks| == 3 && forall i, j :: 0 <= i < j < 3 ==> blocks[i].section != blocks[j].section
    requires forall b :: b in blocks ==> Trim(Join(b.lines)) == content(b.section)
    ensures Parsed(Join(Layout(pre, blocks, end, post)))
            == if forall s :: content(s) != ""
               then Some(UiPackage(content(Component), content(VaultAbi), content(I18n))) else None
  {
    hide Trim, Join, Layout, Parsed;
    LayoutIsRecovered(pre, blocks, end, post);
    ThreeContents(blocks, content);
  }

  lemma ThreeContents(blocks: seq<Block>, content: Section -> string)
    requires |blocks| == 3 && forall i, j :: 0 <= i < j < 3 ==> blocks[i].section != blocks[j].section
    requires forall b :: b in blocks ==> Trim(Join(b.lines)) == content(b.section)
    ensures forall s :: s in Contents(blocks) && Contents(blocks)[s] == content(s)
  {
    hide Trim, Join;
    var two, one := blocks[..2], blocks[..1];
    assert two[..1] == one && one[..0] == [];
    assert blocks[0] in blocks && blocks[1] in blocks && blocks[2] in blocks;
    assert Contents(one) == map[blocks[0].section := content(blocks[0].section)];
    assert Contents(two) == Contents(one)[blocks[1].section := content(blocks[1].section)];
    assert Contents(blocks) == Contents(two)[blocks[2].section := content(blocks[2].section)];
    assert blocks[0].section != blocks[1].section;
    assert blocks[1].section != blocks[2].section && blocks[0].section != blocks[2].section;
    forall s
      ensures s in Contents(blocks) && Contents(blocks)[s] == content(s)
    {
      assert s == blocks[0].section || s == blocks[1].section || s == blocks[2].section;
    }
  }
}
