/** What the section parser recovers from any text: for each section, the lines behind its last marker line. */
module UiTerms {
  import opened Wrappers
  import opened SolidityText
  import opened SourcePatches
  import opened UiSections
  import P = PlainText

  // ---- Marker lines ----

  function Label(s: Section): string {
    match s
    case Component => "===FILE:Component.tsx==="
    case VaultAbi => "===FILE:VaultABI.ts==="
    case I18n => "===FILE:i18n.json==="
  }

  /** The text is this word with white space around it. */
  ghost predicate Around(t: string, front: nat, word: string) {
    && front + |word| <= |t| && P.Blank(t[..front]) && t[front..front + |word|] == word && P.Blank(t[front + |word|..])
  }

  ghost predicate Stripped(t: string, word: string) {
    && (word == "" || (!IsSpace(word[0]) && !IsSpace(word[|word| - 1])))
    && exists front: nat :: Around(t, front, word)
  }

  ghost predicate Marks(line: string, s: Section) {
    exists front: nat :: Around(line, front, Label(s))
  }

  ghost predicate Stops(line: string) {
    (exists s :: Marks(line, s)) || exists front: nat :: Around(line, front, "===END===")
  }

  lemma {:induction false} TrimEndIs(t: string)
    ensures var r := TrimEnd(t);
            && r <= t && P.Blank(t[|r|..]) && (r == "" || !IsSpace(r[|r| - 1]))
  {
    if t != "" && IsSpace(t[|t| - 1]) {
      var front := t[..|t| - 1];
      TrimEndIs(front);
      assert forall i :: |TrimEnd(t)| <= i < |t| - 1 ==> t[i] == front[|TrimEnd(t)|..][i - |TrimEnd(t)|];
    } else {
      assert t[|t|..] == "";
    }
  }

  lemma TrimIs(t: string)
    ensures Stripped(t, Trim(t))
  {
    hide TrimEnd, Skip;
    var n := Skip(t, 0, IsSpace);
    var rest, word := t[n..], Trim(t);
    TrimEndIs(rest);
    assert t[n..n + |word|] == word && t[n + |word|..] == rest[|word|..];
    assert Around(t, n, word);
  }

  /** Only one word is left when the white space is gone. */
  lemma StrippedOnce(t: string, a: string, b: string)
    requires Stripped(t, a) && Stripped(t, b)
    ensures a == b
  {
    var i: nat :| Around(t, i, a);
    var j: nat :| Around(t, j, b);
    if a == "" || b == "" {
      OneIsBlank(t, i, a, j, b);
    } else {
      SameFront(t, i, a, j, b);
      SameFront(t, j, b, i, a);
    }
  }

  lemma OneIsBlank(t: string, i: nat, a: string, j: nat, b: string)
    requires Around(t, i, a) && Around(t, j, b) && (a == "" || b == "")
    requires a == "" || !IsSpace(a[0])
    requires b == "" || !IsSpace(b[0])
    ensures a == b
  {
    if a == "" && b != "" {
      CharAt(t, j, b, 0);
      BlankAt(t, i, j);
    }
    if b == "" && a != "" {
      CharAt(t, i, a, 0);
      BlankAt(t, j, i);
    }
  }

  lemma CharAt(t: string, i: nat, a: string, k: nat)
    requires Around(t, i, a) && k < |a|
    ensures i + k < |t| && t[i + k] == a[k]
  {
    assert t[i..i + |a|][k] == a[k];
  }

  /** A text without a word is blank throughout. */
  lemma BlankAt(t: string, i: nat, k: nat)
    requires Around(t, i, "") && k < |t|
    ensures IsSpace(t[k])
  {
    if k < i {
      assert t[..i][k] == t[k];
    } else {
      assert t[i + |""|..][k - i] == t[k];
    }
  }

  lemma SameFront(t: string, i: nat, a: string, j: nat, b: string)
    requires Around(t, i, a) && Around(t, j, b) && a != "" && b != ""
    requires !IsSpace(a[0]) && !IsSpace(b[0]) && !IsSpace(a[|a| - 1]) && !IsSpace(b[|b| - 1])
    ensures a == b
  {
    FrontAfter(t, i, a, j, b);
    FrontAfter(t, j, b, i, a);
    EndBefore(t, i, a, j, b);
    EndBefore(t, j, b, i, a);
  }

  lemma FrontAfter(t: string, i: nat, a: string, j: nat, b: string)
    requires Around(t, i, a) && Around(t, j, b) && a != "" && !IsSpace(a[0])
    ensures j <= i
  {
    hide Around;
    CharAt(t, i, a, 0);
    if i < j {
      SpaceBefore(t, j, b, i);
    }
  }

  lemma EndBefore(t: string, i: nat, a: string, j: nat, b: string)
    requires Around(t, i, a) && Around(t, j, b) && a != "" && !IsSpace(a[|a| - 1])
    ensures i + |a| <= j + |b|
  {
    hide Around;
    CharAt(t, i, a, |a| - 1);
    if i + |a| > j + |b| {
      SpaceBehind(t, j, b, i + |a| - 1);
    }
  }

  lemma SpaceBefore(t: string, j: nat, b: string, k: nat)
    requires Around(t, j, b) && k < j
    ensures k < |t| && IsSpace(t[k])
  {
    assert t[..j][k] == t[k];
  }

  lemma SpaceBehind(t: string, j: nat, b: string, k: nat)
    requires Around(t, j, b) && j + |b| <= k < |t|
    ensures IsSpace(t[k])
  {
    assert t[j + |b|..][k - j - |b|] == t[k];
  }

  lemma LabelsAre(s: Section)
    ensures Label(s) == Marker(s) && Label(s)[0] == '=' && Label(s)[|Label(s)| - 1] == '='
    ensures END == "===END==="
  {
  }

  lemma WordIs(line: string, word: string)
    requires word != "" && word[0] == '=' && word[|word| - 1] == '='
    ensures Trim(line) == word <==> exists front: nat :: Around(line, front, word)
  {
    hide Trim, Around;
    TrimIs(line);
    if exists front: nat :: Around(line, front, word) {
      StrippedOnce(line, Trim(line), word);
    }
  }

  lemma MarksIs(line: string, s: Section)
    ensures MarkerOf(line) == Some(s) <==> Marks(line, s)
  {
    hide Trim, Around;
    LabelsAre(s);
    WordIs(line, Label(s));
    LabelsDiffer();
  }

  lemma LabelsDiffer()
    ensures |Marker(Component)| == 24 && |Marker(VaultAbi)| == 22 && |Marker(I18n)| == 20 && |END| == 9
  {
  }

  lemma StopsIs(line: string)
    ensures MarkerOf(line).Some? || Trim(line) == END <==> Stops(line)
  {
    hide Trim, Around, MarkerOf;
    forall s
      ensures MarkerOf(line) == Some(s) <==> Marks(line, s)
    {
      MarksIs(line, s);
    }
    WordIs(line, END);
  }

  // ---- Sections ----

  /** Line `i` is the last marker of the section, and line `j` the first one behind it that ends a section. */
  ghost predicate Holds(lines: seq<string>, s: Section, i: nat, j: nat) {
    && i < j <= |lines| && Marks(lines[i], s)
    && (forall k :: i < k < |lines| ==> !Marks(lines[k], s))
    && (forall k :: i < k < j ==> !Stops(lines[k])) && (j < |lines| ==> Stops(lines[j]))
  }

  ghost predicate Absent(lines: seq<string>, s: Section) {
    forall k :: 0 <= k < |lines| ==> !Marks(lines[k], s)
  }

  /** The scan is in the section of the last line that started or ended one, with the lines behind it. */
  ghost predicate Standing(lines: seq<string>, scan: Scan) {
    match scan.current
    case Some(c) =>
      exists i: nat :: && i < |lines| && Marks(lines[i], c) && (forall k :: i < k < |lines| ==> !Stops(lines[k]))
                       && scan.buffer == lines[i + 1..]
    case None =>
      forall i :: 0 <= i < |lines| && (exists s :: Marks(lines[i], s)) ==>
                    exists k :: i < k < |lines| && Stops(lines[k])
  }

  ghost predicate Recovers(lines: seq<string>, sections: map<Section, string>) {
    && (forall s :: Absent(lines, s) ==> s !in sections)
    && (forall s, i: nat, j: nat :: i < j <= |lines| && Holds(lines, s, i, j) ==>
                                      s in sections && sections[s] == Trim(Join(lines[i + 1..j])))
  }

  lemma OneMark(line: string, s: Section, c: Section)
    requires Marks(line, s) && Marks(line, c)
    ensures s == c && Stops(line) && !exists front: nat :: Around(line, front, "===END===")
  {
    hide Around, Trim, MarkerOf;
    MarksIs(line, s);
    MarksIs(line, c);
    LabelsAre(s);
    WordIs(line, END);
    if Trim(line) == END {
      EndIsNoMarker(line);
    }
  }

  // ---- One more line ----

  lemma HoldsBefore(front: seq<string>, line: string, s: Section, i: nat, j: nat)
    requires Holds(front + [line], s, i, j) && i < |front|
    ensures !Marks(line, s)
    ensures j <= |front| ==> Holds(front, s, i, j) && (front + [line])[i + 1..j] == front[i + 1..j]
    ensures j == |front| ==> Stops(line)
    ensures j > |front| ==> j == |front| + 1 && !Stops(line) && Holds(front, s, i, |front|)
  {
    hide Marks, Stops;
    var lines := front + [line];
    assert lines[|front|] == line;
    assert forall k :: 0 <= k < |front| ==> lines[k] == front[k];
  }

  lemma AbsentBefore(front: seq<string>, line: string, s: Section)
    ensures Absent(front + [line], s) <==> Absent(front, s) && !Marks(line, s)
  {
    hide Marks;
    var lines := front + [line];
    assert lines[|front|] == line;
    assert forall k :: 0 <= k < |front| ==> lines[k] == front[k];
  }

  lemma MarkerStands(front: seq<string>, line: string, c: Section, sections: map<Section, string>)
    requires Marks(line, c)
    ensures Standing(front + [line], Scan(Some(c), [], sections))
  {
    hide Marks, Stops;
    assert (front + [line])[|front|] == line && (front + [line])[|front| + 1..] == [];
  }

  lemma MarkerRecovers(front: seq<string>, line: string, c: Section, sections: map<Section, string>)
    requires Marks(line, c) && Recovers(front, sections)
    ensures Recovers(front + [line], sections[c := Trim(Join([]))])
  {
    hide Marks, Stops, Trim, Join, Holds, Absent;
    var lines, next := front + [line], sections[c := Trim(Join([]))];
    assert lines[|front|] == line;
    forall s | Absent(lines, s)
      ensures s !in next
    {
      AbsentBefore(front, line, s);
    }
    forall s, i: nat, j: nat | i < j <= |lines| && Holds(lines, s, i, j)
      ensures s in next && next[s] == Trim(Join(lines[i + 1..j]))
    {
      HoldsIn(lines, s, i, j);
      MarkerHolds(front, line, c, s, i, j);
    }
  }

  lemma HoldsIn(lines: seq<string>, s: Section, i: nat, j: nat)
    requires Holds(lines, s, i, j)
    ensures i < j <= |lines| && Marks(lines[i], s)
  {
  }

  /** A marker line ends the section before it, and starts an empty one. */
  lemma MarkerHolds(front: seq<string>, line: string, c: Section, s: Section, i: nat, j: nat)
    requires Marks(line, c) && Holds(front + [line], s, i, j)
    ensures i < |front| ==> s != c && j <= |front| && Holds(front, s, i, j)
                            && (front + [line])[i + 1..j] == front[i + 1..j]
    ensures i >= |front| ==> s == c && j <= |front| + 1 && (front + [line])[i + 1..j] == []
  {
    hide Marks, Stops;
    OneMark(line, c, c);
    assert (front + [line])[|front|] == line;
    if i < |front| {
      hide Holds;
      HoldsBefore(front, line, s, i, j);
    } else {
      OneMark(line, s, c);
    }
  }

  lemma EndStands(front: seq<string>, line: string, sections: map<Section, string>)
    requires Stops(line) && forall s :: !Marks(line, s)
    ensures Standing(front + [line], Scan(None, [], sections))
  {
    hide Marks, Stops;
    assert (front + [line])[|front|] == line;
  }

  lemma EndRecovers(front: seq<string>, line: string, sections: map<Section, string>)
    requires Stops(line) && (forall s :: !Marks(line, s)) && Recovers(front, sections)
    ensures Recovers(front + [line], sections)
  {
    hide Marks, Stops, Trim, Join, Holds, Absent;
    var lines := front + [line];
    assert lines[|front|] == line;
    forall s | Absent(lines, s)
      ensures s !in sections
    {
      AbsentBefore(front, line, s);
    }
    forall s, i: nat, j: nat | i < j <= |lines| && Holds(lines, s, i, j)
      ensures s in sections && sections[s] == Trim(Join(lines[i + 1..j]))
    {
      HoldsIn(lines, s, i, j);
      assert i < |front|;
      HoldsBefore(front, line, s, i, j);
    }
  }

  lemma LineStands(front: seq<string>, line: string, scan: Scan)
    requires !Stops(line) && Standing(front, scan)
    ensures Standing(front + [line], if scan.current.Some? then scan.(buffer := scan.buffer + [line]) else scan)
  {
    hide Standing;
    if scan.current.Some? {
      LineJoins(front, line, scan);
    } else {
      LineIsOutside(front, line, scan);
    }
  }

  lemma LineJoins(front: seq<string>, line: string, scan: Scan)
    requires !Stops(line) && Standing(front, scan) && scan.current.Some?
    ensures Standing(front + [line], scan.(buffer := scan.buffer + [line]))
  {
    hide Marks, Stops;
    var lines := front + [line];
    var i: nat :| && i < |front| && Marks(front[i], scan.current.value)
                  && (forall k :: i < k < |front| ==> !Stops(front[k])) && scan.buffer == front[i + 1..];
    assert lines[i] == front[i] && lines[i + 1..] == front[i + 1..] + [line];
  }

  lemma LineIsOutside(front: seq<string>, line: string, scan: Scan)
    requires !Stops(line) && Standing(front, scan) && scan.current.None?
    ensures Standing(front + [line], scan)
  {
    hide Marks, Stops;
    var lines := front + [line];
    LineIsNoMark(line);
    forall i | 0 <= i < |lines| && (exists s :: Marks(lines[i], s))
      ensures exists k :: i < k < |lines| && Stops(lines[k])
    {
      assert lines[|front|] == line;
      assert i < |front| && lines[i] == front[i];
      var k :| i < k < |front| && Stops(front[k]);
      assert Stops(lines[k]);
    }
  }

  lemma LineIsNoMark(line: string)
    requires !Stops(line)
    ensures forall s :: !Marks(line, s)
  {
    hide Marks;
  }

  /** A line inside a section belongs to it. */
  lemma LineRecovers(front: seq<string>, line: string, scan: Scan)
    requires !Stops(line) && Standing(front, scan) && Recovers(front, Flush(scan))
    ensures Recovers(front + [line],
                     Flush(if scan.current.Some? then scan.(buffer := scan.buffer + [line]) else scan))
  {
    hide Marks, Stops, Trim, Join, Holds, Absent, Standing;
    var lines := front + [line];
    assert lines[|front|] == line;
    LineIsNoMark(line);
    var next := Flush(if scan.current.Some? then scan.(buffer := scan.buffer + [line]) else scan);
    forall s | Absent(lines, s)
      ensures s !in next
    {
      AbsentBefore(front, line, s);
      if scan.current.Some? {
        CurrentIsMarked(front, scan);
      }
    }
    forall s, i: nat, j: nat | i < j <= |lines| && Holds(lines, s, i, j)
      ensures s in next && next[s] == Trim(Join(lines[i + 1..j]))
    {
      HoldsIn(lines, s, i, j);
      LineHolds(front, line, scan, s, i, j);
    }
  }

  lemma CurrentIsMarked(front: seq<string>, scan: Scan)
    requires Standing(front, scan) && scan.current.Some?
    ensures !Absent(front, scan.current.value)
  {
    hide Marks, Stops;
  }

  lemma LineHolds(front: seq<string>, line: string, scan: Scan, s: Section, i: nat, j: nat)
    requires !Stops(line) && Standing(front, scan) && Holds(front + [line], s, i, j) && i < |front|
    ensures j <= |front| + 1
    ensures if scan.current == Some(s) then (front + [line])[i + 1..j] == scan.buffer + [line]
            else j <= |front| && Holds(front, s, i, j) && (front + [line])[i + 1..j] == front[i + 1..j]
  {
    hide Marks, Stops, Holds, Standing;
    HoldsBefore(front, line, s, i, j);
    if j <= |front| {
      EndedBefore(front, scan, s, i, j);
      OrderedBefore(front, line, s, i, j);
    } else {
      OpenAtEnd(front, scan, s, i);
      assert (front + [line])[i + 1..j] == front[i + 1..] + [line];
    }
  }

  /** A section that a later line ended is not the current one. */
  lemma EndedBefore(front: seq<string>, scan: Scan, s: Section, i: nat, j: nat)
    requires Standing(front, scan) && Holds(front, s, i, j) && j < |front|
    ensures scan.current != Some(s)
  {
    hide Marks, Stops;
  }

  lemma OrderedBefore(front: seq<string>, line: string, s: Section, i: nat, j: nat)
    requires !Stops(line) && Holds(front + [line], s, i, j) && i < |front| && j <= |front|
    ensures j < |front|
  {
    hide Marks, Stops;
    assert (front + [line])[|front|] == line;
  }

  /** The section nothing has ended yet is the current one. */
  lemma OpenAtEnd(front: seq<string>, scan: Scan, s: Section, i: nat)
    requires Standing(front, scan) && Holds(front, s, i, |front|)
    ensures scan.current == Some(s) && scan.buffer == front[i + 1..]
  {
    hide Marks, Stops;
    if scan.current.Some? {
      var k: nat :| && k < |front| && Marks(front[k], scan.current.value)
                    && (forall m :: k < m < |front| ==> !Stops(front[m])) && scan.buffer == front[k + 1..];
      MarkStops(front[k], scan.current.value);
      MarkStops(front[i], s);
      SameMark(front[k], scan.current.value, s, i == k);
    }
  }

  lemma MarkStops(line: string, s: Section)
    requires Marks(line, s)
    ensures Stops(line)
  {
    hide Marks;
  }

  lemma SameMark(line: string, c: Section, s: Section, same: bool)
    requires Marks(line, c) && (same ==> Marks(line, s))
    ensures same ==> s == c
  {
    hide Marks;
    if same {
      OneMark(line, s, c);
    }
  }

  lemma {:induction false} ScanIs(lines: seq<string>)
    ensures Standing(lines, ScanAll(lines)) && Recovers(lines, Flush(ScanAll(lines)))
  {
    hide Standing, Recovers, MarkerOf, Trim, Join, Stops, Marks;
    if lines == [] {
      NothingScanned();
    } else {
      var front, line := lines[..|lines| - 1], lines[|lines| - 1];
      assert lines == front + [line];
      ScanIs(front);
      var scan := ScanAll(front);
      StopsIs(line);
      if MarkerOf(line).Some? {
        var c := MarkerOf(line).value;
        MarksIs(line, c);
        MarkerStands(front, line, c, Flush(scan));
        MarkerRecovers(front, line, c, Flush(scan));
      } else if Trim(line) == END {
        forall s
          ensures !Marks(line, s)
        {
          MarksIs(line, s);
        }
        EndStands(front, line, Flush(scan));
        EndRecovers(front, line, Flush(scan));
      } else {
        LineStands(front, line, scan);
        LineRecovers(front, line, scan);
      }
    }
  }

  lemma NothingScanned()
    ensures Standing([], Scan(None, [], map[])) && Recovers([], map[])
  {
    hide Marks, Stops;
  }

  // ---- The package ----

  /** The section has one content: the lines behind its last marker, without the white space around them. */
  ghost predicate Gives(lines: seq<string>, s: Section, text: string) {
    exists i: nat, j: nat :: i < j <= |lines| && Holds(lines, s, i, j) && Stripped(Join(lines[i + 1..j]), text)
  }

  lemma LastMark(lines: seq<string>, s: Section) returns (i: nat)
    requires !Absent(lines, s)
    ensures i < |lines| && Marks(lines[i], s) && forall k :: i < k < |lines| ==> !Marks(lines[k], s)
  {
    hide Marks;
    i := |lines| - 1;
    while !Marks(lines[i], s)
      invariant i < |lines| && (exists k :: 0 <= k <= i && Marks(lines[k], s))
      invariant forall k :: i < k < |lines| ==> !Marks(lines[k], s)
      decreases i
    {
      i := i - 1;
    }
  }

  lemma FirstStop(lines: seq<string>, i: nat) returns (j: nat)
    requires i < |lines|
    ensures i < j <= |lines| && (forall k :: i < k < j ==> !Stops(lines[k])) && (j < |lines| ==> Stops(lines[j]))
  {
    hide Stops;
    j := i + 1;
    while j < |lines| && !Stops(lines[j])
      invariant i < j <= |lines| && forall k :: i < k < j ==> !Stops(lines[k])
    {
      j := j + 1;
    }
  }

  lemma HoldsOrAbsent(lines: seq<string>, s: Section) returns (i: nat, j: nat)
    ensures Absent(lines, s) || Holds(lines, s, i, j)
  {
    hide Marks, Stops;
    if !Absent(lines, s) {
      i := LastMark(lines, s);
      j := FirstStop(lines, i);
    } else {
      i, j := 0, 0;
    }
  }

  lemma GivesIs(lines: seq<string>, sections: map<Section, string>, s: Section, text: string)
    requires Recovers(lines, sections)
    ensures Gives(lines, s, text) <==> s in sections && sections[s] == text
  {
    hide Holds, Absent, Stripped, Trim, Join;
    var i, j := HoldsOrAbsent(lines, s);
    if !Absent(lines, s) {
      HoldsIn(lines, s, i, j);
      TrimIs(Join(lines[i + 1..j]));
    }
    if Gives(lines, s, text) {
      var k: nat, n: nat :| k < n <= |lines| && Holds(lines, s, k, n) && Stripped(Join(lines[k + 1..n]), text);
      TrimIs(Join(lines[k + 1..n]));
      StrippedOnce(Join(lines[k + 1..n]), text, Trim(Join(lines[k + 1..n])));
    }
  }

  /** The parser returns a package exactly when all three sections are given, none empty, and then their contents. */
  lemma ParsedIs(raw: string, p: UiPackage)
    ensures Parsed(raw) == Some(p)
            <==> && p.componentTsx != "" && p.vaultAbiTs != "" && p.i18nJson != ""
                 && Gives(Split(raw), Component, p.componentTsx) && Gives(Split(raw), VaultAbi, p.vaultAbiTs)
                 && Gives(Split(raw), I18n, p.i18nJson)
  {
    hide Split, ScanAll, Flush, Recovers, Gives;
    var lines := Split(raw);
    ScanIs(lines);
    var sections := Flush(ScanAll(lines));
    GivesIs(lines, sections, Component, p.componentTsx);
    GivesIs(lines, sections, VaultAbi, p.vaultAbiTs);
    GivesIs(lines, sections, I18n, p.i18nJson);
    assert Parsed(raw) == Packaged(sections);
    PackagedIs(sections, p);
  }

  lemma PackagedIs(sections: map<Section, string>, p: UiPackage)
    ensures Packaged(sections) == Some(p)
            <==> && p.componentTsx != "" && p.vaultAbiTs != "" && p.i18nJson != ""
                 && Component in sections && sections[Component] == p.componentTsx
                 && VaultAbi in sections && sections[VaultAbi] == p.vaultAbiTs
                 && I18n in sections && sections[I18n] == p.i18nJson
  {
    if p.componentTsx != "" && p.vaultAbiTs != "" && p.i18nJson != ""
       && Component in sections && sections[Component] == p.componentTsx
       && VaultAbi in sections && sections[VaultAbi] == p.vaultAbiTs
       && I18n in sections && sections[I18n] == p.i18nJson {
      forall s: Section
        ensures s in sections && sections[s] != ""
      {
        match s
        case Component => case VaultAbi => case I18n =>
      }
    }
  }

  /** The lines are what stands between the line breaks. */
  lemma {:induction false} SplitIs(raw: string)
    ensures Join(Split(raw)) == raw && forall line :: line in Split(raw) ==> '\n' !in line
  {
    hide Join;
    if raw == "" {
      JoinOne("");
    } else {
      SplitIs(raw[1..]);
      var rest := Split(raw[1..]);
      assert [raw[0]] + raw[1..] == raw;
      if raw[0] == '\n' {
        NewLine(rest);
      } else {
        SplitLonger(raw[0], rest);
      }
    }
  }

  lemma JoinOne(line: string)
    ensures Join([line]) == line
  {
  }

  lemma NewLine(rest: seq<string>)
    requires rest != []
    ensures Join([""] + rest) == "\n" + Join(rest)
    ensures (forall line :: line in rest ==> '\n' !in line) ==> forall line :: line in [""] + rest ==> '\n' !in line
  {
    assert ([""] + rest)[1..] == rest;
  }

  lemma SplitLonger(c: char, rest: seq<string>)
    requires rest != [] && c != '\n' && forall line :: line in rest ==> '\n' !in line
    ensures var lines := [[c] + rest[0]] + rest[1..];
            Join(lines) == [c] + Join(rest) && forall line :: line in lines ==> '\n' !in line
  {
    hide Join;
    var more := rest[1..];
    assert rest == [rest[0]] + more;
    JoinLonger(c, rest[0], more);
    NoBreaks(c, rest[0], more);
  }

  lemma NoBreaks(c: char, first: string, more: seq<string>)
    requires c != '\n' && forall line :: line in [first] + more ==> '\n' !in line
    ensures forall line :: line in [[c] + first] + more ==> '\n' !in line
  {
    assert ([first] + more)[0] == first;
    forall line | line in [[c] + first] + more
      ensures '\n' !in line
    {
      if line in more {
        assert line in [first] + more;
      }
    }
  }

  lemma JoinLonger(c: char, first: string, more: seq<string>)
    ensures Join([[c] + first] + more) == [c] + Join([first] + more)
  {
    assert ([[c] + first] + more)[1..] == more && ([first] + more)[1..] == more;
    if more != [] {
      assert [c] + first + "\n" + Join(more) == [c] + (first + "\n" + Join(more));
    }
  }
}
