/** The texts and tests of the patches, and which tests the texts leave alone. */
module PatchTexts {
  import opened Wrappers
  import opened SolidityText
  import opened Patterns
  import opened FunctionHeads
  import opened Insertions

  // ---- Tests ----

  function Gap(x: string): Piece {
    Piece(false, Literal(x))
  }

  const PUSH := Pattern("entrants.push", [])
  const HAS_ENTERED := Pattern("hasEntered", [])
  const MAX_ENTRANTS := Pattern("MAX_ENTRANTS", [])
  const BELOW_255 := Pattern("entrants.length", [Gap("<"), Gap("255")])
  const BELOW_MAX := Pattern("entrants.length", [Gap("<"), Gap("type"), Gap("("), Gap("uint8"), Gap(").max")])
  const ANY_BELOW_255 := Pattern(".length", [Gap("<"), Gap("255")])
  const CONSUMER := Pattern("FlapAIConsumerBase", [])
  const FEE := Pattern("lastDrawFee", [])
  const FEE_RESET := Pattern("lastDrawFee", [Gap("="), Gap("0")])
  const CAST_N := Pattern("uint8", [Gap("("), Gap("n")])
  const CAST_ENTRANTS := Pattern("uint8", [Gap("("), Gap("entrants.length")])
  const CAST_SNAPSHOT := Pattern("uint8", [Gap("("), Gap("drawSnapshot.length")])
  const AT_MOST_255 := Pattern("<=", [Gap("255")])
  const AT_MOST_MAX := Pattern("<=", [Gap("type"), Gap("("), Gap("uint8"), Gap(").max")])
  const SNAPSHOT := Pattern("drawSnapshot.length", [])
  const RECEIVE_HEAD := Pattern("receive", [Gap("("), Gap(")")])

  lemma TestsAreValid()
    ensures Valid(PUSH) && Valid(HAS_ENTERED) && Valid(MAX_ENTRANTS) && Valid(BELOW_255) && Valid(BELOW_MAX)
    ensures Valid(CONSUMER) && Valid(FEE) && Valid(RECEIVE_HEAD)
  {
    hide Sane;
    LiteralsAreSane([]);
    LiteralsAreSane(BELOW_255.rest);
    LiteralsAreSane(BELOW_MAX.rest);
    LiteralsAreSane(RECEIVE_HEAD.rest);
  }

  lemma BodyTestsAreValid()
    ensures Valid(ANY_BELOW_255) && Valid(FEE_RESET) && Valid(SNAPSHOT)
    ensures Valid(CAST_N) && Valid(CAST_ENTRANTS) && Valid(CAST_SNAPSHOT)
  {
    hide Sane;
    LiteralsAreSane([]);
    LiteralsAreSane(ANY_BELOW_255.rest);
    LiteralsAreSane(FEE_RESET.rest);
    LiteralsAreSane(CAST_N.rest);
    LiteralsAreSane(CAST_ENTRANTS.rest);
    LiteralsAreSane(CAST_SNAPSHOT.rest);
  }

  lemma BoundsAreValid()
    ensures Valid(AT_MOST_255) && Valid(AT_MOST_MAX)
  {
    hide Sane;
    LiteralsAreSane(AT_MOST_255.rest);
    LiteralsAreSane(AT_MOST_MAX.rest);
  }

  // ---- Texts ----

  function CapDeclaration(): string {
    "\n    uint256 public constant MAX_ENTRANTS = 255;"
  }

  function EnterHeader(): string {
    "function enter(" + ") external nonReentrant"
  }

  function Disclosure(): string {
    "; winner selected by Flap AI provider (not on-chain VRF)"
  }

  function Reset(): string {
    "\n        lastDrawFee = 0;\n    "
  }

  /** A guard is a `require` up to its closing parenthesis, and this. */
  function GuardEnd(): string {
    ");\n        "
  }

  function CapGuard(): string {
    "require(entrants.length < " + ("MAX_ENTRANTS, " + "unicode\"Entrant cap / 参与者已满\"")
  }

  function Invalid(): string {
    "unicode\"Invalid entrant " + "count / 无效参与者数量\""
  }

  function Limit(): string {
    "uint8).max, " + Invalid()
  }

  function Snapshots(): string {
    "drawSnapshot.length > 0 && " + "drawSnapshot.length <= type"
  }

  function SnapshotGuard(): string {
    "require" + "(" + (Snapshots() + "(" + Limit())
  }

  function CountGuard(): string {
    "require(n > 0 && n <= type(" + Limit()
  }

  // ---- Characters the texts lack ----

  predicate InGuard(c: char) {
    c == '{' || c == '}' || c == 'f' || c == 'E' || c == 'F' || c == '['
  }

  predicate InLimit(c: char) {
    InGuard(c) || c == 's'
  }

  predicate InSnapshots(c: char) {
    InGuard(c) || c == 'c' || c == 'u'
  }

  predicate InCapGuard(c: char) {
    c == '{' || c == '}' || c == 'f' || c == 'm' || c == 'v'
  }

  predicate InDisclosure(c: char) {
    c == '"' || c == '{' || c == '}' || c == ']' || c == 'f' || c == 'u' || c == 'E' || c == 'm' || c == 'D'
  }

  predicate InReset(c: char) {
    c == '"' || c == '{' || c == '}' || c == '(' || c == 'u' || c == 'n' || c == 'v'
  }

  predicate InDeclaration(c: char) {
    c == '"' || c == '{' || c == '}' || c == 'f' || c == 'm' || c == 'v'
  }

  ghost predicate Lacks(t: string, letter: char -> bool) {
    forall i :: 0 <= i < |t| ==> !letter(t[i])
  }

  lemma CapGuardLetters()
    ensures Lacks(CapGuard(), InCapGuard)
  {
    hide Lacks;
    RequireLetters();
    CapLetters();
    LacksBoth("MAX_ENTRANTS, ", "unicode\"Entrant cap / 参与者已满\"", InCapGuard);
    LacksBoth("require(entrants.length < ", "MAX_ENTRANTS, " + "unicode\"Entrant cap / 参与者已满\"", InCapGuard);
  }

  lemma RequireLetters()
    ensures Lacks("require(entrants.length < ", InCapGuard)
  {
  }

  lemma CapLetters()
    ensures Lacks("MAX_ENTRANTS, ", InCapGuard) && Lacks("unicode\"Entrant cap / 参与者已满\"", InCapGuard)
  {
  }

  lemma LimitLetters()
    ensures Lacks(Limit(), InLimit)
  {
    hide Lacks;
    InvalidLetters();
    CountLetters();
    LacksBoth("unicode\"Invalid entrant ", "count / 无效参与者数量\"", InLimit);
    LacksBoth("uint8).max, ", Invalid(), InLimit);
  }

  lemma InvalidLetters()
    ensures Lacks("unicode\"Invalid entrant ", InLimit)
  {
  }

  lemma CountLetters()
    ensures Lacks("count / 无效参与者数量\"", InLimit) && Lacks("uint8).max, ", InLimit)
  {
  }

  lemma CountGuardLetters()
    ensures Lacks(CountGuard(), InLimit)
  {
    LimitLetters();
    assert Lacks("require(n > 0 && n <= type(", InLimit);
  }

  lemma SnapshotGuardLetters()
    ensures Lacks(SnapshotGuard(), InGuard) && Lacks("require", InLimit) && Lacks(Snapshots(), InSnapshots)
  {
    LimitLetters();
    assert Lacks("require", InLimit) && Lacks("(", InGuard);
    SnapshotsLetters();
  }

  lemma SnapshotsLetters()
    ensures Lacks(Snapshots(), InSnapshots)
  {
    assert Lacks("drawSnapshot.length > 0 && ", InSnapshots);
    assert Lacks("drawSnapshot.length <= type", InSnapshots);
  }

  lemma LacksBoth(a: string, b: string, letter: char -> bool)
    requires Lacks(a, letter) && Lacks(b, letter)
    ensures Lacks(a + b, letter)
  {
  }

  lemma DisclosureParts()
    ensures Disclosure() == "; winner selected by Flap AI" + " provider (not on-chain VRF)"
  {
  }

  lemma DisclosureLetters()
    ensures Lacks(Disclosure(), InDisclosure)
  {
    hide Lacks, Disclosure;
    DisclosureParts();
    SelectedLetters();
    ProviderLetters();
    LacksBoth("; winner selected by Flap AI", " provider (not on-chain VRF)", InDisclosure);
  }

  lemma SelectedLetters()
    ensures Lacks("; winner selected by Flap AI", InDisclosure)
  {
  }

  lemma ProviderLetters()
    ensures Lacks(" provider (not on-chain VRF)", InDisclosure)
  {
  }

  lemma ResetLetters()
    ensures Lacks(Reset(), InReset)
  {
  }

  lemma DeclarationParts()
    ensures CapDeclaration() == "\n    uint256 public con" + "stant MAX_ENTRANTS = 255;"
  {
  }

  lemma DeclarationLetters()
    ensures Lacks(CapDeclaration(), InDeclaration)
  {
    DeclarationParts();
    var a, b := "\n    uint256 public con", "stant MAX_ENTRANTS = 255;";
    assert Lacks(a, InDeclaration);
    assert Lacks(b, InDeclaration);
    LacksBoth(a, b, InDeclaration);
  }

  // ---- Which tests the texts fail ----

  lemma NoneFound(p: Pattern, c: char, t: string, letter: char -> bool)
    requires Valid(p) && c in p.first && letter(c) && Lacks(t, letter)
    ensures !Found(p, t)
  {
    hide Found;
    assert forall i :: 0 <= i < |t| ==> t[i] != c;
    NotFound(p, c, t);
  }

  ghost predicate GuardPasses(g: string) {
    && !Found(HEAD, g) && !Found(OPENING, g) && !Found(PUSH, g) && !Found(HAS_ENTERED, g)
    && !Found(ENTRANTS, g) && !Found(PUBLIC_ENTRANTS, g) && !Found(CONSUMER, g) && !Found(FEE, g)
  }

  /** What no letter can show: the pieces of the snapshot guard lack different letters. */
  lemma SnapshotGuardLacks(p: Pattern, c: char)
    requires Valid(p) && 's' in p.first && c in p.first && (c == 'c' || c == 'u') && !Uses(p, '(')
    ensures !Found(p, SnapshotGuard())
  {
    hide Found, Lacks, Snapshots, Limit;
    LimitLetters();
    SnapshotGuardLetters();
    NoneFound(p, 's', "require", InLimit);
    NoneFound(p, c, Snapshots(), InSnapshots);
    NoneFound(p, 's', Limit(), InLimit);
    if Found(p, SnapshotGuard()) {
      FoundAcross(p, "require", '(', Snapshots() + "(" + Limit());
      FoundAcross(p, Snapshots(), '(', Limit());
    }
  }

  lemma GuardPassesByLetters(g: string)
    requires Lacks(g, InGuard) && !Found(OPENING, g) && !Found(PUSH, g)
    ensures GuardPasses(g)
  {
    hide Found, Lacks;
    HeadIsValid();
    TargetsAreValid();
    TestsAreValid();
    NoneFound(HEAD, 'f', g, InGuard);
    NoneFound(HAS_ENTERED, 'E', g, InGuard);
    NoneFound(ENTRANTS, '[', g, InGuard);
    NoneFound(PUBLIC_ENTRANTS, '[', g, InGuard);
    NoneFound(CONSUMER, 'F', g, InGuard);
    NoneFound(FEE, 'F', g, InGuard);
  }

  lemma SnapshotGuardPasses()
    ensures GuardPasses(SnapshotGuard())
  {
    hide *;
    SnapshotGuardLetters();
    SnapshotGuardMisses();
    GuardPassesByLetters(SnapshotGuard());
  }

  lemma SnapshotGuardMisses()
    ensures !Found(OPENING, SnapshotGuard()) && !Found(PUSH, SnapshotGuard())
  {
    hide Found, Lacks, SnapshotGuard, Valid;
    TargetsAreValid();
    TestsAreValid();
    OpeningHasNoParenthesis('(');
    SnapshotGuardLacks(OPENING, 'c');
    SnapshotGuardLacks(PUSH, 'u');
  }

  lemma OpeningHasNoParenthesis(c: char)
    requires c == '(' || c == ')' || c == ';'
    ensures !Uses(OPENING, c)
  {
    hide Uses;
    UsesTwo(OPENING, Gap("="), Gap("unicode\""), c);
    OpeningLetters(c);
  }

  lemma OpeningLetters(c: char)
    requires !IsWord(c) && c != '.' && c != '"' && c != '='
    ensures c !in "schema.description" && c !in "unicode\"" && c !in "="
  {
  }

  lemma CountGuardPasses()
    ensures GuardPasses(CountGuard())
  {
    hide Found, Lacks, GuardPasses, SnapshotGuard, CountGuard;
    TargetsAreValid();
    TestsAreValid();
    CountGuardLetters();
    NoneFound(OPENING, 's', CountGuard(), InLimit);
    NoneFound(PUSH, 's', CountGuard(), InLimit);
    assert Lacks(CountGuard(), InGuard) by { FewerLetters(CountGuard()); }
    GuardPassesByLetters(CountGuard());
  }

  lemma FewerLetters(t: string)
    requires Lacks(t, InLimit)
    ensures Lacks(t, InGuard)
  {
  }

  lemma CapGuardPasses()
    ensures !Found(HEAD, CapGuard()) && !Found(OPENING, CapGuard())
  {
    hide Found, Lacks, CapGuard;
    HeadIsValid();
    TargetsAreValid();
    CapGuardLetters();
    NoneFound(HEAD, 'f', CapGuard(), InCapGuard);
    NoneFound(OPENING, 'm', CapGuard(), InCapGuard);
  }
}
