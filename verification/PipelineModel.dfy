/**
 * What the generation pipeline consults and records. Model, compiler, scanner, artifact reader, fork tests
 * and critic are oracles: arbitrary functions of the pass number, one draft per pass.
 */
module PipelineModel {
  import opened Wrappers
  import opened RetryHistory

  const MAX_PIPELINE_ATTEMPTS: nat := 12
  const MAX_TEST_FIX_ATTEMPTS: nat := 8
  const MAX_BLOCKS_PER_RULE: nat := 4
  const MAX_IDENTICAL_TEST_FAILURES: nat := 3
  const MAX_CRITIC_REPAIR_ATTEMPTS: nat := 2
  const MAX_DEPLOYED_BYTECODE_SIZE: nat := 24_576

  type Name = nat
  type Rule = nat
  type Signature = nat

  const EIP170_RULE: Rule := 0

  /** A value with the pass whose draft it was computed from. */
  datatype Tagged<+T> = Tagged(of: nat, value: T)

  datatype SafetyLevel = Pass | Warn | Fail

  datatype Finding = Finding(rule: Rule, blocking: bool)

  datatype Safety = Safety(level: SafetyLevel, findings: seq<Finding>)

  /** `abi` is the sorted list of function signatures; `hasCode` says the creation bytecode was read. */
  datatype Artifact = Artifact(abi: Option<seq<nat>>, hasCode: bool, deployedSize: Option<nat>)

  /** The contract name and public functions that decide whether a test suite can be reused. */
  datatype Interface = Interface(contractName: Name, functions: seq<nat>)

  /** A failed generation may already have written its suite and the bytecode file. */
  datatype SuiteGeneration = Generated | NotGenerated(wroteFiles: bool, infrastructure: bool)

  datatype ForkRun = ForkRun(ok: bool, skipped: bool, signature: Signature, infrastructure: bool)

  /** One fork run: the draft it judges, the draft its suite was written for, the draft whose bytecode it deploys. */
  datatype ForkEntry = ForkEntry(of: nat, suite: nat, deployed: nat)

  datatype Tests = Tests(passed: bool, run: ForkEntry)

  datatype Severity = Blocking | High | Medium | Low

  datatype Critique = Critique(reviewed: bool, severities: seq<Severity>)

  datatype Outcome = Passed | Failed | Skipped

  datatype CriticOutcome = Clean | FindingsRemain | NotRerun

  datatype RepairAttempt = RepairAttempt(
    attempt: nat, escalated: bool, compileResult: Outcome, scannerResult: Outcome, testResult: Outcome,
    criticResult: CriticOutcome)

  datatype Oracle = Oracle(
    contractName: nat -> Name,
    compiles: nat -> bool,
    findings: nat -> seq<Finding>,
    readArtifact: nat -> Artifact,
    buildViaIr: nat -> Option<Artifact>,
    suiteBinWritable: nat -> bool,
    generateSuite: nat -> SuiteGeneration,
    runFork: (nat, nat, nat) -> ForkRun,
    critique: nat -> Critique,
    hasEscalationModel: bool)
  {
    function Scan(version: nat): Safety {
      var fs := findings(version);
      Safety(if exists f :: f in fs && f.blocking then Fail else if fs != [] then Warn else Pass, fs)
    }

    /** The via-IR rescue only returns an artifact under the size limit. */
    function Rescue(version: nat): (r: Option<Artifact>)
      ensures r.Some? ==> SizeOk(r.value)
    {
      var built := buildViaIr(version);
      if built.Some? && SizeOk(built.value) then built else None
    }

    /** The artifact a pass ends up with. */
    function FinalArtifact(version: nat): Artifact {
      if SizeOk(readArtifact(version)) then readArtifact(version)
      else Rescue(version).GetOr(readArtifact(version))
    }

    /** The artifact of a draft, or of a run before its first one. */
    function ArtifactOf(version: nat): Artifact {
      if version == 0 then Artifact(None, false, None) else FinalArtifact(version)
    }

    /** What decides whether a suite can be reused for this draft. */
    function InterfaceOf(version: nat): Interface {
      Interface(contractName(version), FinalArtifact(version).abi.GetOr([]))
    }

    /** Writing a suite for a draft, which takes its creation bytecode. */
    function WriteSuite(version: nat): SuiteGeneration {
      if FinalArtifact(version).hasCode then generateSuite(version) else NotGenerated(false, false)
    }

    function ForkResult(e: ForkEntry): ForkRun {
      runFork(e.of, e.suite, e.deployed)
    }

    function ForkPassed(e: ForkEntry): bool {
      ForkResult(e).ok || ForkResult(e).skipped
    }

    function MaxRepairs(): nat {
      MAX_CRITIC_REPAIR_ATTEMPTS + (if hasEscalationModel then 1 else 0)
    }
  }

  /** Negation of deployedSizeFinding: an unknown size is not a finding. */
  predicate SizeOk(a: Artifact) {
    a.deployedSize.None? || a.deployedSize.value <= MAX_DEPLOYED_BYTECODE_SIZE
  }

  function BlockingRules(findings: seq<Finding>): (rules: seq<Rule>)
    ensures rules != [] <==> exists f :: f in findings && f.blocking
  {
    if findings == [] then []
    else (if findings[0].blocking then [findings[0].rule] else []) + BlockingRules(findings[1..])
  }

  predicate ShouldRepair(report: Option<Tagged<Critique>>) {
    report.Some? && report.value.value.reviewed
    && exists s :: s in report.value.value.severities && (s == Blocking || s == High)
  }

  function Count<T(==)>(log: seq<T>, x: T): nat {
    if log == [] then 0 else Count(log[..|log| - 1], x) + (if log[|log| - 1] == x then 1 else 0)
  }

  function Tally<T>(m: map<T, nat>, x: T): nat {
    if x in m then m[x] else 0
  }

  /** The counters agree with the log of everything counted. */
  ghost predicate Counted<T(!new)>(m: map<T, nat>, log: seq<T>) {
    forall x :: Tally(m, x) == Count(log, x)
  }

  ghost predicate AllBelow<T(!new)>(m: map<T, nat>, limit: nat) {
    forall x :: Tally(m, x) < limit
  }

  lemma CountOneMore<T(!new)>(m: map<T, nat>, log: seq<T>, x: T)
    requires Counted(m, log)
    ensures Counted(m[x := Tally(m, x) + 1], log + [x])
  {
    var longer := log + [x];
    assert longer[..|log|] == log;
    assert forall y :: Count(longer, y) == Count(log, y) + (if x == y then 1 else 0);
  }

  /** The state a rejected repair must restore. `code` and `source` are the pass that wrote them, 0 for none. */
  datatype Work = Work(
    ok: bool, code: nat, source: nat, artifact: Tagged<Artifact>, safety: Tagged<Safety>, tests: Tests,
    suitePath: Option<Name>)
  {
    predicate Passing() {
      ok && safety.value.level != Fail
    }
  }

  /** The suite of the run was written, for a draft with the interface of the one judged. */
  predicate SuiteFits(oracle: Oracle, e: ForkEntry) {
    oracle.InterfaceOf(e.suite) == oracle.InterfaceOf(e.of) && oracle.WriteSuite(e.suite).Generated?
  }

  /**
   * Passing tests are those of the current draft, which fits. They deployed its own bytecode exactly when that
   * could be read, and then their suite fits it.
   */
  ghost predicate TestsCurrent(oracle: Oracle, w: Work) {
    w.tests.passed ==>
      && w.Passing() && SizeOk(w.artifact.value)
      && w.tests.run.of == w.code && oracle.ForkPassed(w.tests.run)
      && (w.artifact.value.hasCode <==> w.tests.run.deployed == w.code)
      && (w.artifact.value.hasCode ==> SuiteFits(oracle, w.tests.run))
  }

  ghost predicate CritiqueCurrent(oracle: Oracle, w: Work, critique: Option<Tagged<Critique>>) {
    critique.Some? ==> critique.value == Tagged(w.code, oracle.critique(w.code))
  }

  // ---- One draft through compiler, scanner and artifact reader ----

  datatype Build = CompileFailed | Blocked | Oversize | Built

  function BuildVerdict(oracle: Oracle, version: nat): Build {
    if !oracle.compiles(version) then CompileFailed
    else if oracle.Scan(version).level == Fail then Blocked
    else if !SizeOk(oracle.FinalArtifact(version)) then Oversize
    else Built
  }

  /** The state after building the current draft: each stage is only reached past the one before it. */
  function AfterBuild(oracle: Oracle, w: Work): Work {
    match BuildVerdict(oracle, w.code)
    case CompileFailed => w.(ok := false)
    case Blocked => w.(ok := true, source := w.code, safety := Tagged(w.code, oracle.Scan(w.code)))
    case _ => w.(ok := true, source := w.code, safety := Tagged(w.code, oracle.Scan(w.code)),
                 artifact := Tagged(w.code, oracle.FinalArtifact(w.code)))
  }

  // ---- What the drafts leave behind ----

  /** The last draft up to this one that compiled, 0 if none did. */
  function LastCompiled(oracle: Oracle, version: nat): nat {
    if version == 0 || oracle.compiles(version) then version else LastCompiled(oracle, version - 1)
  }

  /** The last draft up to this one whose artifact was read, 0 if none was. */
  function LastRead(oracle: Oracle, version: nat): nat {
    if version == 0 || BuildVerdict(oracle, version) in {Oversize, Built} then version
    else LastRead(oracle, version - 1)
  }

  /**
   * Only the last draft decides `ok`. Source and safety verdict are those of the last one that compiled, the
   * artifact that of the last one that got past the scanner.
   */
  ghost predicate LeftBy(oracle: Oracle, w: Work, drafts: nat) {
    var last, read := LastCompiled(oracle, drafts), LastRead(oracle, drafts);
    && (w.ok <==> drafts > 0 && oracle.compiles(drafts)) && (last > 0 ==> w.source == last)
    && w.safety == Tagged(last, oracle.Scan(last)) && w.artifact == Tagged(read, oracle.ArtifactOf(read))
  }

  ghost predicate Settled(oracle: Oracle, w: Work) {
    LeftBy(oracle, w, w.code)
  }

  lemma BuildSettles(oracle: Oracle, w: Work)
    requires w.code > 0 && LeftBy(oracle, w, w.code - 1)
    ensures Settled(oracle, AfterBuild(oracle, w))
  {
    hide Oracle.Scan, Oracle.FinalArtifact, SizeOk;
  }

  /** The next draft changes nothing before it is built. */
  lemma AskedLeaves(oracle: Oracle, w: Work, version: nat)
    requires Settled(oracle, w)
    ensures LeftBy(oracle, w.(code := version), w.code)
  {
  }

  lemma TestedSettles(oracle: Oracle, w: Work, tests: Tests, path: Option<Name>)
    requires Settled(oracle, w)
    ensures Settled(oracle, w.(tests := tests, suitePath := path))
  {
  }

  /** A settled state passes exactly when its draft gets past the scanner, and then everything is that draft's. */
  lemma PassingIsRead(oracle: Oracle, w: Work)
    requires Settled(oracle, w) && w.code > 0
    ensures w.ok <==> oracle.compiles(w.code)
    ensures w.Passing() <==> BuildVerdict(oracle, w.code) in {Oversize, Built}
    ensures w.Passing() ==>
              && w.source == w.code && w.safety == Tagged(w.code, oracle.Scan(w.code))
              && w.artifact == Tagged(w.code, oracle.FinalArtifact(w.code))
  {
    hide Oracle.Scan, Oracle.FinalArtifact, SizeOk;
  }

  lemma ReadIsSettled(oracle: Oracle, w: Work)
    requires w.code > 0 && BuildVerdict(oracle, w.code) in {Oversize, Built} && w.ok && w.source == w.code
    requires w.safety == Tagged(w.code, oracle.Scan(w.code))
    requires w.artifact == Tagged(w.code, oracle.FinalArtifact(w.code))
    ensures Settled(oracle, w) && w.Passing()
  {
    hide Oracle.Scan, Oracle.FinalArtifact, SizeOk;
  }

  /** The final size check: an oversize artifact fails, unless its size was already reported. */
  function SizeChecked(safety: Safety, artifact: Artifact): Safety {
    if SizeOk(artifact) || exists f :: f in safety.findings && f.rule == EIP170_RULE then safety
    else Safety(Fail, safety.findings + [Finding(EIP170_RULE, true)])
  }

  /** The verdict these drafts leave in the end. */
  function Standing(oracle: Oracle, drafts: nat): Safety {
    SizeChecked(oracle.Scan(LastCompiled(oracle, drafts)), oracle.ArtifactOf(LastRead(oracle, drafts)))
  }

  /** What a result says of its draft. */
  ghost predicate Reported(oracle: Oracle, w: Work) {
    var last, read := LastCompiled(oracle, w.code), LastRead(oracle, w.code);
    && (w.ok <==> w.code > 0 && oracle.compiles(w.code)) && (last > 0 ==> w.source == last)
    && w.safety == Tagged(last, Standing(oracle, w.code)) && w.artifact == Tagged(read, oracle.ArtifactOf(read))
  }

  lemma CheckedIsReported(oracle: Oracle, w: Work, safety: Safety)
    requires Settled(oracle, w) && safety == SizeChecked(w.safety.value, w.artifact.value)
    ensures Reported(oracle, w.(safety := Tagged(w.safety.of, safety)))
  {
    hide Oracle.Scan, Oracle.FinalArtifact, SizeChecked;
  }

  // ---- What was tested ----

  /** The draft builds, and a suite can be written for it. */
  predicate Testable(oracle: Oracle, version: nat) {
    BuildVerdict(oracle, version) == Built && oracle.WriteSuite(version).Generated?
  }

  /** The run of a testable draft: its own bytecode under a suite that fits it. */
  predicate OwnRun(oracle: Oracle, e: ForkEntry) {
    e.deployed == e.of && SuiteFits(oracle, e)
  }

  /** Every testable draft was run, and each run judged a draft that builds, with its bytecode if it has any. */
  ghost predicate Tested(oracle: Oracle, attempts: nat, ran: seq<ForkEntry>) {
    && (forall v :: 0 < v <= attempts && Testable(oracle, v) ==> exists e :: e in ran && e.of == v)
    && (forall e :: e in ran ==>
          && 0 < e.of <= attempts && BuildVerdict(oracle, e.of) == Built
          && (oracle.FinalArtifact(e.of).hasCode <==> e.deployed == e.of)
          && (oracle.FinalArtifact(e.of).hasCode ==> SuiteFits(oracle, e)))
  }

  /** The tests are passed from the first fork run that passes on, and not before. */
  ghost predicate SomeRunPassed(oracle: Oracle, ran: seq<ForkEntry>, passed: bool) {
    passed <==> exists e :: e in ran && oracle.ForkPassed(e)
  }

  /** Drafting stops at the first draft whose run passes. */
  ghost predicate NonePassedBefore(oracle: Oracle, ran: seq<ForkEntry>, drafts: nat) {
    forall e :: e in ran && e.of < drafts ==> !oracle.ForkPassed(e)
  }

  lemma FewRuns(oracle: Oracle, e: ForkEntry)
    ensures SomeRunPassed(oracle, [], false) && SomeRunPassed(oracle, [e], oracle.ForkPassed(e))
  {
    hide Oracle.ForkPassed;
    assert e in [e];
  }

  lemma RunsAreEarlier(oracle: Oracle, attempts: nat, ran: seq<ForkEntry>)
    requires Tested(oracle, attempts, ran)
    ensures forall e :: e in ran ==> e.of <= attempts
  {
  }

  lemma NonePassedYet(oracle: Oracle, before: seq<ForkEntry>, ran: seq<ForkEntry>, drafts: nat)
    requires SomeRunPassed(oracle, before, false) && before <= ran && |ran| <= |before| + 1
    requires |ran| > |before| ==> ran[|before|].of == drafts
    ensures NonePassedBefore(oracle, ran, drafts)
  {
    hide Oracle.ForkPassed;
    assert forall e :: e in ran ==> e in before || (|ran| > |before| && e == ran[|before|]);
  }

  /**
   * A testable draft that passes under every suite the gate may choose for it: its own, or one written for an
   * earlier draft with the same interface.
   */
  ghost predicate Certain(oracle: Oracle, version: nat) {
    && Testable(oracle, version)
    && forall e: ForkEntry :: e.of == version && OwnRun(oracle, e) ==> oracle.ForkPassed(e)
  }

  /** Such a draft is never lost. */
  lemma CertainIsKept(oracle: Oracle, attempts: nat, ran: seq<ForkEntry>, passed: bool, version: nat)
    requires Tested(oracle, attempts, ran) && SomeRunPassed(oracle, ran, passed)
    requires 0 < version <= attempts && Certain(oracle, version)
    ensures passed
  {
    var e :| e in ran && e.of == version;
    assert oracle.FinalArtifact(version).hasCode;
    assert OwnRun(oracle, e);
  }

  /** A suite can be written for every draft that builds, and no fork run fails for lack of permissions. */
  ghost predicate ToolingWorks(oracle: Oracle) {
    && (forall v :: BuildVerdict(oracle, v) == Built ==> oracle.WriteSuite(v).Generated?)
    && (forall e :: !oracle.ForkResult(e).infrastructure)
  }

  lemma OneMoreRun(oracle: Oracle, drafts: nat, ran: seq<ForkEntry>, e: ForkEntry)
    requires Tested(oracle, drafts, ran) && e.of == drafts + 1 && BuildVerdict(oracle, e.of) == Built
    requires oracle.FinalArtifact(e.of).hasCode <==> e.deployed == e.of
    requires oracle.FinalArtifact(e.of).hasCode ==> SuiteFits(oracle, e)
    ensures Tested(oracle, drafts + 1, ran + [e])
    ensures forall passed :: SomeRunPassed(oracle, ran, passed) ==>
                               SomeRunPassed(oracle, ran + [e], passed || oracle.ForkPassed(e))
  {
    hide BuildVerdict, Testable, SuiteFits, Oracle.FinalArtifact, Oracle.ForkPassed;
    var more := ran + [e];
    assert more[|ran|] == e;
    assert forall d :: d in ran ==> d in more;
  }

  lemma NoRun(oracle: Oracle, drafts: nat, ran: seq<ForkEntry>)
    requires Tested(oracle, drafts, ran) && !Testable(oracle, drafts + 1)
    ensures Tested(oracle, drafts + 1, ran)
  {
    hide BuildVerdict, Testable, SuiteFits, Oracle.FinalArtifact;
  }

  // ---- What was detected ----

  function BlockedBy(oracle: Oracle, version: nat): seq<Rule> {
    if BuildVerdict(oracle, version) == Blocked then BlockingRules(oracle.findings(version)) else []
  }

  /** The blocking findings of the drafts up to this one, in order. */
  function BlockedThrough(oracle: Oracle, version: nat): seq<Rule> {
    if version == 0 then [] else BlockedThrough(oracle, version - 1) + BlockedBy(oracle, version)
  }

  /** No rule has used up its budget up to this draft. */
  ghost predicate Unspent(oracle: Oracle, version: nat) {
    forall rule :: Count(BlockedThrough(oracle, version), rule) < MAX_BLOCKS_PER_RULE
  }

  function Values<T>(log: seq<Tagged<T>>): seq<T> {
    seq(|log|, i requires 0 <= i < |log| => log[i].value)
  }

  lemma OneMoreValue<T>(log: seq<Tagged<T>>, x: Tagged<T>)
    ensures Values(log + [x]) == Values(log) + [x.value]
  {
  }

  /** Each failure counted is that of a failing run, at most one a pass and in order. */
  ghost predicate FailuresRan(oracle: Oracle, failures: seq<Tagged<Signature>>, ran: seq<ForkEntry>) {
    && (forall i, j :: 0 <= i < j < |failures| ==> failures[i].of < failures[j].of)
    && (forall f :: f in failures ==>
          exists e :: e in ran && e.of == f.of && !oracle.ForkPassed(e) && oracle.ForkResult(e).signature == f.value)
  }

  lemma FailuresStay(oracle: Oracle, failures: seq<Tagged<Signature>>, ran: seq<ForkEntry>, e: ForkEntry)
    requires FailuresRan(oracle, failures, ran)
    ensures FailuresRan(oracle, failures, ran + [e])
  {
    hide Oracle.ForkPassed, Oracle.ForkResult;
    assert forall d :: d in ran ==> d in ran + [e];
  }

  lemma OneMoreFailure(oracle: Oracle, failures: seq<Tagged<Signature>>, ran: seq<ForkEntry>, e: ForkEntry)
    requires FailuresRan(oracle, failures, ran) && (forall f :: f in failures ==> f.of < e.of)
    requires e in ran && !oracle.ForkPassed(e)
    ensures FailuresRan(oracle, failures + [Tagged(e.of, oracle.ForkResult(e).signature)], ran)
  {
    hide Oracle.ForkPassed, Oracle.ForkResult;
  }

  lemma BudgetLeft(m: map<Rule, nat>, oracle: Oracle, drafts: nat)
    requires Counted(m, BlockedThrough(oracle, drafts)) && AllBelow(m, MAX_BLOCKS_PER_RULE)
    ensures Unspent(oracle, drafts)
  {
  }

  // ---- Results ----

  /**
   * What a run returns, with its history: whether the main loop left a fix prompt, the model calls, the fork
   * runs, and everything counted.
   */
  datatype Result = Result(
    work: Work, critique: Option<Tagged<Critique>>, repairs: seq<RepairAttempt>, attempts: nat,
    testFixAttempts: nat, gaveUp: bool, fixPending: bool, calls: seq<seq<Message>>, ran: seq<ForkEntry>,
    blocked: seq<Rule>, failures: seq<Tagged<Signature>>)
  {
    /** `pipelineSuccess` for a contract deliverable. */
    predicate Deployable() {
      work.ok && work.safety.value.level != Fail && work.tests.passed
    }

    /** `autoFixExhausted`. */
    predicate Exhausted() {
      || gaveUp
      || (attempts >= MAX_PIPELINE_ATTEMPTS && work.safety.value.level == Fail)
      || (work.Passing() && !work.tests.passed && testFixAttempts >= MAX_TEST_FIX_ATTEMPTS
          && attempts >= MAX_PIPELINE_ATTEMPTS)
    }

    /** The passes that drafted, as opposed to repaired. */
    function Drafts(): nat {
      if attempts <= |repairs| then 0 else attempts - |repairs|
    }
  }

  /** Source, bytecode, safety verdict, passing test and critique of a result describe one and the same draft. */
  ghost predicate Coherent(oracle: Oracle, r: Result) {
    var v := r.work.code;
    && oracle.compiles(v) && r.work.source == v
    && r.work.safety == Tagged(v, oracle.Scan(v))
    && (forall f :: f in oracle.findings(v) ==> !f.blocking)
    && r.work.artifact == Tagged(v, oracle.FinalArtifact(v)) && SizeOk(r.work.artifact.value)
    && r.work.tests.run.of == v && oracle.ForkPassed(r.work.tests.run)
    && (r.work.artifact.value.hasCode <==> r.work.tests.run.deployed == v)
    && (r.work.artifact.value.hasCode ==> SuiteFits(oracle, r.work.tests.run))
    && (r.critique.Some? ==> r.critique.value == Tagged(v, oracle.critique(v)))
  }

  lemma DeployableIsCoherent(oracle: Oracle, r: Result)
    requires Reported(oracle, r.work) && TestsCurrent(oracle, r.work) && r.work.code > 0
    requires CritiqueCurrent(oracle, r.work, r.critique)
    ensures r.work.tests.passed <==> r.Deployable()
    ensures r.Deployable() ==> Coherent(oracle, r)
  {
    hide Oracle.FinalArtifact, Oracle.ForkPassed, SuiteFits, Oracle.Scan;
    if r.Deployable() {
      ReportedPasses(oracle, r.work);
    }
  }

  lemma ReportedPasses(oracle: Oracle, w: Work)
    requires Reported(oracle, w) && w.Passing() && SizeOk(w.artifact.value) && w.code > 0
    ensures oracle.compiles(w.code) && w.source == w.code && w.safety == Tagged(w.code, oracle.Scan(w.code))
    ensures w.artifact == Tagged(w.code, oracle.FinalArtifact(w.code))
    ensures forall f :: f in oracle.findings(w.code) ==> !f.blocking
  {
    hide Oracle.FinalArtifact, SizeOk;
    assert w.safety == Tagged(w.code, oracle.Scan(w.code));
    assert LastRead(oracle, w.code) == w.code;
  }

  /** Auto-fix gives up exactly when one rule or one test failure used up its budget. */
  ghost predicate GaveUpIff(gaveUp: bool, blocked: seq<Rule>, failures: seq<Signature>) {
    gaveUp <==> (exists rule :: Count(blocked, rule) >= MAX_BLOCKS_PER_RULE)
                || (exists failure :: Count(failures, failure) >= MAX_IDENTICAL_TEST_FAILURES)
  }

  /** Every call is well formed and follows the draft before it, but perhaps the first after the main loop. */
  ghost predicate Prompted(calls: seq<seq<Message>>, exception: int) {
    forall i :: 0 < i < |calls| && i != exception ==> Follows(calls[i], i)
  }

  /** That call follows the draft before it exactly when the main loop used up its passes with a fix pending. */
  ghost predicate FixShown(
    oracle: Oracle, calls: seq<seq<Message>>, ran: seq<ForkEntry>, testFixes: nat, fixPending: bool, exception: int)
  {
    && (testFixes > 0 ==> 0 <= exception < |calls| && (Follows(calls[exception], exception) <==> fixPending))
    && (fixPending ==> exception == MAX_PIPELINE_ATTEMPTS && Permitted(oracle, ran, exception))
  }

  ghost predicate Conversed(oracle: Oracle, head: seq<Message>, r: Result, exception: int) {
    && r.attempts == |r.calls| && (forall c :: c in r.calls ==> Callable(c, head)) && Prompted(r.calls, exception)
    && FixShown(oracle, r.calls, r.ran, r.testFixAttempts, r.fixPending, exception)
  }

  /** No run of these drafts failed for lack of permissions. */
  ghost predicate Permitted(oracle: Oracle, ran: seq<ForkEntry>, drafts: int) {
    forall e :: e in ran && e.of <= drafts ==> oracle.ForkPassed(e) || !oracle.ForkResult(e).infrastructure
  }

  /** What was counted is what the drafts and fork runs show, and no rule was spent before the last draft. */
  ghost predicate Explained(oracle: Oracle, r: Result) {
    && GaveUpIff(r.gaveUp, r.blocked, Values(r.failures))
    && r.blocked == BlockedThrough(oracle, r.Drafts()) && (r.Drafts() > 0 ==> Unspent(oracle, r.Drafts() - 1))
    && FailuresRan(oracle, r.failures, r.ran) && (forall f :: f in r.failures ==> f.of <= r.Drafts())
    && FailuresCounted(oracle, r.failures, r.ran, r.Drafts(), r.Drafts() - r.testFixAttempts)
  }

  /**
   * How drafting ends: with working tooling and failing tests, its passes are used up or it gave up, and it gives
   * up only on a draft that compiled. Test fixes follow exactly a passing draft whose tests fail.
   */
  ghost predicate Spent(
    oracle: Oracle, drafts: nat, testFixes: nat, gaveUp: bool, passed: bool, passing: bool)
  {
    && (ToolingWorks(oracle) && !passed && !gaveUp ==>
          drafts == MAX_PIPELINE_ATTEMPTS + testFixes && (passing ==> testFixes == MAX_TEST_FIX_ATTEMPTS))
    && (gaveUp ==> oracle.compiles(drafts))
    && (0 < testFixes < drafts ==> BuildVerdict(oracle, drafts - testFixes) in {Oversize, Built})
    && (testFixes == 0 && !passed && !gaveUp ==> !passing)
  }

  /**
   * With working tooling and failing tests, the run is reported as exhausted exactly when its last draft compiled
   * or the verdict its drafts left is a failure.
   */
  ghost predicate SpentOrGaveUp(oracle: Oracle, r: Result) {
    && Spent(oracle, r.Drafts(), r.testFixAttempts, r.gaveUp, r.work.tests.passed, r.critique.Some?)
    && Stopped(oracle, r.ran, r.Drafts(), r.testFixAttempts, r.gaveUp, PassedBy(oracle, r.ran, r.Drafts()),
               r.critique.Some?)
    && (ToolingWorks(oracle) && !r.work.tests.passed ==>
          (r.Exhausted() <==> oracle.compiles(r.Drafts()) || Standing(oracle, r.Drafts()).level == Fail))
  }

  /** A run of one of these drafts passed. */
  ghost predicate PassedBy(oracle: Oracle, ran: seq<ForkEntry>, drafts: int) {
    exists e :: e in ran && e.of <= drafts && oracle.ForkPassed(e)
  }

  lemma PassedByIs(oracle: Oracle, ran: seq<ForkEntry>, more: seq<ForkEntry>, drafts: nat, passed: bool)
    requires SomeRunPassed(oracle, ran, passed) && RunsLater(ran, more, drafts) && Tested(oracle, drafts, ran)
    ensures PassedBy(oracle, more, drafts) <==> passed
  {
    hide Oracle.ForkPassed;
    RunsAreEarlier(oracle, drafts, ran);
    assert forall e :: e in more && e.of <= drafts ==> e in ran;
    assert forall e :: e in ran ==> e in more;
  }

  lemma SpentIsExhausted(oracle: Oracle, r: Result, passed: bool)
    requires Spent(oracle, r.Drafts(), r.testFixAttempts, r.gaveUp, passed, r.critique.Some?)
    requires Stopped(oracle, r.ran, r.Drafts(), r.testFixAttempts, r.gaveUp, PassedBy(oracle, r.ran, r.Drafts()),
                     r.critique.Some?)
    requires passed ==> r.work.tests.passed
    requires Reported(oracle, r.work) && (r.critique.Some? ==> r.work.ok)
    requires r.critique.None? ==> r.work.code == r.Drafts() && r.repairs == []
    requires r.critique.Some? <==> BuildVerdict(oracle, r.Drafts()) in {Oversize, Built}
    ensures SpentOrGaveUp(oracle, r)
  {
    hide ToolingWorks, Oracle.FinalArtifact, LastRead, Oracle.ArtifactOf, SizeOk, Stopped;
  }

  predicate Accepted(repair: RepairAttempt) {
    repair.criticResult != NotRerun
  }

  /** The number of the last accepted repair, 0 if none was. */
  function LastAccepted(repairs: seq<RepairAttempt>): nat {
    if repairs == [] then 0
    else if Accepted(repairs[|repairs| - 1]) then |repairs|
    else LastAccepted(repairs[..|repairs| - 1])
  }

  /** One record per repair, numbered from one, within the budget, and none accepted that does not build. */
  ghost predicate RepairsNumbered(oracle: Oracle, drafts: nat, repairs: seq<RepairAttempt>) {
    && |repairs| <= oracle.MaxRepairs()
    && forall i :: 0 <= i < |repairs| ==>
                     && repairs[i].attempt == i + 1 && (repairs[i].escalated <==> i >= MAX_CRITIC_REPAIR_ATTEMPTS)
                     && (Accepted(repairs[i]) ==> BuildVerdict(oracle, drafts + i + 1) == Built)
  }

  /**
   * A repair asks to change the draft last accepted. Its call shows that draft exactly when it is the first
   * repair or the one before it was accepted: otherwise it shows the rejected draft.
   */
  ghost predicate ShowsRepaired(call: seq<Message>, drafts: nat, prior: seq<RepairAttempt>) {
    Follows(call, drafts + LastAccepted(prior)) <==> prior == [] || Accepted(prior[|prior| - 1])
  }

  ghost predicate RepairsShown(calls: seq<seq<Message>>, drafts: nat, repairs: seq<RepairAttempt>) {
    && |calls| == drafts + |repairs|
    && forall k :: 0 <= k < |repairs| ==> ShowsRepaired(calls[drafts + k], drafts, repairs[..k])
  }

  ghost predicate Serious(critique: Critique) {
    critique.reviewed && (Blocking in critique.severities || High in critique.severities)
  }

  lemma SeriousIsRepaired(v: nat, critique: Critique)
    ensures ShouldRepair(Some(Tagged(v, critique))) <==> Serious(critique)
  {
  }

  /** The critique of the draft left by these repairs was reviewed, and finds something blocking or high. */
  ghost predicate Due(oracle: Oracle, drafts: nat, prior: seq<RepairAttempt>) {
    Serious(oracle.critique(drafts + LastAccepted(prior)))
  }

  ghost predicate RepairsDue(oracle: Oracle, drafts: nat, repairs: seq<RepairAttempt>) {
    forall k :: 0 <= k < |repairs| ==> Due(oracle, drafts, repairs[..k])
  }

  /**
   * The record of the repair that wrote draft `v`: how far it got, whether a run of it passed, and that it was
   * accepted exactly when it builds and its tests pass, or no earlier tests did.
   */
  ghost predicate Recorded(oracle: Oracle, ran: seq<ForkEntry>, v: nat, r: RepairAttempt) {
    && r.compileResult == (if oracle.compiles(v) then Passed else Failed)
    && r.scannerResult == (if !oracle.compiles(v) then Skipped
                           else if BuildVerdict(oracle, v) == Built then Passed else Failed)
    && r.testResult == (if BuildVerdict(oracle, v) != Built then Skipped
                        else if exists e :: e in ran && e.of == v && oracle.ForkPassed(e) then Passed else Failed)
    && (r.criticResult != NotRerun <==>
          && BuildVerdict(oracle, v) == Built
          && (r.testResult == Passed || forall e :: e in ran && e.of < v ==> !oracle.ForkPassed(e)))
    && (r.criticResult != NotRerun ==> (r.criticResult == Clean <==> !Serious(oracle.critique(v))))
  }

  ghost predicate RepairsRecorded(oracle: Oracle, ran: seq<ForkEntry>, drafts: nat, repairs: seq<RepairAttempt>) {
    forall k :: 0 <= k < |repairs| ==> Recorded(oracle, ran, drafts + k + 1, repairs[k])
  }

  /** What a repair finds out is what its record says. */
  lemma RecordIs(oracle: Oracle, before: seq<ForkEntry>, ran: seq<ForkEntry>, hadTests: bool, v: nat, r: RepairAttempt)
    requires before <= ran && SomeRunPassed(oracle, before, hadTests) && (forall e :: e in before ==> e.of < v)
    requires forall k :: |before| <= k < |ran| ==> ran[k].of == v
    requires r.compileResult == (if oracle.compiles(v) then Passed else Failed)
    requires r.scannerResult == (if !oracle.compiles(v) then Skipped
                                 else if BuildVerdict(oracle, v) == Built then Passed else Failed)
    requires r.testResult == Skipped <==> BuildVerdict(oracle, v) != Built
    requires SomeRunPassed(oracle, ran[|before|..], r.testResult == Passed)
    requires r.criticResult != NotRerun <==> BuildVerdict(oracle, v) == Built && (r.testResult == Passed || !hadTests)
    requires r.criticResult != NotRerun ==> (r.criticResult == Clean <==> !Serious(oracle.critique(v)))
    ensures Recorded(oracle, ran, v, r)
  {
    hide BuildVerdict, Oracle.ForkPassed, Serious;
    RunsOf(before, ran, v);
  }

  lemma RunsOf(before: seq<ForkEntry>, ran: seq<ForkEntry>, v: nat)
    requires before <= ran && (forall e :: e in before ==> e.of < v)
    requires forall k :: |before| <= k < |ran| ==> ran[k].of == v
    ensures forall e :: e in before <==> e in ran && e.of < v
    ensures forall e :: e in ran[|before|..] <==> e in ran && e.of == v
  {
    assert ran == before + ran[|before|..];
    assert forall e :: e in ran[|before|..] ==> e.of == v;
  }

  lemma StillRecorded(
    oracle: Oracle, ran: seq<ForkEntry>, more: seq<ForkEntry>, drafts: nat, repairs: seq<RepairAttempt>)
    requires RepairsRecorded(oracle, ran, drafts, repairs) && RunsLater(ran, more, drafts + |repairs|)
    ensures RepairsRecorded(oracle, more, drafts, repairs)
  {
    hide Recorded;
    forall k | 0 <= k < |repairs|
      ensures Recorded(oracle, more, drafts + k + 1, repairs[k])
    {
      OneStillRecorded(oracle, ran, more, drafts + k + 1, repairs[k]);
    }
  }

  lemma OneStillRecorded(oracle: Oracle, ran: seq<ForkEntry>, more: seq<ForkEntry>, v: nat, r: RepairAttempt)
    requires Recorded(oracle, ran, v, r) && RunsLater(ran, more, v)
    ensures Recorded(oracle, more, v, r)
  {
    hide BuildVerdict, Oracle.ForkPassed, Serious;
    assert forall e :: e in more && e.of <= v ==> e in ran;
    assert forall e :: e in ran ==> e in more;
  }

  lemma OneMoreRecorded(
    oracle: Oracle, ran: seq<ForkEntry>, more: seq<ForkEntry>, drafts: nat, repairs: seq<RepairAttempt>,
    repair: RepairAttempt)
    requires RepairsRecorded(oracle, ran, drafts, repairs) && RunsLater(ran, more, drafts + |repairs|)
    requires Recorded(oracle, more, drafts + |repairs| + 1, repair)
    ensures RepairsRecorded(oracle, more, drafts, repairs + [repair])
  {
    hide Recorded, RunsLater;
    StillRecorded(oracle, ran, more, drafts, repairs);
  }

  lemma NoRepairs(oracle: Oracle, calls: seq<seq<Message>>, ran: seq<ForkEntry>, drafts: nat)
    requires |calls| == drafts
    ensures RepairsRecorded(oracle, ran, drafts, [])
    ensures RepairsNumbered(oracle, drafts, []) && RepairsShown(calls, drafts, []) && RepairsDue(oracle, drafts, [])
    ensures LastAccepted([]) == 0
  {
  }

  lemma OneMoreDue(oracle: Oracle, drafts: nat, repairs: seq<RepairAttempt>, repair: RepairAttempt)
    requires RepairsDue(oracle, drafts, repairs) && Due(oracle, drafts, repairs)
    ensures RepairsDue(oracle, drafts, repairs + [repair])
  {
    hide Due;
    var more, n := repairs + [repair], |repairs|;
    assert more[..n] == repairs;
    forall k | 0 <= k < n
      ensures more[..k] == repairs[..k]
    {
    }
  }

  lemma RepairIsDue(oracle: Oracle, drafts: nat, prior: seq<RepairAttempt>)
    requires var v := drafts + LastAccepted(prior); ShouldRepair(Some(Tagged(v, oracle.critique(v))))
    ensures Due(oracle, drafts, prior)
  {
    hide LastAccepted;
    var v := drafts + LastAccepted(prior);
    SeriousIsRepaired(v, oracle.critique(v));
  }

  /**
   * A run whose critique still finds something blocking or high used all its repairs, and there is a repair
   * exactly when the last draft gets past compiler and scanner to such a critique.
   */
  lemma RepairsAreDue(oracle: Oracle, r: Result)
    requires r.critique.Some? <==> BuildVerdict(oracle, r.Drafts()) in {Oversize, Built}
    requires r.critique.Some? ==> r.critique.value == Tagged(r.work.code, oracle.critique(r.work.code))
    requires r.critique.None? ==> r.repairs == []
    requires r.work.code == r.Drafts() + LastAccepted(r.repairs) && RepairsDue(oracle, r.Drafts(), r.repairs)
    requires ShouldRepair(r.critique) ==> |r.repairs| == oracle.MaxRepairs()
    ensures r.critique.Some? && r.critique.value.value.reviewed
            && (Blocking in r.critique.value.value.severities || High in r.critique.value.value.severities)
            ==> |r.repairs| == if oracle.hasEscalationModel then 3 else 2
    ensures r.repairs != []
            <==> && oracle.compiles(r.Drafts()) && (forall f :: f in oracle.findings(r.Drafts()) ==> !f.blocking)
                 && var critique := oracle.critique(r.Drafts());
                    critique.reviewed && (Blocking in critique.severities || High in critique.severities)
  {
    hide SizeOk, Oracle.FinalArtifact;
    if r.repairs != [] {
      assert r.repairs[..0] == [];
      assert Due(oracle, r.Drafts(), r.repairs[..0]);
    }
  }

  lemma OneMoreNumbered(oracle: Oracle, drafts: nat, repairs: seq<RepairAttempt>, repair: RepairAttempt)
    requires RepairsNumbered(oracle, drafts, repairs) && |repairs| < oracle.MaxRepairs()
    requires repair.attempt == |repairs| + 1 && (repair.escalated <==> |repairs| >= MAX_CRITIC_REPAIR_ATTEMPTS)
    requires Accepted(repair) ==> BuildVerdict(oracle, drafts + |repairs| + 1) == Built
    ensures RepairsNumbered(oracle, drafts, repairs + [repair])
  {
    hide BuildVerdict, Oracle.MaxRepairs;
  }

  lemma OneMoreShown(
    calls: seq<seq<Message>>, drafts: nat, repairs: seq<RepairAttempt>, call: seq<Message>, repair: RepairAttempt)
    requires RepairsShown(calls, drafts, repairs) && Follows(call, drafts + |repairs|)
    ensures RepairsShown(calls + [call], drafts, repairs + [repair])
    ensures ShowsRepaired(call, drafts, repairs)
  {
    hide ShowsRepaired, Follows;
    var more, longer, n := repairs + [repair], calls + [call], |repairs|;
    ShowsOneDraft(call, drafts, repairs);
    assert more[..n] == repairs && longer[drafts + n] == call;
    forall k | 0 <= k < n
      ensures more[..k] == repairs[..k] && longer[drafts + k] == calls[drafts + k]
    {
    }
  }

  lemma OneMoreAccepted(repairs: seq<RepairAttempt>, repair: RepairAttempt)
    ensures LastAccepted(repairs + [repair]) == if Accepted(repair) then |repairs| + 1 else LastAccepted(repairs)
  {
    hide Accepted;
    assert (repairs + [repair])[..|repairs|] == repairs;
  }

  lemma ShowsOneDraft(call: seq<Message>, drafts: nat, prior: seq<RepairAttempt>)
    requires Follows(call, drafts + |prior|)
    ensures ShowsRepaired(call, drafts, prior)
  {
    hide LastAccepted;
    LastAcceptedIsLast(prior);
  }

  lemma {:induction false} LastAcceptedIsLast(repairs: seq<RepairAttempt>)
    ensures LastAccepted(repairs) <= |repairs|
    ensures LastAccepted(repairs) == |repairs| <==> repairs == [] || Accepted(repairs[|repairs| - 1])
  {
    if repairs != [] {
      LastAcceptedIsLast(repairs[..|repairs| - 1]);
    }
  }

  // ---- Why drafting stops ----

  ghost predicate Ran(ran: seq<ForkEntry>, v: nat) {
    exists e :: e in ran && e.of == v
  }

  /** The last draft up to this one that builds was never run: no suite could be written for it. */
  ghost predicate LastUnwritten(oracle: Oracle, ran: seq<ForkEntry>, v: nat) {
    v > 0 && if BuildVerdict(oracle, v) == Built then !Ran(ran, v) else LastUnwritten(oracle, ran, v - 1)
  }

  /**
   * The tooling fails a draft that builds: no suite could be written, for the second time in a row; or, in the main
   * loop, its suite or its run fails for lack of permissions.
   */
  ghost predicate Broken(oracle: Oracle, ran: seq<ForkEntry>, v: nat, main: bool) {
    && v > 0 && BuildVerdict(oracle, v) == Built
    && if Ran(ran, v) then
         main && exists e :: e in ran && e.of == v && !oracle.ForkPassed(e) && oracle.ForkResult(e).infrastructure
       else
         || LastUnwritten(oracle, ran, v - 1)
         || (main && oracle.WriteSuite(v).NotGenerated? && oracle.WriteSuite(v).infrastructure)
  }

  ghost predicate Unbroken(oracle: Oracle, ran: seq<ForkEntry>, from: int, upto: int, main: bool) {
    forall v: nat :: from < v <= upto ==> !Broken(oracle, ran, v, main)
  }

  lemma NewRun(oracle: Oracle, before: seq<ForkEntry>, ran: seq<ForkEntry>, e: ForkEntry, v: nat, main: bool)
    requires v > 0 && BuildVerdict(oracle, v) == Built && e.of == v
    requires ran == before + [e] && forall b :: b in before ==> b.of < v
    ensures !LastUnwritten(oracle, ran, v)
    ensures Broken(oracle, ran, v, main) <==> main && !oracle.ForkPassed(e) && oracle.ForkResult(e).infrastructure
  {
    hide BuildVerdict, Oracle.ForkPassed, Oracle.ForkResult, Oracle.WriteSuite;
    assert forall d :: d in ran && d.of == v ==> d == e;
    assert e in ran;
  }

  lemma NoNewRun(oracle: Oracle, ran: seq<ForkEntry>, v: nat, main: bool)
    requires v > 0 && BuildVerdict(oracle, v) == Built && oracle.WriteSuite(v).NotGenerated?
    requires forall b :: b in ran ==> b.of < v
    ensures LastUnwritten(oracle, ran, v)
    ensures Broken(oracle, ran, v, main)
            <==> LastUnwritten(oracle, ran, v - 1) || (main && oracle.WriteSuite(v).infrastructure)
  {
    hide BuildVerdict, Oracle.ForkPassed, Oracle.ForkResult, Oracle.WriteSuite;
  }

  lemma NotBuilt(oracle: Oracle, ran: seq<ForkEntry>, v: nat, main: bool)
    requires v > 0 && BuildVerdict(oracle, v) != Built
    ensures LastUnwritten(oracle, ran, v) <==> LastUnwritten(oracle, ran, v - 1)
    ensures !Broken(oracle, ran, v, main)
  {
    hide BuildVerdict;
  }

  lemma RanLater(ran: seq<ForkEntry>, more: seq<ForkEntry>, v: nat, n: int)
    requires RunsLater(ran, more, n) && v <= n
    ensures Ran(more, v) <==> Ran(ran, v)
    ensures forall e :: e in more && e.of == v <==> e in ran && e.of == v
  {
    assert forall e :: e in more && e.of <= n ==> e in ran;
    assert forall e :: e in ran ==> e in more;
  }

  lemma {:induction false} UnwrittenLater(oracle: Oracle, ran: seq<ForkEntry>, more: seq<ForkEntry>, v: nat, n: int)
    requires RunsLater(ran, more, n) && v <= n
    ensures LastUnwritten(oracle, more, v) <==> LastUnwritten(oracle, ran, v)
  {
    hide BuildVerdict, RunsLater, Ran;
    RanLater(ran, more, v, n);
    if v > 0 {
      UnwrittenLater(oracle, ran, more, v - 1, n);
    }
  }

  lemma BrokenLater(oracle: Oracle, ran: seq<ForkEntry>, more: seq<ForkEntry>, v: nat, n: int, main: bool)
    requires RunsLater(ran, more, n) && v <= n
    ensures Broken(oracle, more, v, main) <==> Broken(oracle, ran, v, main)
  {
    hide BuildVerdict, RunsLater, Ran, LastUnwritten, Oracle.ForkPassed, Oracle.ForkResult, Oracle.WriteSuite;
    RanLater(ran, more, v, n);
    if v > 0 {
      UnwrittenLater(oracle, ran, more, v - 1, n);
    }
  }

  lemma UnbrokenLater(
    oracle: Oracle, ran: seq<ForkEntry>, more: seq<ForkEntry>, from: int, upto: int, n: int, main: bool)
    requires RunsLater(ran, more, n) && upto <= n && Unbroken(oracle, ran, from, upto, main)
    ensures Unbroken(oracle, more, from, upto, main)
  {
    hide Broken, RunsLater;
    forall v: nat | from < v <= upto
      ensures !Broken(oracle, more, v, main)
    {
      BrokenLater(oracle, ran, more, v, n, main);
    }
  }

  lemma NoneBroken(oracle: Oracle, ran: seq<ForkEntry>, from: int, upto: int, main: bool)
    requires upto <= from
    ensures Unbroken(oracle, ran, from, upto, main)
  {
  }

  /** One more pass whose tooling works. */
  lemma OneMoreUnbroken(oracle: Oracle, before: seq<ForkEntry>, ran: seq<ForkEntry>, from: int, v: nat, main: bool)
    requires v > 0 && RunsLater(before, ran, v - 1) && Unbroken(oracle, before, from, v - 1, main)
    ensures Unbroken(oracle, ran, from, v - 1, main)
    ensures !Broken(oracle, ran, v, main) ==> Unbroken(oracle, ran, from, v, main)
  {
    hide Broken, RunsLater;
    UnbrokenLater(oracle, before, ran, from, v - 1, v - 1, main);
  }

  lemma UnbrokenPermits(oracle: Oracle, ran: seq<ForkEntry>, drafts: nat)
    requires Tested(oracle, drafts, ran) && Unbroken(oracle, ran, 0, drafts, true)
    ensures Permitted(oracle, ran, drafts)
  {
    hide BuildVerdict, Oracle.ForkPassed, Oracle.ForkResult, Oracle.WriteSuite, Oracle.FinalArtifact, SuiteFits,
         LastUnwritten, Testable;
    forall e | e in ran && e.of <= drafts && !oracle.ForkPassed(e)
      ensures !oracle.ForkResult(e).infrastructure
    {
      assert !Broken(oracle, ran, e.of, true);
    }
  }

  lemma ToolingIsUnbroken(oracle: Oracle, ran: seq<ForkEntry>, drafts: nat, v: nat, main: bool)
    requires ToolingWorks(oracle) && Tested(oracle, drafts, ran) && v <= drafts
    ensures !Broken(oracle, ran, v, main)
  {
    hide Oracle.ForkPassed, Oracle.FinalArtifact, SuiteFits, LastUnwritten;
    assert forall e :: !oracle.ForkResult(e).infrastructure;
    hide Oracle.ForkResult;
    hide Oracle.WriteSuite;
    if v > 0 && BuildVerdict(oracle, v) == Built {
      assert Testable(oracle, v);
    }
  }

  /**
   * Why drafting ended: no loop went on behind a draft the tooling failed, and each stopped for a passing test, a
   * spent budget, its last pass, or such a draft.
   */
  ghost predicate Stopped(
    oracle: Oracle, ran: seq<ForkEntry>, drafts: nat, testFixes: nat, gaveUp: bool, passed: bool, passing: bool)
  {
    && testFixes < drafts
    && var main := drafts - testFixes;
       && Unbroken(oracle, ran, 0, main - 1, true) && Unbroken(oracle, ran, main, drafts - 1, false)
       && (main < MAX_PIPELINE_ATTEMPTS && (testFixes == 0 ==> !passed && !gaveUp) ==> Broken(oracle, ran, main, true))
       && (0 < testFixes < MAX_TEST_FIX_ATTEMPTS && passing && !passed && !gaveUp ==>
             Broken(oracle, ran, drafts, false))
       && (gaveUp ==> oracle.compiles(drafts))
       && (testFixes > 0 ==> BuildVerdict(oracle, main) in {Oversize, Built})
       && (testFixes == 0 && !passed && !gaveUp ==> !passing)
  }

  lemma StoppedIsSpent(
    oracle: Oracle, ran: seq<ForkEntry>, drafts: nat, testFixes: nat, gaveUp: bool, passed: bool, passing: bool)
    requires Stopped(oracle, ran, drafts, testFixes, gaveUp, passed, passing) && Tested(oracle, drafts, ran)
    requires drafts - testFixes <= MAX_PIPELINE_ATTEMPTS && testFixes <= MAX_TEST_FIX_ATTEMPTS
    ensures Spent(oracle, drafts, testFixes, gaveUp, passed, passing)
  {
    hide Broken, Tested, ToolingWorks, BuildVerdict;
    if ToolingWorks(oracle) {
      ToolingIsUnbroken(oracle, ran, drafts, drafts - testFixes, true);
      ToolingIsUnbroken(oracle, ran, drafts, drafts, false);
    }
  }

  lemma StillStopped(
    oracle: Oracle, ran: seq<ForkEntry>, more: seq<ForkEntry>, drafts: nat, testFixes: nat, gaveUp: bool, passed: bool,
    passing: bool)
    requires Stopped(oracle, ran, drafts, testFixes, gaveUp, passed, passing) && RunsLater(ran, more, drafts)
    ensures Stopped(oracle, more, drafts, testFixes, gaveUp, passed, passing)
  {
    hide Broken, BuildVerdict, RunsLater, Unbroken;
    var main := drafts - testFixes;
    UnbrokenLater(oracle, ran, more, 0, main - 1, drafts, true);
    UnbrokenLater(oracle, ran, more, main, drafts - 1, drafts, false);
    BrokenLater(oracle, ran, more, main, drafts, true);
    BrokenLater(oracle, ran, more, drafts, drafts, false);
  }

  // ---- Which failures are counted ----

  /** Every failing run of a draft is counted, unless it fails for lack of permissions in the main loop. */
  ghost predicate FailuresCounted(
    oracle: Oracle, failures: seq<Tagged<Signature>>, ran: seq<ForkEntry>, drafts: int, main: int)
  {
    forall e :: e in ran && e.of <= drafts && !oracle.ForkPassed(e) ==>
                  (Tagged(e.of, oracle.ForkResult(e).signature) in failures
                   <==> !(e.of <= main && oracle.ForkResult(e).infrastructure))
  }

  lemma NothingCounted(oracle: Oracle, failures: seq<Tagged<Signature>>, ran: seq<ForkEntry>)
    requires Tested(oracle, 0, ran)
    ensures FailuresCounted(oracle, failures, ran, 0, 0)
  {
  }

  /** One more pass. */
  lemma OneMoreCounted(
    oracle: Oracle, failures: seq<Tagged<Signature>>, more: seq<Tagged<Signature>>, before: seq<ForkEntry>,
    ran: seq<ForkEntry>, v: nat, inMain: bool, main: int)
    requires v > 0 && FailuresCounted(oracle, failures, before, v - 1, if inMain then v - 1 else main)
    requires !inMain ==> main < v
    requires (forall e :: e in before ==> e.of < v) && (forall f :: f in failures ==> f.of < v)
    requires before <= ran && |ran| <= |before| + 1 && (|ran| > |before| ==> ran[|before|].of == v)
    requires more == failures + if |ran| > |before| && !oracle.ForkPassed(ran[|before|])
                                   && !(inMain && oracle.ForkResult(ran[|before|]).infrastructure)
                                then [Tagged(v, oracle.ForkResult(ran[|before|]).signature)] else []
    ensures FailuresCounted(oracle, more, ran, v, if inMain then v else main)
  {
    hide Oracle.ForkPassed, Oracle.ForkResult;
    forall e | e in ran && e.of <= v && !oracle.ForkPassed(e)
      ensures Tagged(e.of, oracle.ForkResult(e).signature) in more
              <==> !(e.of <= (if inMain then v else main) && oracle.ForkResult(e).infrastructure)
    {
      assert e in before || (|ran| > |before| && e == ran[|before|]);
      if e in before {
        assert forall f :: f in more && f.of < v ==> f in failures;
        assert forall f :: f in failures ==> f in more;
      }
    }
  }

  lemma StillCounted(
    oracle: Oracle, failures: seq<Tagged<Signature>>, ran: seq<ForkEntry>, more: seq<ForkEntry>, drafts: int, main: int)
    requires FailuresCounted(oracle, failures, ran, drafts, main) && RunsLater(ran, more, drafts)
    ensures FailuresCounted(oracle, failures, more, drafts, main)
  {
    hide Oracle.ForkPassed, Oracle.ForkResult;
    assert forall e :: e in more && e.of <= drafts ==> e in ran;
  }

  /** What the test-fix loop did so far: its passes come behind pass `main`, and all but perhaps the last worked. */
  ghost predicate Fixing(
    oracle: Oracle, start: seq<ForkEntry>, ran: seq<ForkEntry>, failures: seq<Tagged<Signature>>, main: nat,
    drafts: nat, again: bool)
  {
    && RunsLater(start, ran, main) && Unbroken(oracle, ran, main, drafts - 1, false)
    && (again ==> Unbroken(oracle, ran, main, drafts, false))
    && FailuresCounted(oracle, failures, ran, drafts, main)
  }

  lemma LessFixing(
    oracle: Oracle, start: seq<ForkEntry>, ran: seq<ForkEntry>, failures: seq<Tagged<Signature>>, main: nat,
    drafts: nat, again: bool, less: bool)
    requires Fixing(oracle, start, ran, failures, main, drafts, again) && (less ==> again)
    ensures Fixing(oracle, start, ran, failures, main, drafts, less) && RunsLater(start, ran, main)
  {
    hide Unbroken, FailuresCounted, RunsLater;
  }

  lemma StartsFixing(oracle: Oracle, ran: seq<ForkEntry>, failures: seq<Tagged<Signature>>, main: nat)
    requires FailuresCounted(oracle, failures, ran, main, main)
    ensures Fixing(oracle, ran, ran, failures, main, main, true)
  {
    hide Broken, FailuresCounted;
  }

  lemma KeepsFixing(
    oracle: Oracle, start: seq<ForkEntry>, before: seq<ForkEntry>, ran: seq<ForkEntry>,
    failures: seq<Tagged<Signature>>, more: seq<Tagged<Signature>>, main: nat, v: nat)
    requires v > main && Fixing(oracle, start, before, failures, main, v - 1, true) && Tested(oracle, v - 1, before)
    requires forall f :: f in failures ==> f.of < v
    requires before <= ran && |ran| <= |before| + 1 && (|ran| > |before| ==> ran[|before|].of == v)
    requires more == failures + if |ran| > |before| && !oracle.ForkPassed(ran[|before|])
                                then [Tagged(v, oracle.ForkResult(ran[|before|]).signature)] else []
    ensures Fixing(oracle, start, ran, more, main, v, !Broken(oracle, ran, v, false))
  {
    hide Broken, FailuresCounted, RunsLater, Tested, Unbroken;
    RunsAreEarlier(oracle, v - 1, before);
    RunsLaterSelf(before, v - 1);
    OneLater(before, before, ran, v - 1);
    OneLater(start, before, ran, main);
    OneMoreUnbroken(oracle, before, ran, main, v, false);
    OneMoreCounted(oracle, failures, more, before, ran, v, false, main);
  }

  // ---- Which suite a gate runs ----

  datatype SuiteChoice = Reuse | Regenerate | RunAsIs

  /** The branches of the integration gate before any test runs. */
  function ChooseSuite(
    suite: Option<Interface>, current: Interface, hasCode: bool, binWritable: bool, havePath: bool): SuiteChoice
  {
    if suite == Some(current) && hasCode then (if binWritable then Reuse else Regenerate)
    else if suite != Some(current) || !havePath then Regenerate
    else RunAsIs
  }

  /** Test suites kept between passes: bytecode files and suite files by contract name, and what may be reused. */
  datatype Suites = Suites(
    bins: map<Name, nat>, written: map<Name, nat>, reusable: Option<Interface>, generationFailures: nat)

  /** Both files of a name hold the work of a draft of that name. */
  ghost predicate FilesNamed(oracle: Oracle, s: Suites, drafts: nat) {
    && s.bins.Keys == s.written.Keys
    && (forall n :: n in s.bins ==> 0 < s.bins[n] <= drafts)
    && (forall n :: n in s.written ==> 0 < s.written[n] <= drafts && oracle.contractName(s.written[n]) == n)
  }

  /** The reusable suite was written for a draft with that interface, and the suite in use was written. */
  ghost predicate Filed(oracle: Oracle, path: Option<Name>, s: Suites, drafts: nat) {
    && FilesNamed(oracle, s, drafts)
    && (s.reusable.Some? ==>
          && s.reusable.value.contractName in s.written
          && var suite := s.written[s.reusable.value.contractName];
             oracle.InterfaceOf(suite) == s.reusable.value && oracle.WriteSuite(suite).Generated?)
    && (path.Some? ==> path.value in s.written)
  }

  /** The state in front of a fork run, or the kind of failure that kept the suite from being written. */
  datatype Preparation = Preparation(failure: Option<bool>, path: Option<Name>, suites: Suites)

  function Choice(oracle: Oracle, version: nat, path: Option<Name>, s: Suites): SuiteChoice {
    ChooseSuite(s.reusable, oracle.InterfaceOf(version), oracle.FinalArtifact(version).hasCode,
                oracle.suiteBinWritable(version), path.Some?)
  }

  function Prepared(oracle: Oracle, version: nat, path: Option<Name>, s: Suites): Preparation {
    var name := oracle.contractName(version);
    match Choice(oracle, version, path, s)
    case RunAsIs => Preparation(None, path, s)
    case Reuse => Preparation(None, Some(name), s.(bins := s.bins[name := version]))
    case Regenerate =>
      var generated := oracle.WriteSuite(version);
      var files := if generated.Generated? || generated.wroteFiles
                   then s.(bins := s.bins[name := version], written := s.written[name := version]) else s;
      if generated.Generated?
      then Preparation(None, Some(name), files.(reusable := Some(oracle.InterfaceOf(version))))
      else Preparation(Some(generated.infrastructure), path,
                       files.(reusable := None, generationFailures := s.generationFailures + 1))
  }

  /** The run the gate starts: the suite in use, on the bytecode file beside it. */
  function RunOf(version: nat, p: Preparation): ForkEntry {
    var name := p.path.GetOr(0);
    ForkEntry(version, Tally(p.suites.written, name), Tally(p.suites.bins, name))
  }

  lemma PreparedIsFiled(oracle: Oracle, version: nat, path: Option<Name>, s: Suites)
    requires version > 0 && Filed(oracle, path, s, version - 1)
    ensures var p := Prepared(oracle, version, path, s);
            Filed(oracle, p.path, p.suites, version) && (p.failure.None? ==> p.path.Some?)
  {
    hide Oracle.InterfaceOf, Oracle.WriteSuite, Oracle.FinalArtifact, Filed;
    var name := oracle.contractName(version);
    NameOfInterface(oracle, version);
    PathIsFiled(oracle, path, s, version - 1);
    if Choice(oracle, version, path, s) == Reuse {
      RefreshedIsFiled(oracle, version, path, s);
    } else {
      WrittenIsFiled(oracle, version, path, s);
    }
  }

  lemma RefreshedIsFiled(oracle: Oracle, version: nat, path: Option<Name>, s: Suites)
    requires version > 0 && Filed(oracle, path, s, version - 1)
    requires s.reusable.Some? && s.reusable.value.contractName == oracle.contractName(version)
    ensures var name := oracle.contractName(version);
            Filed(oracle, Some(name), s.(bins := s.bins[name := version]), version)
  {
    hide Oracle.InterfaceOf, Oracle.WriteSuite;
  }

  /** New files of a name, whether or not their suite can be reused. */
  lemma WrittenIsFiled(oracle: Oracle, version: nat, path: Option<Name>, s: Suites)
    requires version > 0 && Filed(oracle, path, s, version - 1)
    ensures var name := oracle.contractName(version);
            var files := s.(bins := s.bins[name := version], written := s.written[name := version]);
            && Filed(oracle, path, files.(reusable := None, generationFailures := s.generationFailures + 1), version)
            && Filed(oracle, path, s.(reusable := None, generationFailures := s.generationFailures + 1), version)
            && (oracle.WriteSuite(version).Generated? ==>
                  Filed(oracle, Some(name), files.(reusable := Some(oracle.InterfaceOf(version))), version))
  {
    hide Oracle.InterfaceOf, Oracle.WriteSuite;
    NameOfInterface(oracle, version);
  }

  lemma NameOfInterface(oracle: Oracle, version: nat)
    ensures oracle.InterfaceOf(version).contractName == oracle.contractName(version)
  {
  }

  /**
   * The run deploys the bytecode of the draft it judges exactly when that could be read. Its suite is that draft's
   * own exactly when it was written anew, and has the interface of that draft unless it is left from a rolled-back
   * repair under another name. Without readable bytecode there is a run exactly when a suite of that interface was
   * kept and one is in use.
   */
  lemma PreparedRun(oracle: Oracle, version: nat, path: Option<Name>, s: Suites)
    requires version > 0 && Filed(oracle, path, s, version - 1)
    ensures var p, hasCode := Prepared(oracle, version, path, s), oracle.FinalArtifact(version).hasCode;
            && (p.failure.Some? ==> oracle.WriteSuite(version).NotGenerated?)
            && (p.failure.None? ==>
                  var e := RunOf(version, p);
                  && (e.deployed == version <==> hasCode)
                  && (e.suite == version <==> Choice(oracle, version, path, s) == Regenerate)
                  && (hasCode ==> SuiteFits(oracle, e))
                  && (oracle.InterfaceOf(e.suite) == oracle.InterfaceOf(version)
                      <==> hasCode || path == Some(oracle.contractName(version))))
            && (!hasCode ==> (p.failure.None? <==> s.reusable == Some(oracle.InterfaceOf(version)) && path.Some?))
  {
    hide Oracle.InterfaceOf, Oracle.FinalArtifact;
    var name := oracle.contractName(version);
    NameOfInterface(oracle, version);
    var p := Prepared(oracle, version, path, s);
    if p.failure.None? {
      PreparedIsFiled(oracle, version, path, s);
      NameOfInterface(oracle, RunOf(version, p).suite);
    }
  }

  /** What the gate does: the suite is prepared, and if that works, run. */
  ghost predicate Gated(oracle: Oracle, was: Work, before: Suites, w: Work, s: Suites, ran: seq<ForkEntry>) {
    var p := Prepared(oracle, was.code, was.suitePath, before);
    if p.failure.Some? then w == was && s == p.suites && ran == []
    else
      var e := RunOf(was.code, p);
      && w == was.(tests := Tests(oracle.ForkPassed(e), e), suitePath := p.path)
      && s == p.suites.(generationFailures := 0) && ran == [e]
  }

  lemma PreparedFails(oracle: Oracle, version: nat, path: Option<Name>, s: Suites)
    ensures var p := Prepared(oracle, version, path, s);
            && s.written.Keys <= p.suites.written.Keys
            && (p.failure.Some? ==>
                  && oracle.WriteSuite(version).NotGenerated?
                  && p.failure == Some(oracle.WriteSuite(version).infrastructure)
                  && p.path == path && p.suites.generationFailures == s.generationFailures + 1)
  {
  }

  lemma FiledAnyway(oracle: Oracle, path: Option<Name>, s: Suites, drafts: nat, failures: nat)
    requires Filed(oracle, path, s, drafts)
    ensures Filed(oracle, path, s.(generationFailures := failures), drafts)
  {
  }

  /** A restored suite path still names a suite. */
  lemma PathStaysFiled(oracle: Oracle, path: Option<Name>, now: Option<Name>, before: Suites, s: Suites, drafts: nat)
    requires Filed(oracle, now, s, drafts) && before.written.Keys <= s.written.Keys
    requires path.Some? ==> path.value in before.written
    ensures Filed(oracle, path, s, drafts)
  {
  }

  lemma PathIsFiled(oracle: Oracle, path: Option<Name>, s: Suites, drafts: nat)
    requires Filed(oracle, path, s, drafts)
    ensures path.Some? ==> path.value in s.written
    ensures Filed(oracle, path, s, drafts + 1)
  {
  }

  lemma NotTested(oracle: Oracle, drafts: nat, ran: seq<ForkEntry>)
    requires Tested(oracle, drafts, ran) && BuildVerdict(oracle, drafts + 1) != Built
    ensures Tested(oracle, drafts + 1, ran)
  {
    hide Tested, BuildVerdict;
    NoRun(oracle, drafts, ran);
  }

  lemma OneMoreBlocked(oracle: Oracle, drafts: nat)
    requires drafts > 0
    ensures BlockedThrough(oracle, drafts) == BlockedThrough(oracle, drafts - 1) + BlockedBy(oracle, drafts)
  {
  }

  lemma ToolingTests(oracle: Oracle, version: nat, e: ForkEntry)
    ensures ToolingWorks(oracle) && BuildVerdict(oracle, version) == Built ==> oracle.WriteSuite(version).Generated?
    ensures ToolingWorks(oracle) ==> !oracle.ForkResult(e).infrastructure
  {
  }

  lemma NoTestsPassed(oracle: Oracle, w: Work)
    requires !w.tests.passed
    ensures TestsCurrent(oracle, w)
  {
  }

  lemma OneMorePermitted(oracle: Oracle, drafts: nat, ran: seq<ForkEntry>, more: seq<ForkEntry>)
    requires Tested(oracle, drafts, ran) && Permitted(oracle, ran, drafts)
    requires ran <= more && |more| <= |ran| + 1
    requires |more| > |ran| ==>
               oracle.ForkPassed(more[|ran|]) || !oracle.ForkResult(more[|ran|]).infrastructure
    ensures Permitted(oracle, more, drafts + 1)
  {
    hide Oracle.ForkPassed, Oracle.ForkResult, BuildVerdict, SuiteFits, Oracle.FinalArtifact, Testable;
    assert forall e :: e in more ==> e in ran || (|more| > |ran| && e == more[|ran|]);
  }

  lemma NoneRanYet(oracle: Oracle, ran: seq<ForkEntry>)
    requires Tested(oracle, 0, ran)
    ensures Permitted(oracle, ran, 0)
  {
  }

  /** Later runs judge later drafts. */
  ghost predicate RunsLater(ran: seq<ForkEntry>, more: seq<ForkEntry>, drafts: int) {
    ran <= more && forall k :: |ran| <= k < |more| ==> more[k].of > drafts
  }

  lemma RunsLaterSelf(ran: seq<ForkEntry>, drafts: int)
    ensures RunsLater(ran, ran, drafts)
  {
  }

  lemma OneLater(ran: seq<ForkEntry>, more: seq<ForkEntry>, most: seq<ForkEntry>, drafts: int)
    requires RunsLater(ran, more, drafts) && more <= most
    requires forall k :: |more| <= k < |most| ==> most[k].of > drafts
    ensures RunsLater(ran, most, drafts)
  {
  }

  lemma StillPermitted(oracle: Oracle, drafts: nat, ran: seq<ForkEntry>, more: seq<ForkEntry>)
    requires Permitted(oracle, ran, drafts) && RunsLater(ran, more, drafts)
    ensures Permitted(oracle, more, drafts)
  {
    hide Oracle.ForkPassed, Oracle.ForkResult;
    assert forall e :: e in more && e.of <= drafts ==> e in ran;
  }

  lemma StillNonePassed(oracle: Oracle, drafts: nat, ran: seq<ForkEntry>, more: seq<ForkEntry>)
    requires NonePassedBefore(oracle, ran, drafts) && RunsLater(ran, more, drafts)
    ensures NonePassedBefore(oracle, more, drafts)
  {
    hide Oracle.ForkPassed;
    assert forall e :: e in more && e.of < drafts ==> e in ran;
  }

  lemma StillShown(
    oracle: Oracle, calls: seq<seq<Message>>, ran: seq<ForkEntry>, testFixes: nat, fixPending: bool, exception: nat,
    more: seq<seq<Message>>, later: seq<ForkEntry>, drafts: nat)
    requires FixShown(oracle, calls, ran, testFixes, fixPending, exception) && calls <= more
    requires drafts >= exception && RunsLater(ran, later, drafts)
    ensures FixShown(oracle, more, later, testFixes, fixPending, exception)
  {
    hide Permitted, Follows;
    if fixPending {
      StillPermitted(oracle, exception, ran, later);
    }
  }

  lemma FewFailures(m: map<Signature, nat>, log: seq<Signature>)
    requires Counted(m, log) && |log| < MAX_IDENTICAL_TEST_FAILURES
    ensures AllBelow(m, MAX_IDENTICAL_TEST_FAILURES)
  {
    forall x
      ensures Count(log, x) <= |log|
    {
      CountIsShort(log, x);
    }
  }

  lemma {:induction false} CountIsShort<T>(log: seq<T>, x: T)
    ensures Count(log, x) <= |log|
  {
    if log != [] {
      CountIsShort(log[..|log| - 1], x);
    }
  }
}
