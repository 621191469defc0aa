/** Runs that show where the pipeline does not do what its constants and messages suggest. */
module PipelineRuns {
  import opened Wrappers
  import opened RetryHistory
  import opened PipelineModel
  import opened Pipeline

  /** The signatures of `description()` and `vaultUISchema()`, without which the scanner blocks a draft. */
  const SIGNATURES: seq<nat> := [1, 2]

  /**
   * Every draft that compiles has the same interface, and its artifact can be read, though the bytecode in it may
   * be unusable. Findings, fork runs and critic vary.
   */
  function Scripted(
    compiles: nat -> bool, findings: seq<Finding>, hasCode: nat -> bool, fork: (nat, nat, nat) -> ForkRun,
    critique: Critique): Oracle
  {
    Oracle(_ => 1, compiles, _ => findings, (v: nat) => Artifact(Some(SIGNATURES), hasCode(v), None), _ => None,
           _ => true, _ => Generated, fork, _ => critique, true)
  }

  function Always(): nat -> bool {
    (v: nat) => true
  }

  lemma ScriptedBuilds(
    compiles: nat -> bool, findings: seq<Finding>, hasCode: nat -> bool, fork: (nat, nat, nat) -> ForkRun,
    critique: Critique, v: nat)
    requires forall f :: f in findings ==> !f.blocking
    ensures var oracle := Scripted(compiles, findings, hasCode, fork, critique);
            && BuildVerdict(oracle, v) == (if compiles(v) then Built else CompileFailed)
            && oracle.FinalArtifact(v) == Artifact(Some(SIGNATURES), hasCode(v), None)
            && oracle.InterfaceOf(v) == Interface(1, SIGNATURES) && oracle.contractName(v) == 1
            && (hasCode(v) ==> oracle.WriteSuite(v).Generated?)
  {
  }

  lemma {:induction false} NothingBlocked(
    compiles: nat -> bool, hasCode: nat -> bool, fork: (nat, nat, nat) -> ForkRun, critique: Critique, v: nat)
    ensures BlockedThrough(Scripted(compiles, [], hasCode, fork, critique), v) == []
  {
    if v > 0 {
      NothingBlocked(compiles, hasCode, fork, critique, v - 1);
      ScriptedBuilds(compiles, [], hasCode, fork, critique, v);
    }
  }

  lemma NoneCounted(rule: Rule)
    ensures Count<Rule>([], rule) == 0
  {
  }

  // ---- Passing tests over the bytecode of an earlier draft ----

  /** The first draft fails its tests; the bytecode of later ones cannot be read. */
  function StaleBytecode(): Oracle {
    Scripted(Always(), [], (v: nat) => v == 1, (v: nat, suite: nat, deployed: nat) => ForkRun(v > 1, false, 0, false),
             Critique(false, []))
  }

  /** The first draft can be tested and fails, through no fault of the tooling. */
  ghost predicate FailsFirst(oracle: Oracle) {
    && BuildVerdict(oracle, 1) == Built && oracle.WriteSuite(1).Generated?
    && oracle.contractName(1) == 1 && oracle.InterfaceOf(1) == Interface(1, SIGNATURES)
    && forall e: ForkEntry :: e.of == 1 ==> !oracle.ForkPassed(e) && !oracle.ForkResult(e).infrastructure
  }

  lemma FirstSuite(oracle: Oracle, was: Work, before: Suites, w: Work, s: Suites, ran: seq<ForkEntry>)
    requires FailsFirst(oracle) && was.code == 1 && before == Suites(map[], map[], None, 0)
    requires Gated(oracle, was, before, w, s, ran)
    ensures !w.tests.passed && w.suitePath == Some(1)
    ensures s.reusable == Some(Interface(1, SIGNATURES))
    ensures 1 in s.bins && s.bins[1] == 1 && 1 in s.written && s.written[1] == 1
  {
    hide Oracle.InterfaceOf, Oracle.WriteSuite, Oracle.ForkPassed, Oracle.ForkResult, BuildVerdict;
    assert Choice(oracle, 1, was.suitePath, before) == Regenerate;
  }

  lemma SecondRun(oracle: Oracle, was: Work, before: Suites, w: Work, s: Suites, ran: seq<ForkEntry>)
    requires oracle == StaleBytecode() && was.code == 2 && was.suitePath == Some(1)
    requires before.reusable == Some(Interface(1, SIGNATURES))
    requires 1 in before.bins && before.bins[1] == 1 && 1 in before.written && before.written[1] == 1
    requires Gated(oracle, was, before, w, s, ran)
    ensures w.tests == Tests(true, ForkEntry(2, 1, 1))
  {
    ScriptedBuilds(Always(), [], (v: nat) => v == 1, oracle.runFork, Critique(false, []), 2);
  }

  lemma StaleBuilds(v: nat)
    ensures BuildVerdict(StaleBytecode(), v) == Built && StaleBytecode().FinalArtifact(v).hasCode == (v == 1)
    ensures v == 1 ==> StaleBytecode().WriteSuite(v).Generated?
    ensures BlockedBy(StaleBytecode(), v) == []
  {
    ScriptedBuilds(Always(), [], (v: nat) => v == 1, StaleBytecode().runFork, Critique(false, []), v);
  }

  lemma StaleFailsFirst()
    ensures FailsFirst(StaleBytecode())
  {
    ScriptedBuilds(Always(), [], (v: nat) => v == 1, StaleBytecode().runFork, Critique(false, []), 1);
  }

  /** A model call, a build without findings, and its tests. */
  method AskAndTest(run: CodegenRun) returns (gate: Gate, ghost was: Work)
    requires run.Traced() && run.Accounted() && run.WithinBudget() && Callable(run.messages, run.head)
    requires run.attempts == 0 || run.attempts == run.exception || Follows(run.messages, run.attempts)
    requires BuildVerdict(run.oracle, run.attempts + 1) == Built && !run.work.tests.passed
    requires Settled(run.oracle, run.work) && run.work.code == run.attempts
    modifies run`attempts, run`calls, run`work, run`fixLog, run`blockCountByRule, run`blocked, run`autoFixGaveUp,
             run`suites, run`ran
    ensures run.Traced() && run.Accounted() && run.WithinBudget() && Settled(run.oracle, run.work)
    ensures run.attempts == old(run.attempts) + 1 == run.work.code
    ensures was.code == run.attempts && was.suitePath == old(run.work.suitePath)
    ensures old(run.ran) <= run.ran
    ensures Gated(run.oracle, was, old(run.suites), run.work, run.suites, run.ran[|old(run.ran)|..])
    ensures run.work.artifact == Tagged(run.work.code, run.oracle.FinalArtifact(run.work.code))
    ensures !gate.generationFailed ==>
              && run.work.tests.passed == gate.passed && gate.passed == run.oracle.ForkPassed(run.work.tests.run)
              && run.work.tests.run in run.ran && run.work.tests.run.of == run.work.code
              && gate.infrastructure == run.oracle.ForkResult(run.work.tests.run).infrastructure
              && gate.signature == run.oracle.ForkResult(run.work.tests.run).signature
    ensures gate.generationFailed ==> run.oracle.WriteSuite(run.work.code).NotGenerated?
  {
    hide Callable, Counted, AllBelow, Prompted, Tested, FailuresRan, Follows, Filed, Gated, SomeRunPassed, BuildVerdict,
         SizeOk, Oracle.ForkPassed, Oracle.ForkResult, Oracle.WriteSuite, TestsCurrent, BlockedBy, Settled, LeftBy;
    AskedLeaves(run.oracle, run.work, run.attempts + 1);
    run.Ask();
    var build := run.BuildDraft();
    was := run.work;
    gate := run.TestDraft();
  }

  /** A pass of the main loop that fails its tests for the first time. */
  method FailingPass(run: CodegenRun)
    requires FailsFirst(run.oracle) && run.Traced() && run.Accounted() && run.WithinBudget()
    requires run.attempts == 0 && run.messages == run.head && run.pendingFix.None? && run.failures == []
    requires run.suites == Suites(map[], map[], None, 0) && !run.work.tests.passed
    requires Settled(run.oracle, run.work) && run.work.code == run.attempts
    modifies run
    ensures run.Traced() && run.Accounted() && run.WithinBudget() && run.attempts == 1 && !run.work.tests.passed
    ensures Settled(run.oracle, run.work) && run.work.code == run.attempts
    ensures Resumable(run.messages, run.head, run.pendingFix, 1) && run.pendingFix.Some?
    ensures run.work.suitePath == Some(1) && run.suites.reusable == Some(Interface(1, SIGNATURES))
    ensures 1 in run.suites.bins && run.suites.bins[1] == 1 && 1 in run.suites.written && run.suites.written[1] == 1
  {
    hide Callable, Counted, AllBelow, Prompted, Tested, FailuresRan, Follows, Filed, Gated, SomeRunPassed, BuildVerdict,
         BlockedBy, Oracle.ForkPassed, Oracle.ForkResult, Oracle.WriteSuite, Settled;
    run.ResumeMain();
    ghost var before, ran := run.suites, run.ran;
    var gate, was := AskAndTest(run);
    FirstSuite(run.oracle, was, before, run.work, run.suites, run.ran[|ran|..]);
    var again := run.KeepFixing(gate, true);
    FewFailures(run.testFailureCounts, Values(run.failures));
  }

  // ---- A draft lost to the suite of an earlier one ----

  /** From the second draft on, every draft passes its own suite and no other. */
  function OwnSuiteOnly(): Oracle {
    Scripted(Always(), [], Always(),
             (v: nat, suite: nat, deployed: nat) => ForkRun(v > 1 && suite == v, false, 0, false), Critique(false, []))
  }

  lemma OwnSuiteFacts()
    ensures FailsFirst(OwnSuiteOnly()) && BuildVerdict(OwnSuiteOnly(), 2) == Built
    ensures OwnSuiteOnly().WriteSuite(2).Generated? && OwnSuiteOnly().ForkPassed(ForkEntry(2, 2, 2))
  {
    ScriptedBuilds(Always(), [], Always(), OwnSuiteOnly().runFork, Critique(false, []), 1);
    ScriptedBuilds(Always(), [], Always(), OwnSuiteOnly().runFork, Critique(false, []), 2);
  }

  lemma RunOnOldSuite(oracle: Oracle, was: Work, before: Suites, w: Work, s: Suites, ran: seq<ForkEntry>)
    requires oracle == OwnSuiteOnly() && was.code == 2 && was.suitePath == Some(1)
    requires before.reusable == Some(Interface(1, SIGNATURES))
    requires 1 in before.bins && before.bins[1] == 1 && 1 in before.written && before.written[1] == 1
    requires Gated(oracle, was, before, w, s, ran)
    ensures w.tests == Tests(false, ForkEntry(2, 1, 2))
  {
    ScriptedBuilds(Always(), [], Always(), oracle.runFork, Critique(false, []), 2);
    assert Choice(oracle, 2, was.suitePath, before) == Reuse;
  }

  /** Two passes of the main loop: the second draft fails under the suite of the first, and would pass its own. */
  method LostToOldSuite(head: seq<Message>) returns (work: Work)
    requires head != [] && head[|head| - 1].role == User
    ensures work.code == 2 && work.tests == Tests(false, ForkEntry(2, 1, 2))
    ensures Testable(OwnSuiteOnly(), 2) && OwnSuiteOnly().ForkPassed(ForkEntry(2, 2, 2))
  {
    hide Callable, Counted, AllBelow, Prompted, Tested, FailuresRan, Follows, Filed, Gated, SomeRunPassed, OwnSuiteOnly,
         BuildVerdict, Oracle.ForkPassed, Oracle.ForkResult, Oracle.WriteSuite, FailsFirst, Settled;
    OwnSuiteFacts();
    var run := new CodegenRun(OwnSuiteOnly(), head);
    FailingPass(run);
    run.ResumeMain();
    ghost var before, ran := run.suites, run.ran;
    var gate, was := AskAndTest(run);
    RunOnOldSuite(run.oracle, was, before, run.work, run.suites, run.ran[|ran|..]);
    return run.work;
  }

  /** Two passes of the main loop: the second draft passes on the bytecode and under the suite of the first. */
  method StaleBytecodePasses(head: seq<Message>) returns (work: Work)
    requires head != [] && head[|head| - 1].role == User
    ensures work.code == 2 && work.tests == Tests(true, ForkEntry(2, 1, 1)) && !work.artifact.value.hasCode
  {
    hide Callable, Counted, AllBelow, Prompted, Tested, FailuresRan, Follows, Filed, Gated, SomeRunPassed,
         StaleBytecode, BuildVerdict, Oracle.ForkPassed, Oracle.ForkResult, Oracle.WriteSuite, FailsFirst, Settled;
    StaleBuilds(1);
    StaleBuilds(2);
    StaleFailsFirst();
    var run := new CodegenRun(StaleBytecode(), head);
    FailingPass(run);
    run.ResumeMain();
    ghost var before, ran := run.suites, run.ran;
    var gate, was := AskAndTest(run);
    SecondRun(run.oracle, was, before, run.work, run.suites, run.ran[|ran|..]);
    return run.work;
  }

  // ---- A first test-fix call without the draft it asks to fix ----

  /** Every fork run fails for lack of permissions, each with its own message. */
  function NoPermission(): Oracle {
    Scripted(Always(), [], Always(), (v: nat, suite: nat, deployed: nat) => ForkRun(false, false, v, true),
             Critique(false, []))
  }

  /** Failures that name their pass never repeat. */
  lemma {:induction false} FailuresDiffer(failures: seq<Tagged<Signature>>, x: Signature)
    requires forall i, j :: 0 <= i < j < |failures| ==> failures[i].of < failures[j].of
    requires forall f :: f in failures ==> f.value == f.of
    ensures Count(Values(failures), x) <= 1
    ensures (forall f :: f in failures ==> f.of < x) ==> Count(Values(failures), x) == 0
  {
    if failures != [] {
      var last := failures[|failures| - 1];
      var earlier := failures[..|failures| - 1];
      assert earlier + [last] == failures;
      OneMoreValue(earlier, last);
      assert Values(failures)[..|failures| - 1] == Values(earlier);
      FailuresDiffer(earlier, x);
    }
  }

  /** With no blocking findings and no failure twice, the run does not give up. */
  lemma NeverGivesUp(oracle: Oracle, r: Result)
    requires Explained(oracle, r) && r.blocked == []
    requires forall e: ForkEntry :: oracle.ForkResult(e).signature == e.of
    ensures !r.gaveUp
  {
    hide BlockedThrough, Unspent, Oracle.ForkPassed, Oracle.ForkResult;
    forall x
      ensures Count(r.blocked, x) == 0 && Count(Values(r.failures), x) <= 1
    {
      NoneCounted(x);
      FailuresDiffer(r.failures, x);
    }
  }

  /** A run that fails every test is not deployable. */
  lemma NeverPasses(oracle: Oracle, r: Result)
    requires r.Deployable() ==> Coherent(oracle, r)
    requires forall e: ForkEntry :: !oracle.ForkPassed(e)
    ensures !r.Deployable()
  {
    hide Oracle.ForkPassed;
  }

  lemma NoPermissionFacts(v: nat)
    ensures forall e: ForkEntry :: !NoPermission().ForkPassed(e)
    ensures forall e: ForkEntry ::
              NoPermission().ForkResult(e).signature == e.of && NoPermission().ForkResult(e).infrastructure
    ensures BuildVerdict(NoPermission(), v) == Built && Testable(NoPermission(), 1)
    ensures BlockedThrough(NoPermission(), v) == []
  {
    var fork := NoPermission().runFork;
    ScriptedBuilds(Always(), [], Always(), fork, Critique(false, []), v);
    ScriptedBuilds(Always(), [], Always(), fork, Critique(false, []), 1);
    NothingBlocked(Always(), Always(), fork, Critique(false, []), v);
  }

  /** The main loop stops at the permission problem, and the call after it does not show its draft. */
  method FixWithoutDraft(head: seq<Message>) returns (result: Result)
    requires head != [] && head[|head| - 1].role == User
    ensures result.testFixAttempts > 0 && !result.fixPending
    ensures var e := result.Drafts() - result.testFixAttempts;
            0 <= e < |result.calls| && !Follows(result.calls[e], e)
  {
    hide Callable, Prompted, Tested, Coherent, Follows, FailuresRan, BlockedThrough, Unspent, GaveUpIff, BuildVerdict,
         Oracle.ForkPassed, Oracle.ForkResult, NoPermission, RepairsNumbered, ShouldRepair, Explained, SomeRunPassed,
         Testable;
    var oracle := NoPermission();
    result := RunCodegenPipeline(oracle, head);
    NoPermissionFacts(result.Drafts());
    NothingExplained(oracle, result);
    NeverGivesUp(oracle, result);
    NeverPasses(oracle, result);
    NotPermitted(oracle, result);
  }

  lemma NothingExplained(oracle: Oracle, r: Result)
    requires Explained(oracle, r)
    ensures r.blocked == BlockedThrough(oracle, r.Drafts())
  {
  }

  lemma NotPermitted(oracle: Oracle, r: Result)
    requires Tested(oracle, r.attempts, r.ran) && 0 < r.attempts && Testable(oracle, 1)
    requires forall e: ForkEntry :: !oracle.ForkPassed(e) && oracle.ForkResult(e).infrastructure
    ensures !Permitted(oracle, r.ran, MAX_PIPELINE_ATTEMPTS)
  {
    hide Testable, BuildVerdict, SuiteFits, Oracle.FinalArtifact, Oracle.ForkPassed, Oracle.ForkResult;
    var e :| e in r.ran && e.of == 1;
  }

  // ---- More passes than the announced total ----

  /** Every fork run fails for a reason of its own, and the critic always finds something. */
  function NeverSatisfied(): Oracle {
    Scripted(Always(), [], Always(), (v: nat, suite: nat, deployed: nat) => ForkRun(false, false, v, false),
             Critique(true, [High]))
  }

  lemma NeverSatisfiedFacts(v: nat)
    ensures forall e: ForkEntry :: !NeverSatisfied().ForkPassed(e) && NeverSatisfied().ForkResult(e).signature == e.of
    ensures BuildVerdict(NeverSatisfied(), v) == Built && BlockedThrough(NeverSatisfied(), v) == []
    ensures ToolingWorks(NeverSatisfied()) && NeverSatisfied().MaxRepairs() == 3
    ensures forall c :: ShouldRepair(Some(Tagged(c, NeverSatisfied().critique(c))))
  {
    var fork := NeverSatisfied().runFork;
    forall w
      ensures BuildVerdict(NeverSatisfied(), w) == Built && NeverSatisfied().WriteSuite(w).Generated?
    {
      ScriptedBuilds(Always(), [], Always(), fork, Critique(true, [High]), w);
    }
    NothingBlocked(Always(), Always(), fork, Critique(true, [High]), v);
    assert High in [High];
  }

  /** Twelve drafts, eight test fixes and three repairs: 23 passes, where 20 are announced. */
  method TwentyThreePasses(head: seq<Message>) returns (result: Result)
    requires head != [] && head[|head| - 1].role == User
    ensures result.attempts == 23 && MAX_PIPELINE_ATTEMPTS + MAX_TEST_FIX_ATTEMPTS == 20
  {
    hide Callable, Prompted, Tested, Coherent, Follows, FailuresRan, BlockedThrough, Unspent, GaveUpIff, BuildVerdict,
         Oracle.ForkPassed, Oracle.ForkResult, NeverSatisfied, ShouldRepair, Explained, SomeRunPassed, ToolingWorks,
         Conversed,
         Oracle.MaxRepairs;
    var oracle := NeverSatisfied();
    result := RunCodegenPipeline(oracle, head);
    NeverSatisfiedFacts(result.Drafts());
    NothingExplained(oracle, result);
    NeverGivesUp(oracle, result);
    NeverPasses(oracle, result);
  }

  // ---- All passes spent, and not reported as exhausted ----

  /** Every fork run fails for a reason of its own, and the twelfth draft does not compile. */
  function LastDoesNotCompile(): Oracle {
    Scripted((v: nat) => v != 12, [], Always(),
             (v: nat, suite: nat, deployed: nat) => ForkRun(false, false, v, false), Critique(false, []))
  }

  lemma LastDoesNotCompileFacts(v: nat)
    ensures var oracle := LastDoesNotCompile();
            && (forall e: ForkEntry :: !oracle.ForkPassed(e) && oracle.ForkResult(e).signature == e.of)
            && ToolingWorks(oracle) && BlockedThrough(oracle, v) == [] && !oracle.compiles(12)
            && BuildVerdict(oracle, 12) == CompileFailed && Standing(oracle, 12).level == Pass
  {
    var oracle := LastDoesNotCompile();
    var compiles := (v: nat) => v != 12;
    forall w
      ensures BuildVerdict(oracle, w) == (if w == 12 then CompileFailed else Built)
      ensures oracle.FinalArtifact(w) == Artifact(Some(SIGNATURES), true, None) && oracle.WriteSuite(w).Generated?
    {
      ScriptedBuilds(compiles, [], Always(), oracle.runFork, Critique(false, []), w);
    }
    NothingBlocked(compiles, Always(), oracle.runFork, Critique(false, []), v);
    hide Oracle.FinalArtifact, Oracle.WriteSuite;
    assert LastCompiled(oracle, 12) == 11 && LastRead(oracle, 12) == 11;
  }

  /** Twelve passes are spent and no test has passed, but the run does not count as exhausted. */
  method SpentWithoutReport(head: seq<Message>) returns (result: Result)
    requires head != [] && head[|head| - 1].role == User
    ensures result.attempts == result.Drafts() == MAX_PIPELINE_ATTEMPTS
    ensures !result.Exhausted() && !result.gaveUp && !result.Deployable()
  {
    hide Callable, Prompted, Tested, Coherent, Follows, FailuresRan, BlockedThrough, Unspent, GaveUpIff, BuildVerdict,
         Oracle.ForkPassed, Oracle.ForkResult, LastDoesNotCompile, ShouldRepair, Explained, SomeRunPassed, ToolingWorks,
         Conversed, Reported, Standing, RepairsShown, NonePassedBefore;
    var oracle := LastDoesNotCompile();
    result := RunCodegenPipeline(oracle, head);
    LastDoesNotCompileFacts(result.Drafts());
    NothingExplained(oracle, result);
    NeverGivesUp(oracle, result);
    NeverPasses(oracle, result);
  }

  // ---- A repair call that shows the rejected repair ----

  /** The first draft passes its tests, the critic objects, and no later draft compiles. */
  function OnlyFirstCompiles(): Oracle {
    Scripted((v: nat) => v == 1, [], Always(),
             (v: nat, suite: nat, deployed: nat) => ForkRun(true, false, 0, false), Critique(true, [High]))
  }

  lemma OnlyFirstCompilesFacts()
    ensures var oracle := OnlyFirstCompiles();
            && (forall e: ForkEntry :: oracle.ForkPassed(e)) && Testable(oracle, 1) && oracle.MaxRepairs() == 3
            && BuildVerdict(oracle, 1) == Built && (forall v :: v > 1 ==> BuildVerdict(oracle, v) == CompileFailed)
            && (forall c :: ShouldRepair(Some(Tagged(c, oracle.critique(c)))))
  {
    var oracle := OnlyFirstCompiles();
    forall v
      ensures BuildVerdict(oracle, v) == (if v == 1 then Built else CompileFailed) && oracle.WriteSuite(v).Generated?
    {
      ScriptedBuilds((v: nat) => v == 1, [], Always(), oracle.runFork, Critique(true, [High]), v);
    }
    assert High in [High];
  }

  /** The run of a testable draft is recorded, and drafting goes on past it only if it failed. */
  lemma StopsAtFirst(oracle: Oracle, r: Result)
    requires Tested(oracle, r.attempts, r.ran) && NonePassedBefore(oracle, r.ran, r.Drafts())
    requires Testable(oracle, 1) && 0 < r.Drafts() <= r.attempts && forall e: ForkEntry :: oracle.ForkPassed(e)
    ensures r.Drafts() == 1
  {
    hide Testable, BuildVerdict, SuiteFits, Oracle.FinalArtifact, Oracle.ForkPassed;
    var e :| e in r.ran && e.of == 1;
  }

  /** The second repair asks to change the first draft, and its call shows the rejected second one. */
  method RepairShowsRejected(head: seq<Message>) returns (result: Result)
    requires head != [] && head[|head| - 1].role == User
    ensures result.Drafts() == 1 && |result.repairs| == 3 && result.work.code == 1
    ensures |result.calls| == 4 && !Follows(result.calls[2], 1)
  {
    hide Callable, Prompted, Tested, Coherent, Follows, FailuresRan, BlockedThrough, Unspent, GaveUpIff, BuildVerdict,
         Oracle.ForkPassed, Oracle.ForkResult, OnlyFirstCompiles, ShouldRepair, Explained, SomeRunPassed, ToolingWorks,
         Conversed, Reported, SpentOrGaveUp, RepairsShown, RepairsNumbered, NonePassedBefore, Testable,
         Oracle.MaxRepairs, LastAccepted;
    var oracle := OnlyFirstCompiles();
    result := RunCodegenPipeline(oracle, head);
    OnlyFirstCompilesFacts();
    StopsAtFirst(oracle, result);
    NoneAccepted(oracle, result.calls, result.repairs);
  }

  lemma NoneAccepted(oracle: Oracle, calls: seq<seq<Message>>, repairs: seq<RepairAttempt>)
    requires RepairsNumbered(oracle, 1, repairs) && RepairsShown(calls, 1, repairs) && |repairs| == 3
    requires forall v :: v > 1 ==> BuildVerdict(oracle, v) == CompileFailed
    ensures |calls| == 4 && LastAccepted(repairs) == 0 && !Follows(calls[2], 1)
  {
    hide BuildVerdict, Follows, Oracle.MaxRepairs;
    assert !Accepted(repairs[0]) && !Accepted(repairs[1]) && !Accepted(repairs[2]);
    assert repairs[..2][..1] == repairs[..1] && repairs[..1][..0] == [];
    assert LastAccepted(repairs[..1]) == 0 && LastAccepted(repairs[..2]) == 0;
    assert ShowsRepaired(calls[1 + 1], 1, repairs[..1]);
  }

  // ---- One pass that spends a rule's budget of four ----

  /** Four findings of one rule in every draft. */
  function FourFindings(): Oracle {
    var finding := Finding(7, true);
    Scripted(Always(), [finding, finding, finding, finding], Always(),
             (v: nat, suite: nat, deployed: nat) => ForkRun(true, false, 0, false), Critique(false, []))
  }

  lemma FourAtOnce(v: nat)
    requires v > 0
    ensures !Unspent(FourFindings(), v)
  {
    var oracle, finding := FourFindings(), Finding(7, true);
    var fs := [finding, finding, finding, finding];
    assert oracle.findings(1) == fs && finding in oracle.findings(1);
    assert fs[1..] == [finding, finding, finding] && fs[1..][1..] == [finding, finding];
    assert [finding, finding][1..] == [finding] && [finding][1..] == [];
    assert BlockingRules([finding]) == [7] && BlockingRules([finding, finding]) == [7, 7];
    assert BlockingRules(fs) == [7, 7, 7, 7];
    assert BlockedBy(oracle, 1) == [7, 7, 7, 7];
    assert BlockedThrough(oracle, 1) == BlockedThrough(oracle, 0) + [7, 7, 7, 7];
    FourSevens(BlockedThrough(oracle, 1));
    MoreBlocked(oracle, 1, v, 7);
  }

  lemma FourSevens(log: seq<Rule>)
    requires log == [7, 7, 7, 7]
    ensures Count(log, 7) == 4
  {
    assert log[..3] == [7, 7, 7] && [7, 7, 7][..2] == [7, 7] && [7, 7][..1] == [7] && [7][..0] == [];
  }

  lemma {:induction false} MoreBlocked(oracle: Oracle, v: nat, w: nat, rule: Rule)
    requires v <= w
    ensures Count(BlockedThrough(oracle, v), rule) <= Count(BlockedThrough(oracle, w), rule)
  {
    hide BlockedBy;
    if v < w {
      MoreBlocked(oracle, v, w - 1, rule);
      CountAppend(BlockedThrough(oracle, w - 1), BlockedBy(oracle, w), rule);
    }
  }

  lemma SpentAtOnce(oracle: Oracle, r: Result)
    requires Explained(oracle, r) && r.Drafts() == 1 && !Unspent(oracle, 1)
    ensures r.gaveUp
  {
    hide BlockedThrough, FailuresRan;
  }

  /** The first draft spends the budget that the code describes as four passes. */
  method GivesUpOnFirstDraft(head: seq<Message>) returns (result: Result)
    requires head != [] && head[|head| - 1].role == User
    ensures result.gaveUp && result.attempts - |result.repairs| == 1
  {
    hide Callable, Prompted, Tested, Coherent, Follows, FailuresRan, BlockedThrough, Unspent, GaveUpIff, BuildVerdict,
         Oracle.ForkPassed, Oracle.ForkResult, FourFindings, ShouldRepair, Explained, SomeRunPassed, ToolingWorks,
         Conversed,
         RepairsNumbered, SpentOrGaveUp;
    var oracle := FourFindings();
    result := RunCodegenPipeline(oracle, head);
    OneDraft(oracle, result);
    SpentAtOnce(oracle, result);
  }

  lemma OneDraft(oracle: Oracle, r: Result)
    requires oracle == FourFindings() && Explained(oracle, r) && r.Drafts() > 0
    ensures r.Drafts() == 1 && !Unspent(oracle, 1)
  {
    hide FourFindings, BlockedThrough, FailuresRan, GaveUpIff;
    FourAtOnce(1);
    if r.Drafts() > 1 {
      FourAtOnce(r.Drafts() - 1);
    }
  }

  /** How many of the drafts were blocked by a rule. */
  function PassesBlockedBy(oracle: Oracle, v: nat, rule: Rule): nat {
    if v == 0 then 0
    else PassesBlockedBy(oracle, v - 1, rule) + (if Count(BlockedBy(oracle, v), rule) > 0 then 1 else 0)
  }

  /** The budget counts passes, as it is described, exactly when no draft has two findings of the rule. */
  lemma {:induction false} FindingsArePassesIff(oracle: Oracle, v: nat, rule: Rule)
    ensures PassesBlockedBy(oracle, v, rule) <= Count(BlockedThrough(oracle, v), rule)
    ensures PassesBlockedBy(oracle, v, rule) == Count(BlockedThrough(oracle, v), rule)
            <==> forall w :: 0 < w <= v ==> Count(BlockedBy(oracle, w), rule) <= 1
  {
    hide BlockedBy, Count;
    if v > 0 {
      FindingsArePassesIff(oracle, v - 1, rule);
      CountAppend(BlockedThrough(oracle, v - 1), BlockedBy(oracle, v), rule);
    } else {
      NoneCounted(rule);
    }
  }

  lemma {:induction false} CountAppend<T>(a: seq<T>, b: seq<T>, x: T)
    ensures Count(a + b, x) == Count(a, x) + Count(b, x)
    decreases |b|
  {
    if b == [] {
      assert a + b == a;
    } else {
      CountAppend(a, b[..|b| - 1], x);
      assert (a + b)[..|a + b| - 1] == a + b[..|b| - 1];
    }
  }
}
