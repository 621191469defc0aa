/**
 * One run of the generation pipeline: the main loop, the test-fix loop and the critic-repair loop over one
 * mutable state. A pass is numbered by `attempts`, and its draft carries that number.
 */
module Pipeline {
  import opened Wrappers
  import opened RetryHistory
  import opened PipelineModel

  datatype Gate = Gate(passed: bool, generationFailed: bool, infrastructure: bool, signature: Signature)

  /** Between passes: either a draft awaits its fix prompt, or nothing was added since a short call. */
  ghost predicate Resumable(
    messages: seq<Message>, head: seq<Message>, pendingFix: Option<Message>, attempts: nat)
  {
    && head <= messages
    && match pendingFix {
         case Some(fix) =>
           fix.role == User && |messages| > |head|
           && messages[|messages| - 1] == Message(Assistant, Draft(attempts))
         case None => |messages| <= |head| + 3 && messages != [] && messages[|messages| - 1].role == User
       }
  }

  /** With nothing pending, the number of passes does not matter. */
  lemma ResumableLater(messages: seq<Message>, head: seq<Message>, attempts: nat, more: nat)
    requires Resumable(messages, head, None, attempts)
    ensures Resumable(messages, head, None, more)
  {
  }

  class CodegenRun {
    const oracle: Oracle
    const head: seq<Message>

    var attempts: nat
    var testFixAttempts: nat
    var messages: seq<Message>
    var pendingFix: Option<Message>
    var fixLog: seq<FixEntry>
    var blockCountByRule: map<Rule, nat>
    var testFailureCounts: map<Signature, nat>
    var autoFixGaveUp: bool
    var work: Work
    var suites: Suites
    var economicCritique: Option<Tagged<Critique>>
    var repairAttempts: seq<RepairAttempt>

    // History: the message lists sent, the fork runs, every blocking finding and test failure counted, and how
    // the main loop ended: after how many passes, and with a fix prompt pending or not.
    var calls: seq<seq<Message>>
    var ran: seq<ForkEntry>
    var blocked: seq<Rule>
    var failures: seq<Tagged<Signature>>
    var exception: nat
    var fixPending: bool

    /** Every model call was well formed. */
    ghost predicate Called()
      reads `calls, `attempts, `exception
    {
      && head != [] && head[|head| - 1].role == User
      && |calls| == attempts
      && (forall c :: c in calls ==> Callable(c, head)) && Prompted(calls, exception)
    }

    /** The suites are in order, every testable draft so far was run, and the failures counted are theirs. */
    ghost predicate Stored(drafts: nat)
      reads `suites, `work, `ran, `failures
    {
      Filed(oracle, work.suitePath, suites, drafts) && Tested(oracle, drafts, ran) && FailuresRan(oracle, failures, ran)
    }

    /** Between passes. */
    ghost predicate Traced()
      reads `calls, `attempts, `exception, `suites, `work, `ran, `failures
    {
      Called() && Stored(attempts) && SomeRunPassed(oracle, ran, work.tests.passed)
    }

    /** In a pass, after its model call. */
    ghost predicate Asked()
      reads `calls, `attempts, `exception, `suites, `work, `ran, `failures
    {
      Called() && attempts > 0 && work.code == attempts && Stored(attempts - 1)
      && SomeRunPassed(oracle, ran, work.tests.passed)
    }

    /** What the drafting loops counted is what their drafts and fork runs show. */
    ghost predicate Detected(drafts: nat)
      reads `blocked, `failures
    {
      blocked == BlockedThrough(oracle, drafts) && forall f :: f in failures ==> f.of <= drafts
    }

    /** The count of suites that could not be written starts again with every run. */
    ghost predicate Tallied(drafts: nat)
      reads `suites, `ran
    {
      suites.generationFailures >= 1 <==> LastUnwritten(oracle, ran, drafts)
    }

    ghost predicate Accounted()
      reads `blockCountByRule, `blocked, `testFailureCounts, `failures, `autoFixGaveUp
    {
      && Counted(blockCountByRule, blocked)
      && Counted(testFailureCounts, Values(failures))
      && (autoFixGaveUp <==> !WithinBudget())
    }

    ghost predicate WithinBudget()
      reads `blockCountByRule, `testFailureCounts
    {
      AllBelow(blockCountByRule, MAX_BLOCKS_PER_RULE) && AllBelow(testFailureCounts, MAX_IDENTICAL_TEST_FAILURES)
    }

    ghost predicate Current()
      reads `work
    {
      Settled(oracle, work) && TestsCurrent(oracle, work)
    }

    constructor (oracle: Oracle, head: seq<Message>)
      requires head != [] && head[|head| - 1].role == User
      ensures this.oracle == oracle && this.head == head
      ensures Traced() && Accounted() && Detected(0) && Current() && WithinBudget() && Tallied(0)
      ensures attempts == 0 && testFixAttempts == 0 && exception == 0 && messages == head && pendingFix.None?
      ensures suites == Suites(map[], map[], None, 0) && work.suitePath.None? && failures == [] && blocked == []
      ensures work.code == 0 && !work.ok && !work.tests.passed && suites.generationFailures == 0
      ensures economicCritique.None? && repairAttempts == []
    {
      this.oracle, this.head := oracle, head;
      attempts, testFixAttempts, messages, pendingFix, fixLog := 0, 0, head, None, [];
      blockCountByRule, testFailureCounts, autoFixGaveUp := map[], map[], false;
      work := Work(false, 0, 0, Tagged(0, Artifact(None, false, None)), Tagged(0, oracle.Scan(0)),
                   Tests(false, ForkEntry(0, 0, 0)), None);
      suites := Suites(map[], map[], None, 0);
      economicCritique, repairAttempts := None, [];
      calls, ran, blocked, failures, exception, fixPending := [], [], [], [], 0, false;
    }

    method PushFix(phase: Phase)
      modifies `fixLog
      ensures fixLog == old(fixLog) + [FixEntry(phase, attempts)]
    {
      fixLog := fixLog + [FixEntry(phase, attempts)];
    }

    /** Keep the rejected draft in the conversation and prepare the prompt that asks to fix it. */
    method RequestFix()
      requires head <= messages
      modifies `messages, `pendingFix
      ensures Resumable(messages, head, pendingFix, attempts) && pendingFix.Some?
      ensures messages == old(messages) + [Message(Assistant, Draft(attempts))]
    {
      messages := messages + [Message(Assistant, Draft(attempts))];
      pendingFix := Some(Message(User, Prompt(attempts)));
    }

    /** One model call; from here on the current draft is this pass's. */
    method Ask()
      requires Traced() && Callable(messages, head)
      requires attempts == 0 || attempts == exception || Follows(messages, attempts)
      modifies `attempts, `calls, `work
      ensures Asked() && attempts == old(attempts) + 1
      ensures work == old(work).(code := attempts)
      ensures calls == old(calls) + [messages]
    {
      attempts := attempts + 1;
      calls := calls + [messages];
      work := work.(code := attempts);
    }

    /** Count this pass's blocking findings; true when some rule among them used up its budget. */
    method CountBlocks(rules: seq<Rule>) returns (exhausted: bool)
      requires Counted(blockCountByRule, blocked)
      modifies `blockCountByRule, `blocked
      ensures Counted(blockCountByRule, blocked) && blocked == old(blocked) + rules
      ensures exhausted <==> exists r :: r in rules && Tally(blockCountByRule, r) >= MAX_BLOCKS_PER_RULE
      ensures old(AllBelow(blockCountByRule, MAX_BLOCKS_PER_RULE))
              ==> (exhausted <==> !AllBelow(blockCountByRule, MAX_BLOCKS_PER_RULE))
    {
      var i := 0;
      while i < |rules|
        invariant 0 <= i <= |rules|
        invariant Counted(blockCountByRule, blocked) && blocked == old(blocked) + rules[..i]
        invariant forall x :: x !in rules[..i] ==> Tally(blockCountByRule, x) == old(Tally(blockCountByRule, x))
      {
        CountOneMore(blockCountByRule, blocked, rules[i]);
        blockCountByRule := blockCountByRule[rules[i] := Tally(blockCountByRule, rules[i]) + 1];
        blocked := blocked + [rules[i]];
        assert rules[..i + 1] == rules[..i] + [rules[i]];
        i := i + 1;
      }
      assert rules[..i] == rules;
      exhausted := exists r :: r in rules && Tally(blockCountByRule, r) >= MAX_BLOCKS_PER_RULE;
    }

    /** Compile, scan and read the artifact of the current draft, counting blocking findings. */
    method BuildDraft() returns (build: Build)
      requires Accounted() && WithinBudget() && work.code > 0 && LeftBy(oracle, work, work.code - 1)
      modifies `work, `fixLog, `blockCountByRule, `blocked, `autoFixGaveUp
      ensures build == BuildVerdict(oracle, work.code)
      ensures work == AfterBuild(oracle, old(work)) && Settled(oracle, work) && work.tests == old(work.tests)
      ensures work.code == old(work.code) && work.suitePath == old(work.suitePath)
      ensures work.Passing() <==> build in {Oversize, Built}
      ensures build == Built ==> SizeOk(work.artifact.value)
      ensures Accounted() && (autoFixGaveUp ==> build == Blocked && work.ok)
      ensures blocked == old(blocked) + BlockedBy(oracle, work.code)
      ensures fixLog == old(fixLog) + if build == CompileFailed then [FixEntry(CompileFix, attempts)]
                                      else if build == Built && SizeOk(oracle.readArtifact(work.code)) then []
                                      else [FixEntry(SafetyFix, attempts)]
    {
      BuildSettles(oracle, work);
      var version := work.code;
      work := work.(ok := oracle.compiles(version));
      if !work.ok {
        PushFix(CompileFix);
        return CompileFailed;
      }
      work := work.(source := version, safety := Tagged(version, oracle.Scan(version)));
      var blocking := BlockingRules(work.safety.value.findings);
      if blocking != [] {
        var exhausted := CountBlocks(blocking);
        PushFix(SafetyFix);
        autoFixGaveUp := exhausted;
        return Blocked;
      }
      var fits := ReadDraft();
      return if fits then Built else Oversize;
    }

    /** Read the artifact of a draft past the scanner; false when neither build fits. */
    method ReadDraft() returns (fits: bool)
      modifies `work, `fixLog
      ensures fits <==> SizeOk(oracle.FinalArtifact(work.code))
      ensures work == old(work).(artifact := Tagged(work.code, oracle.FinalArtifact(work.code)))
      ensures fixLog == old(fixLog)
                        + if SizeOk(oracle.readArtifact(work.code)) then [] else [FixEntry(SafetyFix, attempts)]
    {
      var version := work.code;
      work := work.(artifact := Tagged(version, oracle.readArtifact(version)));
      if !SizeOk(work.artifact.value) {
        var rescued := oracle.Rescue(version);
        PushFix(SafetyFix);
        if rescued.None? {
          return false;
        }
        work := work.(artifact := Tagged(version, rescued.value));
      }
      return true;
    }

    /** Reuse, regenerate or keep the journey suite; `Some(infrastructure)` when it could not be written. */
    method PrepareSuite() returns (failure: Option<bool>)
      requires work.artifact == Tagged(work.code, oracle.FinalArtifact(work.code))
      modifies `work, `suites, `fixLog
      ensures work == old(work).(suitePath := work.suitePath)
      ensures Preparation(failure, work.suitePath, suites)
              == Prepared(oracle, work.code, old(work.suitePath), old(suites))
      ensures fixLog == old(fixLog)
                        + if Choice(oracle, work.code, old(work.suitePath), old(suites)) == RunAsIs then []
                          else [FixEntry(GeneratingTests, attempts)]
    {
      var version, name := work.code, oracle.contractName(work.code);
      var current := Interface(name, work.artifact.value.abi.GetOr([]));
      assert current == oracle.InterfaceOf(version);
      hide Oracle.FinalArtifact, Oracle.InterfaceOf, Oracle.WriteSuite;
      if suites.reusable == Some(current) && work.artifact.value.hasCode {
        if oracle.suiteBinWritable(version) {
          suites := suites.(bins := suites.bins[name := version]);
          work := work.(suitePath := Some(name));
          PushFix(GeneratingTests);
        } else {
          suites := suites.(reusable := None);
        }
      }
      if suites.reusable != Some(current) || work.suitePath.None? {
        var generated := oracle.WriteSuite(version);
        PushFix(GeneratingTests);
        if generated.Generated? || generated.wroteFiles {
          suites := suites.(bins := suites.bins[name := version], written := suites.written[name := version]);
        }
        if generated.NotGenerated? {
          suites := suites.(reusable := None, generationFailures := suites.generationFailures + 1);
          return Some(generated.infrastructure);
        }
        suites := suites.(reusable := Some(current));
        work := work.(suitePath := Some(name));
      }
      return None;
    }

    /**
     * Prepare the suite and run it against a fork. The run deploys the current draft's bytecode exactly when that
     * could be read. Without it there is a run exactly when the suite kept from an earlier draft still matches.
     */
    method RunIntegrationGate() returns (gate: Gate)
      requires work.code > 0 && Filed(oracle, work.suitePath, suites, work.code - 1)
      requires work.artifact == Tagged(work.code, oracle.FinalArtifact(work.code))
      modifies `work, `suites, `fixLog, `ran
      ensures Filed(oracle, work.suitePath, suites, work.code) && old(suites.written.Keys) <= suites.written.Keys
      ensures work == old(work).(tests := work.tests, suitePath := work.suitePath)
      ensures |ran| >= |old(ran)| && ran[..|old(ran)|] == old(ran)
      ensures Gated(oracle, old(work), old(suites), work, suites, ran[|old(ran)|..])
      ensures gate.generationFailed ==>
                && oracle.WriteSuite(work.code).NotGenerated? && ran == old(ran) && work == old(work)
                && gate == Gate(false, true, oracle.WriteSuite(work.code).infrastructure, 0)
                && suites.generationFailures == old(suites.generationFailures) + 1
      ensures !gate.generationFailed ==>
                && ran == old(ran) + [work.tests.run] && suites.generationFailures == 0
                && work.tests.passed == oracle.ForkPassed(work.tests.run)
                && gate == Gate(work.tests.passed, false, oracle.ForkResult(work.tests.run).infrastructure,
                                oracle.ForkResult(work.tests.run).signature)
      ensures !gate.generationFailed ==>
                && work.tests.run.of == work.code
                && (work.tests.run.deployed == work.code <==> work.artifact.value.hasCode)
                && (work.artifact.value.hasCode ==> SuiteFits(oracle, work.tests.run))
                && (oracle.InterfaceOf(work.tests.run.suite) == oracle.InterfaceOf(work.code)
                    <==> work.artifact.value.hasCode || old(work.suitePath) == Some(oracle.contractName(work.code)))
      ensures !work.artifact.value.hasCode ==>
                (!gate.generationFailed
                 <==> old(suites.reusable) == Some(oracle.InterfaceOf(work.code)) && old(work.suitePath).Some?)
      ensures fixLog == old(fixLog)
                        + (if Choice(oracle, work.code, old(work.suitePath), old(suites)) == RunAsIs then []
                           else [FixEntry(GeneratingTests, attempts)])
                        + (if gate.passed || gate.generationFailed then [] else [FixEntry(TestFix, attempts)])
    {
      hide Oracle.FinalArtifact, Oracle.InterfaceOf, Oracle.WriteSuite, Oracle.ForkPassed, SuiteFits, Filed, Prepared;
      PreparedIsFiled(oracle, work.code, work.suitePath, suites);
      PreparedRun(oracle, work.code, work.suitePath, suites);
      PreparedFails(oracle, work.code, work.suitePath, suites);
      var failure := PrepareSuite();
      if failure.Some? {
        return Gate(false, true, failure.value, 0);
      }
      FiledAnyway(oracle, work.suitePath, suites, work.code, 0);
      suites := suites.(generationFailures := 0);
      var name := work.suitePath.GetOr(0);
      var e := ForkEntry(work.code, Tally(suites.written, name), Tally(suites.bins, name));
      var run := oracle.ForkResult(e);
      ran := ran + [e];
      work := work.(tests := Tests(oracle.ForkPassed(e), e));
      if !work.tests.passed {
        PushFix(TestFix);
      }
      return Gate(work.tests.passed, false, run.infrastructure, run.signature);
    }

    /** Count one fork-test failure; true when the same failure used up its budget. */
    method TestFixStalled(signature: Signature) returns (stalled: bool)
      requires Counted(testFailureCounts, Values(failures))
      modifies `testFailureCounts, `failures
      ensures Counted(testFailureCounts, Values(failures))
      ensures failures == old(failures) + [Tagged(work.code, signature)]
      ensures old(AllBelow(testFailureCounts, MAX_IDENTICAL_TEST_FAILURES))
              ==> (stalled <==> !AllBelow(testFailureCounts, MAX_IDENTICAL_TEST_FAILURES))
    {
      CountOneMore(testFailureCounts, Values(failures), signature);
      OneMoreValue(failures, Tagged(work.code, signature));
      var seen := Tally(testFailureCounts, signature) + 1;
      testFailureCounts := testFailureCounts[signature := seen];
      failures := failures + [Tagged(work.code, signature)];
      assert Tally(testFailureCounts, signature) == seen;
      assert forall x :: x != signature ==> Tally(testFailureCounts, x) == old(Tally(testFailureCounts, x));
      return seen >= MAX_IDENTICAL_TEST_FAILURES;
    }

    // ---- Main loop ----

    /** One pass of the main loop; true when the loop continues. */
    method MainPass() returns (again: bool)
      requires Traced() && Accounted() && Detected(attempts) && Current() && WithinBudget()
      requires work.code == attempts && suites.generationFailures <= 1
      requires Resumable(messages, head, pendingFix, attempts)
      requires pendingFix.None? ==> messages == head && attempts == 0
      requires !work.tests.passed && Tallied(attempts)
      modifies this`attempts, `calls, `work, `messages, `pendingFix, `fixLog, `blockCountByRule, `blocked,
               `autoFixGaveUp, `testFailureCounts, `failures, `suites, `ran
      ensures attempts == old(attempts) + 1 && work.code == attempts
      ensures Traced() && Accounted() && Detected(attempts) && Current() && Unspent(oracle, attempts - 1)
      ensures Resumable(messages, head, pendingFix, attempts)
      ensures old(ran) <= ran && |ran| <= |old(ran)| + 1 && (|ran| > |old(ran)| ==> ran[|old(ran)|].of == attempts)
      ensures again ==> WithinBudget() && suites.generationFailures <= 1
      ensures again ==> pendingFix.Some? && !work.tests.passed
      ensures !again ==> pendingFix.None?
      ensures NonePassedBefore(oracle, ran, attempts) && (autoFixGaveUp ==> work.ok)
      ensures Tallied(attempts)
      ensures again <==> !work.tests.passed && !autoFixGaveUp && !Broken(oracle, ran, attempts, true)
      ensures failures == old(failures)
                          + if |ran| > |old(ran)| && !oracle.ForkPassed(ran[|old(ran)|])
                               && !oracle.ForkResult(ran[|old(ran)|]).infrastructure
                            then [Tagged(attempts, oracle.ForkResult(ran[|old(ran)|]).signature)] else []
    {
      hide Counted, AllBelow, Callable, Settled, LeftBy, TestsCurrent, Filed, Tested, SomeRunPassed, NonePassedBefore,
           LastUnwritten, Broken, Prompted, Follows, FailuresRan, BlockedThrough, Unspent, BuildVerdict, Resumable,
           PruneRetryHistory, Oracle.ForkPassed, Oracle.ForkResult;
      ResumeMain();
      ResumableLater(messages, head, attempts, attempts + 1);
      again := NextDraft(true);
    }

    /** Test the current draft, which builds, and enter its run. */
    method TestDraft() returns (gate: Gate)
      requires Asked() && Settled(oracle, work) && work.Passing() && SizeOk(work.artifact.value)
      requires BuildVerdict(oracle, work.code) == Built
      modifies `work, `suites, `fixLog, `ran
      ensures Called() && Stored(attempts) && SomeRunPassed(oracle, ran, old(work.tests.passed) || gate.passed)
      ensures fixLog == old(fixLog)
                        + (if Choice(oracle, work.code, old(work.suitePath), old(suites)) == RunAsIs then []
                           else [FixEntry(GeneratingTests, attempts)])
                        + (if gate.passed || gate.generationFailed then [] else [FixEntry(TestFix, attempts)])
      ensures old(suites.written.Keys) <= suites.written.Keys
      ensures ran == old(ran) + (if gate.generationFailed then [] else [work.tests.run])
      ensures Gated(oracle, old(work), old(suites), work, suites, ran[|old(ran)|..])
      ensures work == old(work).(tests := work.tests, suitePath := work.suitePath) && Settled(oracle, work)
      ensures gate.generationFailed ==>
                && !gate.passed && work.tests == old(work.tests) && oracle.WriteSuite(work.code).NotGenerated?
                && gate.infrastructure == oracle.WriteSuite(work.code).infrastructure
                && suites.generationFailures == old(suites.generationFailures) + 1
      ensures !gate.generationFailed ==>
                && suites.generationFailures == 0 && TestsCurrent(oracle, work)
                && work.tests.passed == gate.passed == oracle.ForkPassed(work.tests.run)
                && work.tests.run.of == work.code && work.tests.run in ran
                && gate.infrastructure == oracle.ForkResult(work.tests.run).infrastructure
                && gate.signature == oracle.ForkResult(work.tests.run).signature
    {
      hide Oracle.InterfaceOf, Oracle.WriteSuite, Oracle.ForkPassed, Oracle.ForkResult, SuiteFits, Filed, Prepared,
           RunOf,
           Tested, SomeRunPassed, FailuresRan, Prompted, Callable, Choice;
      hide Oracle.FinalArtifact, Settled, BuildVerdict;
      PassingIsRead(oracle, work);
      gate := RunIntegrationGate();
      TestedSettles(oracle, old(work), work.tests, work.suitePath);
      if gate.generationFailed {
        NoRun(oracle, attempts - 1, ran);
      } else {
        OneMoreRun(oracle, attempts - 1, old(ran), work.tests.run);
        FailuresStay(oracle, failures, old(ran), work.tests.run);
      }
    }

    /**
     * Build and test the current draft; true when a fix was requested. The main loop also stops on a failure
     * that names a permission problem.
     */
    method JudgeDraft(inMainLoop: bool) returns (again: bool)
      requires Asked() && Accounted() && Detected(attempts - 1) && WithinBudget() && LeftBy(oracle, work, attempts - 1)
      requires head <= messages && pendingFix.None? && !work.tests.passed && Tallied(attempts - 1)
      modifies `work, `messages, `pendingFix, `fixLog, `blockCountByRule, `blocked, `autoFixGaveUp,
               `testFailureCounts, `failures, `suites, `ran
      ensures Traced() && Accounted() && Detected(attempts) && Current() && Unspent(oracle, attempts - 1)
      ensures head <= messages && work.code == attempts
      ensures old(ran) <= ran && |ran| <= |old(ran)| + 1 && (|ran| > |old(ran)| ==> ran[|old(ran)|].of == attempts)
      ensures again ==> WithinBudget() && pendingFix.Some? && Resumable(messages, head, pendingFix, attempts)
      ensures again ==> !work.tests.passed
      ensures again ==> suites.generationFailures <= 1 || suites.generationFailures == old(suites.generationFailures)
      ensures !again ==> messages == old(messages) && pendingFix.None?
      ensures autoFixGaveUp ==> work.ok
      ensures Tallied(attempts)
      ensures again <==> !work.tests.passed && !autoFixGaveUp && !Broken(oracle, ran, attempts, inMainLoop)
      ensures failures == old(failures)
                          + if |ran| > |old(ran)| && !oracle.ForkPassed(ran[|old(ran)|])
                               && !(inMainLoop && oracle.ForkResult(ran[|old(ran)|]).infrastructure)
                            then [Tagged(attempts, oracle.ForkResult(ran[|old(ran)|]).signature)] else []
      ensures BuildVerdict(oracle, attempts) != Built ==>
                fixLog == old(fixLog)
                          + [FixEntry(if BuildVerdict(oracle, attempts) == CompileFailed then CompileFix else SafetyFix,
                                      attempts)]
                          + if autoFixGaveUp && inMainLoop then [FixEntry(SafetyFix, attempts)] else []
      ensures BuildVerdict(oracle, attempts) == Built ==>
                fixLog == old(fixLog)
                          + (if SizeOk(oracle.readArtifact(attempts)) then [] else [FixEntry(SafetyFix, attempts)])
                          + (if Choice(oracle, attempts, old(work.suitePath), old(suites)) == RunAsIs then []
                             else [FixEntry(GeneratingTests, attempts)])
                          + (if |ran| > |old(ran)| && !work.tests.passed then [FixEntry(TestFix, attempts)] else [])
                          + (if again || work.tests.passed then [] else [FixEntry(TestFix, attempts)])
    {
      hide LeftBy, Counted, AllBelow, Callable, Resumable, Filed, Prompted, Tested, SomeRunPassed, FailuresRan, Unspent,
           BuildVerdict, Settled, TestsCurrent, SizeOk, Oracle.ForkPassed, Oracle.ForkResult, Oracle.WriteSuite,
           BlockedThrough, Choice, LastUnwritten, Broken;
      var build := BuildAsked();
      if build != Built {
        NotTested(oracle, attempts - 1, ran);
        NotBuilt(oracle, ran, attempts, inMainLoop);
        again := RejectDraft(inMainLoop);
        return;
      }
      again := TestAndFix(inMainLoop);
    }

    /** Build the draft just asked for; the counts then cover it. */
    method BuildAsked() returns (build: Build)
      requires Asked() && Accounted() && Detected(attempts - 1) && WithinBudget() && LeftBy(oracle, work, attempts - 1)
      requires !work.tests.passed
      modifies `work, `fixLog, `blockCountByRule, `blocked, `autoFixGaveUp
      ensures Asked() && Accounted() && blocked == BlockedThrough(oracle, attempts) && Unspent(oracle, attempts - 1)
      ensures build == BuildVerdict(oracle, attempts) && Current() && !work.tests.passed
      ensures work.suitePath == old(work.suitePath) && (work.Passing() <==> build in {Oversize, Built})
      ensures build == Built ==> SizeOk(work.artifact.value) && WithinBudget()
      ensures build != Built ==> Stored(attempts - 1) && Filed(oracle, work.suitePath, suites, attempts)
      ensures autoFixGaveUp ==> build == Blocked && work.ok
      ensures fixLog == old(fixLog) + if build == CompileFailed then [FixEntry(CompileFix, attempts)]
                                      else if build == Built && SizeOk(oracle.readArtifact(attempts)) then []
                                      else [FixEntry(SafetyFix, attempts)]
    {
      hide AfterBuild, LeftBy, Counted, AllBelow, Callable, Filed, Prompted, Tested, SomeRunPassed, FailuresRan,
           Unspent, BuildVerdict, BlockedBy, Settled, TestsCurrent, SizeOk, BlockedThrough;
      BudgetLeft(blockCountByRule, oracle, attempts - 1);
      OneMoreBlocked(oracle, attempts);
      PathIsFiled(oracle, work.suitePath, suites, attempts - 1);
      build := BuildDraft();
      NoTestsPassed(oracle, work);
    }

    /** The draft does not build: stop when that used up a budget, which only the main loop notes, or ask for a fix. */
    method RejectDraft(inMainLoop: bool) returns (again: bool)
      requires head <= messages && pendingFix.None?
      modifies `messages, `pendingFix, `fixLog
      ensures again <==> !autoFixGaveUp
      ensures fixLog == old(fixLog) + if autoFixGaveUp && inMainLoop then [FixEntry(SafetyFix, attempts)] else []
      ensures again ==> pendingFix.Some? && Resumable(messages, head, pendingFix, attempts) && head <= messages
      ensures !again ==> messages == old(messages) && pendingFix.None?
    {
      if autoFixGaveUp {
        if inMainLoop {
          PushFix(SafetyFix);
        }
        return false;
      }
      RequestFix();
      return true;
    }

    /** Ask for the next draft and judge it. */
    method NextDraft(inMainLoop: bool) returns (again: bool)
      requires Traced() && Accounted() && Detected(attempts) && Current() && WithinBudget()
      requires Callable(messages, head) && pendingFix.None? && !work.tests.passed && work.code == attempts
      requires Tallied(attempts)
      requires attempts == 0 || attempts == exception || Follows(messages, attempts)
      modifies this`attempts, `calls, `work, `messages, `pendingFix, `fixLog, `blockCountByRule, `blocked,
               `autoFixGaveUp, `testFailureCounts, `failures, `suites, `ran
      ensures attempts == old(attempts) + 1 && work.code == attempts && calls == old(calls) + [old(messages)]
      ensures Traced() && Accounted() && Detected(attempts) && Current() && Unspent(oracle, attempts - 1)
      ensures head <= messages
      ensures old(ran) <= ran && |ran| <= |old(ran)| + 1 && (|ran| > |old(ran)| ==> ran[|old(ran)|].of == attempts)
      ensures again ==> WithinBudget() && pendingFix.Some? && Resumable(messages, head, pendingFix, attempts)
      ensures again ==> !work.tests.passed
      ensures again ==> suites.generationFailures <= 1 || suites.generationFailures == old(suites.generationFailures)
      ensures !again ==> messages == old(messages) && pendingFix.None?
      ensures NonePassedBefore(oracle, ran, attempts) && (autoFixGaveUp ==> work.ok)
      ensures Tallied(attempts)
      ensures again <==> !work.tests.passed && !autoFixGaveUp && !Broken(oracle, ran, attempts, inMainLoop)
      ensures failures == old(failures)
                          + if |ran| > |old(ran)| && !oracle.ForkPassed(ran[|old(ran)|])
                               && !(inMainLoop && oracle.ForkResult(ran[|old(ran)|]).infrastructure)
                            then [Tagged(attempts, oracle.ForkResult(ran[|old(ran)|]).signature)] else []
    {
      hide Counted, AllBelow, Settled, LeftBy, TestsCurrent, Resumable, Filed, Tested, SomeRunPassed,
           NonePassedBefore, LastUnwritten, Broken, Prompted, Follows, FailuresRan, BlockedThrough, Unspent,
           BuildVerdict, Oracle.ForkPassed, Oracle.ForkResult;
      ghost var before := ran;
      AskedLeaves(oracle, work, attempts + 1);
      Ask();
      again := JudgeDraft(inMainLoop);
      NonePassedYet(oracle, before, ran, attempts);
    }

    /** The part of a pass behind its build. */
    method TestAndFix(inMainLoop: bool) returns (again: bool)
      requires Asked() && Accounted() && WithinBudget() && forall f :: f in failures ==> f.of < attempts
      requires Settled(oracle, work) && work.Passing() && SizeOk(work.artifact.value)
      requires BuildVerdict(oracle, work.code) == Built
      requires head <= messages && pendingFix.None? && !work.tests.passed && Tallied(attempts - 1)
      modifies `work, `messages, `pendingFix, `fixLog, `autoFixGaveUp, `testFailureCounts, `failures, `suites, `ran
      ensures Traced() && Accounted() && Current() && work.Passing() && head <= messages && work.code == attempts
      ensures forall f :: f in failures ==> f.of <= attempts
      ensures old(ran) <= ran && |ran| <= |old(ran)| + 1 && (|ran| > |old(ran)| ==> ran[|old(ran)|].of == attempts)
      ensures again ==> WithinBudget() && pendingFix.Some? && Resumable(messages, head, pendingFix, attempts)
      ensures again ==> !work.tests.passed
      ensures again ==> suites.generationFailures <= 1 || suites.generationFailures == old(suites.generationFailures)
      ensures !again ==> messages == old(messages) && pendingFix.None?
      ensures Tallied(attempts)
      ensures again <==> !work.tests.passed && !autoFixGaveUp && !Broken(oracle, ran, attempts, inMainLoop)
      ensures failures == old(failures)
                          + if |ran| > |old(ran)| && !oracle.ForkPassed(ran[|old(ran)|])
                               && !(inMainLoop && oracle.ForkResult(ran[|old(ran)|]).infrastructure)
                            then [Tagged(attempts, oracle.ForkResult(ran[|old(ran)|]).signature)] else []
      ensures fixLog == old(fixLog)
                        + (if Choice(oracle, attempts, old(work.suitePath), old(suites)) == RunAsIs then []
                           else [FixEntry(GeneratingTests, attempts)])
                        + (if |ran| > |old(ran)| && !work.tests.passed then [FixEntry(TestFix, attempts)] else [])
                        + (if again || work.tests.passed then [] else [FixEntry(TestFix, attempts)])
    {
      hide Counted, AllBelow, Callable, Resumable, Filed, Prompted, Tested, SomeRunPassed, FailuresRan, BuildVerdict,
           Settled, TestsCurrent, SizeOk, Oracle.ForkPassed, Oracle.ForkResult, Oracle.WriteSuite, Gated,
           LastUnwritten, Broken, Choice;
      ghost var before := ran;
      RunsAreEarlier(oracle, attempts - 1, ran);
      var gate := TestDraft();
      if gate.generationFailed {
        assert ran == before;
        NoNewRun(oracle, ran, attempts, inMainLoop);
      } else {
        NewRun(oracle, before, ran, work.tests.run, attempts, inMainLoop);
      }
      if gate.passed {
        return false;
      }
      NoTestsPassed(oracle, work);
      again := KeepFixing(gate, inMainLoop);
    }

    /** A gate failed: stop on broken tooling or a stuck failure, otherwise ask for a fix. */
    method KeepFixing(gate: Gate, checkInfrastructure: bool) returns (again: bool)
      requires !gate.passed && Accounted() && WithinBudget() && head <= messages && pendingFix.None?
      requires FailuresRan(oracle, failures, ran) && forall f :: f in failures ==> f.of < attempts
      requires work.code == attempts
      requires !gate.generationFailed ==>
                 && work.tests.run in ran && work.tests.run.of == work.code && !oracle.ForkPassed(work.tests.run)
                 && gate.signature == oracle.ForkResult(work.tests.run).signature
      modifies `messages, `pendingFix, `fixLog, `autoFixGaveUp, `testFailureCounts, `failures
      ensures Accounted() && head <= messages
      ensures FailuresRan(oracle, failures, ran) && forall f :: f in failures ==> f.of <= attempts
      ensures var broken := (checkInfrastructure && gate.infrastructure)
                            || (gate.generationFailed && suites.generationFailures >= 2);
              && (again <==> !broken && !autoFixGaveUp) && (broken ==> !autoFixGaveUp)
              && failures == old(failures) + (if broken || gate.generationFailed then []
                                              else [Tagged(work.code, gate.signature)])
      ensures again ==> WithinBudget() && pendingFix.Some? && Resumable(messages, head, pendingFix, attempts)
      ensures !again ==> messages == old(messages) && pendingFix.None?
      ensures fixLog == old(fixLog) + if again then [] else [FixEntry(TestFix, attempts)]
    {
      hide Counted, AllBelow, FailuresRan, Oracle.ForkPassed, Oracle.ForkResult, Resumable;
      if (checkInfrastructure && gate.infrastructure) || (gate.generationFailed && suites.generationFailures >= 2) {
        PushFix(TestFix);
        return false;
      }
      if !gate.generationFailed {
        OneMoreFailure(oracle, failures, ran, work.tests.run);
        autoFixGaveUp := TestFixStalled(gate.signature);
        if autoFixGaveUp {
          PushFix(TestFix);
          return false;
        }
      }
      RequestFix();
      return true;
    }

    /** Append the pending fix prompt, if any, and prune. */
    method ResumeMain()
      requires Traced() && Resumable(messages, head, pendingFix, attempts) && (pendingFix.None? ==> messages == head)
      modifies `messages, `pendingFix
      ensures Callable(messages, head) && pendingFix.None? && Resumable(messages, head, None, attempts)
      ensures head <= messages && (old(pendingFix).Some? ==> Follows(messages, attempts))
      ensures var fix := if old(pendingFix).Some? then [old(pendingFix).value] else [];
              messages == PruneRetryHistory(old(messages) + fix, |head|, fixLog)
    {
      if pendingFix.Some? {
        PruneAfterDraft(messages, head, fixLog, pendingFix.value);
        messages := messages + [pendingFix.value];
        pendingFix := None;
      } else {
        PruneKeepsLatest(messages, |head|, fixLog);
        assert head[|head|..] == [] && messages + [] == messages;
      }
      messages := PruneRetryHistory(messages, |head|, fixLog);
    }

    // ---- Test-fix loop ----

    /** Append the pending fix prompt, or a fresh one, and prune. */
    method ResumeTestFix()
      requires Traced() && Resumable(messages, head, pendingFix, attempts)
      modifies `messages, `pendingFix
      ensures Callable(messages, head) && pendingFix.None? && head <= messages
      ensures old(pendingFix).Some? <==> Follows(messages, attempts)
      ensures var fix := if old(pendingFix).Some? then old(pendingFix).value else Message(User, Prompt(attempts + 1));
              messages == PruneRetryHistory(old(messages) + [fix], |head|, fixLog)
    {
      hide PruneRetryHistory;
      var fix := pendingFix.GetOr(Message(User, Prompt(attempts + 1)));
      if pendingFix.Some? {
        PruneAfterDraft(messages, head, fixLog, fix);
        ghost var pruned := PruneRetryHistory(messages + [fix], |head|, fixLog);
        assert pruned[|pruned| - 2..][0] == messages[|messages| - 1] && pruned[|pruned| - 2..][1] == fix;
      } else {
        PruneAfterPrompt(messages, head, fixLog, fix);
        PromptAfterPrompt(messages, head, fixLog, fix, attempts);
      }
      pendingFix := None;
      messages := PruneRetryHistory(messages + [fix], |head|, fixLog);
    }

    /** The guard of the test-fix loop. */
    predicate NeedsTestFix()
      reads this
    {
      work.Passing() && !work.tests.passed && !autoFixGaveUp && testFixAttempts < MAX_TEST_FIX_ATTEMPTS
    }

    /**
     * One pass of the test-fix loop; true when it ends in `continue`, after which the guard decides. Its call
     * follows the draft before it exactly when a fix prompt was pending.
     */
    method TestFixPass() returns (again: bool)
      requires Traced() && Accounted() && Detected(attempts) && Current() && work.code == attempts
      requires Resumable(messages, head, pendingFix, attempts) && NeedsTestFix()
      requires pendingFix.None? ==> attempts == exception
      requires Tallied(attempts)
      modifies this`attempts, `testFixAttempts, `calls, `work, `messages, `pendingFix, `fixLog, `blockCountByRule,
               `blocked, `autoFixGaveUp, `testFailureCounts, `failures, `suites, `ran
      ensures attempts == old(attempts) + 1 && testFixAttempts == old(testFixAttempts) + 1 && work.code == attempts
      ensures Traced() && Accounted() && Detected(attempts) && Current() && Unspent(oracle, attempts - 1)
      ensures head <= messages
      ensures old(ran) <= ran && |ran| <= |old(ran)| + 1 && (|ran| > |old(ran)| ==> ran[|old(ran)|].of == attempts)
      ensures |calls| == |old(calls)| + 1 && old(calls) <= calls
      ensures Follows(calls[old(attempts)], old(attempts)) <==> old(pendingFix).Some?
      ensures again ==> WithinBudget() && Resumable(messages, head, pendingFix, attempts) && pendingFix.Some?
      ensures again ==> suites.generationFailures <= 1 || suites.generationFailures == old(suites.generationFailures)
      ensures NonePassedBefore(oracle, ran, attempts) && (autoFixGaveUp ==> work.ok)
      ensures Tallied(attempts)
      ensures again <==> !work.tests.passed && !autoFixGaveUp && !Broken(oracle, ran, attempts, false)
      ensures failures == old(failures)
                          + if |ran| > |old(ran)| && !oracle.ForkPassed(ran[|old(ran)|])
                            then [Tagged(attempts, oracle.ForkResult(ran[|old(ran)|]).signature)] else []
    {
      hide Counted, AllBelow, Callable, Settled, LeftBy, TestsCurrent, Resumable, Filed, Tested, SomeRunPassed,
           NonePassedBefore, LastUnwritten, Broken, Prompted, Follows, FailuresRan, BlockedThrough, Unspent,
           BuildVerdict, Oracle.ForkPassed, Oracle.ForkResult;
      testFixAttempts := testFixAttempts + 1;
      ResumeTestFix();
      again := NextDraft(false);
    }

    /** A pass, and what it adds to the loop. */
    method FixOnce(ghost start: seq<ForkEntry>) returns (again: bool)
      requires Traced() && Accounted() && Detected(attempts) && Current() && work.code == attempts
      requires Resumable(messages, head, pendingFix, attempts) && NeedsTestFix()
      requires pendingFix.None? ==> attempts == exception
      requires Tallied(attempts) && exception <= attempts
      requires Fixing(oracle, start, ran, failures, exception, attempts, true)
      modifies this`attempts, `testFixAttempts, `calls, `work, `messages, `pendingFix, `fixLog, `blockCountByRule,
               `blocked, `autoFixGaveUp, `testFailureCounts, `failures, `suites, `ran
      ensures attempts == old(attempts) + 1 && testFixAttempts == old(testFixAttempts) + 1 && work.code == attempts
      ensures Traced() && Accounted() && Detected(attempts) && Current() && Unspent(oracle, attempts - 1)
      ensures head <= messages
      ensures |calls| == |old(calls)| + 1 && old(calls) <= calls
      ensures Follows(calls[old(attempts)], old(attempts)) <==> old(pendingFix).Some?
      ensures again ==> WithinBudget() && Resumable(messages, head, pendingFix, attempts) && pendingFix.Some?
      ensures NonePassedBefore(oracle, ran, attempts) && (autoFixGaveUp ==> work.ok)
      ensures Tallied(attempts) && Fixing(oracle, start, ran, failures, exception, attempts, again)
      ensures again <==> !work.tests.passed && !autoFixGaveUp && !Broken(oracle, ran, attempts, false)
    {
      hide Counted, AllBelow, Callable, Settled, LeftBy, TestsCurrent, Resumable, Filed, Tested, SomeRunPassed,
           NonePassedBefore, LastUnwritten, Broken, Fixing, Prompted, Follows, FailuresRan, BlockedThrough, Unspent,
           BuildVerdict, Oracle.ForkPassed, Oracle.ForkResult;
      ghost var before, counted := ran, failures;
      again := TestFixPass();
      KeepsFixing(oracle, start, before, ran, counted, failures, exception, attempts);
      LessFixing(oracle, start, ran, failures, exception, attempts, !Broken(oracle, ran, attempts, false), again);
    }

    // ---- Critic-repair loop ----

    /** The economic critic reads the current draft. */
    method RunCritic()
      modifies `economicCritique
      ensures economicCritique == Some(Tagged(work.code, oracle.critique(work.code)))
    {
      economicCritique := Some(Tagged(work.code, oracle.critique(work.code)));
    }

    /** Append the last draft and a repair prompt, and prune. */
    method ResumeRepair()
      requires Traced() && head <= messages
      modifies `messages
      ensures Callable(messages, head) && head <= messages && Follows(messages, attempts)
      ensures messages == PruneRetryHistory(
                            old(messages) + [Message(Assistant, Draft(attempts)), Message(User, Prompt(attempts + 1))],
                            |head|, fixLog)
    {
      var fix := Message(User, Prompt(attempts + 1));
      messages := messages + [Message(Assistant, Draft(attempts))];
      PruneAfterDraft(messages, head, fixLog, fix);
      assert messages + [fix] == old(messages) + [Message(Assistant, Draft(attempts)), fix];
      messages := PruneRetryHistory(messages + [fix], |head|, fixLog);
    }

    /**
     * Build and test the repaired draft. It is accepted when it builds, scans, fits, and does not lose tests
     * that passed before.
     */
    method TryRepair(record: RepairAttempt) returns (result: RepairAttempt, accepted: bool)
      requires Asked() && work.ok && record.scannerResult == record.testResult == Skipped
      requires record.criticResult == NotRerun
      modifies `work, `suites, `fixLog, `ran
      ensures Called() && Stored(attempts) && Filed(oracle, old(work.suitePath), suites, attempts)
      ensures old(ran) <= ran && forall k :: |old(ran)| <= k < |ran| ==> ran[k].of == attempts
      ensures SomeRunPassed(oracle, ran, old(work.tests.passed) || result.testResult == Passed)
      ensures SomeRunPassed(oracle, ran[|old(ran)|..], result.testResult == Passed)
      ensures result.compileResult == if oracle.compiles(work.code) then Passed else Failed
      ensures result.scannerResult == if !oracle.compiles(work.code) then Skipped
                                      else if BuildVerdict(oracle, work.code) == Built then Passed else Failed
      ensures result.testResult == Skipped <==> BuildVerdict(oracle, work.code) != Built
      ensures result == record.(compileResult := result.compileResult, scannerResult := result.scannerResult,
                                testResult := result.testResult)
      ensures accepted <==> BuildVerdict(oracle, work.code) == Built
                            && (result.testResult == Passed || !old(work.tests.passed))
      ensures result.testResult == Passed ==> accepted
      ensures work.code == old(work.code)
      ensures accepted ==> Current() && work.Passing()
      ensures accepted ==> (work.tests.passed <==> result.testResult == Passed)
      ensures BuildVerdict(oracle, work.code) != Built ==> fixLog == old(fixLog)
      ensures BuildVerdict(oracle, work.code) == Built ==>
                fixLog == old(fixLog)
                          + (if SizeOk(oracle.readArtifact(work.code)) then [] else [FixEntry(CriticRepair, attempts)])
                          + (if Choice(oracle, work.code, old(work.suitePath), old(suites)) == RunAsIs then []
                             else [FixEntry(GeneratingTests, attempts)])
                          + (if |ran| > |old(ran)| && result.testResult == Failed then [FixEntry(TestFix, attempts)]
                             else [])
    {
      hide Filed, Tested, SomeRunPassed, Prompted, Callable, SuiteFits, Oracle.ForkPassed, Oracle.WriteSuite,
           FailuresRan, Choice, Settled, SizeOk, Oracle.FinalArtifact, TestsCurrent;
      var version, hadTests := work.code, work.tests.passed;
      PathIsFiled(oracle, work.suitePath, suites, attempts - 1);
      if BuildVerdict(oracle, version) != Built {
        NotTested(oracle, attempts - 1, ran);
      }
      FewRuns(oracle, work.tests.run);
      assert ran[|ran|..] == [];
      result, accepted := record.(compileResult := Failed), false;
      if !oracle.compiles(version) {
        return;
      }
      result := result.(compileResult := Passed);
      var repaired := oracle.Scan(version);
      if repaired.level == Fail {
        result := result.(scannerResult := Failed);
        return;
      }
      result := result.(scannerResult := Passed);
      var fits := ReadRepair(repaired);
      if !fits {
        result := result.(scannerResult := Failed);
        return;
      }
      hide BuildVerdict, Oracle.Scan;
      var gate := TestRepair();
      result := result.(testResult := if gate.passed then Passed else Failed);
      accepted := gate.passed || !hadTests;
    }

    /** The verdict and the artifact of a repaired draft past the scanner; false when neither build fits. */
    method ReadRepair(repaired: Safety) returns (fits: bool)
      requires work.code > 0 && work.ok && oracle.compiles(work.code)
      requires repaired == oracle.Scan(work.code) && repaired.level != Fail
      modifies `work, `fixLog
      ensures fits <==> BuildVerdict(oracle, work.code) == Built
      ensures work == old(work).(safety := Tagged(work.code, repaired), source := work.code, artifact := work.artifact)
      ensures fits ==> Settled(oracle, work) && work.Passing() && SizeOk(work.artifact.value)
      ensures fixLog == old(fixLog) + if fits && !SizeOk(oracle.readArtifact(work.code))
                                      then [FixEntry(CriticRepair, attempts)] else []
    {
      hide Settled;
      var version := work.code;
      work := work.(safety := Tagged(version, repaired), source := version,
        artifact := Tagged(version, oracle.readArtifact(version)));
      if !SizeOk(work.artifact.value) {
        var rescued := oracle.Rescue(version);
        if rescued.None? {
          return false;
        }
        work := work.(artifact := Tagged(version, rescued.value));
        PushFix(CriticRepair);
      }
      ReadIsSettled(oracle, work);
      return true;
    }

    /** The tests of a repaired draft that builds; nothing is counted. */
    method TestRepair() returns (gate: Gate)
      requires Asked() && Settled(oracle, work) && work.Passing() && SizeOk(work.artifact.value)
      requires BuildVerdict(oracle, work.code) == Built
      modifies `work, `suites, `fixLog, `ran
      ensures Called() && Stored(attempts) && Filed(oracle, old(work.suitePath), suites, attempts)
      ensures old(ran) <= ran && forall k :: |old(ran)| <= k < |ran| ==> ran[k].of == attempts
      ensures SomeRunPassed(oracle, ran, old(work.tests.passed) || gate.passed)
      ensures SomeRunPassed(oracle, ran[|old(ran)|..], gate.passed)
      ensures work == old(work).(tests := work.tests, suitePath := work.suitePath) && Settled(oracle, work)
      ensures gate.passed || !old(work.tests.passed) ==> TestsCurrent(oracle, work) && work.tests.passed == gate.passed
      ensures fixLog == old(fixLog)
                        + (if Choice(oracle, work.code, old(work.suitePath), old(suites)) == RunAsIs then []
                           else [FixEntry(GeneratingTests, attempts)])
                        + (if |ran| > |old(ran)| && !gate.passed then [FixEntry(TestFix, attempts)] else [])
    {
      hide Filed, Tested, SomeRunPassed, Prompted, Callable, Settled, BuildVerdict, TestsCurrent, SizeOk, FailuresRan,
           Gated, Choice;
      PathIsFiled(oracle, work.suitePath, suites, attempts - 1);
      gate := TestDraft();
      FewRuns(oracle, work.tests.run);
      assert ran[|old(ran)|..] == if gate.generationFailed then [] else [work.tests.run];
      PathStaysFiled(oracle, old(work.suitePath), work.suitePath, old(suites), suites, attempts);
      if !work.tests.passed {
        NoTestsPassed(oracle, work);
      }
    }

    /** The state every repair starts from and ends in. */
    ghost predicate Repairable()
      reads this
    {
      Traced() && Current() && work.Passing() && head <= messages
      && economicCritique == Some(Tagged(work.code, oracle.critique(work.code)))
    }

    /** Ask for a repaired draft and try it. */
    method DraftRepair() returns (record: RepairAttempt, accepted: bool)
      requires Repairable() && |repairAttempts| < oracle.MaxRepairs()
      modifies `attempts, `calls, `work, `messages, `fixLog, `suites, `ran
      ensures Called() && Stored(attempts) && head <= messages && attempts == old(attempts) + 1 && old(calls) <= calls
      ensures Follows(calls[old(attempts)], old(attempts))
      ensures old(ran) <= ran && forall k :: |old(ran)| <= k < |ran| ==> ran[k].of == attempts
      ensures Filed(oracle, old(work.suitePath), suites, attempts)
      ensures SomeRunPassed(oracle, ran, old(work.tests.passed) || record.testResult == Passed)
      ensures SomeRunPassed(oracle, ran[|old(ran)|..], record.testResult == Passed)
      ensures record.compileResult == if oracle.compiles(attempts) then Passed else Failed
      ensures record.scannerResult == if !oracle.compiles(attempts) then Skipped
                                      else if BuildVerdict(oracle, attempts) == Built then Passed else Failed
      ensures record.testResult == Skipped <==> BuildVerdict(oracle, attempts) != Built
      ensures record.attempt == |repairAttempts| + 1 && record.criticResult == NotRerun
      ensures record.escalated <==> record.attempt > MAX_CRITIC_REPAIR_ATTEMPTS
      ensures accepted <==> BuildVerdict(oracle, attempts) == Built
                            && (record.testResult == Passed || !old(work.tests.passed))
      ensures record.testResult == Passed ==> accepted
      ensures accepted ==> Current() && work.Passing() && work.code == attempts
      ensures accepted ==> (work.tests.passed <==> record.testResult == Passed)
      ensures old(fixLog) + [FixEntry(CriticRepair, attempts)] <= fixLog
      ensures BuildVerdict(oracle, attempts) != Built ==> |fixLog| == |old(fixLog)| + 1
    {
      hide Settled, TestsCurrent, BuildVerdict, Callable, Filed, Tested, SomeRunPassed, FailuresRan, Prompted, Follows,
           PruneRetryHistory;
      var repairNum := |repairAttempts| + 1;
      var escalated := repairNum > MAX_CRITIC_REPAIR_ATTEMPTS && oracle.hasEscalationModel;
      fixLog := fixLog + [FixEntry(CriticRepair, attempts + 1)];
      ResumeRepair();
      Ask();
      record, accepted := TryRepair(RepairAttempt(repairNum, escalated, Failed, Skipped, Skipped, NotRerun));
    }

    /** One repair: snapshot, ask, try, then either rerun the critic or restore the snapshot. */
    method RepairPass()
      requires Repairable() && |repairAttempts| < oracle.MaxRepairs()
      modifies `attempts, `calls, `work, `messages, `fixLog, `suites, `ran, `economicCritique, `repairAttempts
      ensures Repairable() && attempts == old(attempts) + 1 && old(calls) <= calls
      ensures Follows(calls[old(attempts)], old(attempts))
      ensures old(ran) <= ran && forall k :: |old(ran)| <= k < |ran| ==> ran[k].of == attempts
      ensures old(work.tests.passed) ==> work.tests.passed
      ensures |repairAttempts| == |old(repairAttempts)| + 1 && old(repairAttempts) < repairAttempts
      ensures var record := repairAttempts[|repairAttempts| - 1];
              && record.attempt == |repairAttempts|
              && (record.escalated <==> record.attempt > MAX_CRITIC_REPAIR_ATTEMPTS)
              && (record.criticResult == NotRerun ==> work == old(work) && economicCritique == old(economicCritique))
              && (record.criticResult != NotRerun ==> work.code == attempts)
              && (record.criticResult != NotRerun <==>
                    BuildVerdict(oracle, attempts) == Built
                    && (record.testResult == Passed || !old(work.tests.passed)))
              && (record.criticResult == Clean ==> !ShouldRepair(economicCritique))
              && (record.criticResult == FindingsRemain ==> ShouldRepair(economicCritique))
              && (record.testResult == Passed ==> work.tests.passed)
      ensures var record := repairAttempts[|repairAttempts| - 1];
              && SomeRunPassed(oracle, ran[|old(ran)|..], record.testResult == Passed)
              && record.compileResult == (if oracle.compiles(attempts) then Passed else Failed)
              && record.scannerResult == (if !oracle.compiles(attempts) then Skipped
                                          else if BuildVerdict(oracle, attempts) == Built then Passed else Failed)
              && (record.testResult == Skipped <==> BuildVerdict(oracle, attempts) != Built)
      ensures |fixLog| >= |old(fixLog)| + 2 && old(fixLog) + [FixEntry(CriticRepair, attempts)] <= fixLog
      ensures fixLog[|fixLog| - 1] == FixEntry(CriticRepair, attempts)
    {
      hide Settled, TestsCurrent, ShouldRepair, BuildVerdict, Callable, Filed, Tested, SomeRunPassed, FailuresRan,
           Prompted, Recorded, Serious, Follows;
      var snapshot := work;
      var record, accepted := DraftRepair();
      if accepted {
        RunCritic();
        record := record.(criticResult := if ShouldRepair(economicCritique) then FindingsRemain else Clean);
      } else {
        work := snapshot.(ok := true);
      }
      repairAttempts := repairAttempts + [record];
      PushFix(CriticRepair);
    }

    // ---- The three loops ----

    method MainLoop()
      requires Traced() && Accounted() && Detected(0) && Current() && WithinBudget() && suites.generationFailures == 0
      requires attempts == work.code == 0 && messages == head && pendingFix.None? && !work.tests.passed && Tallied(0)
      modifies this`attempts, `calls, `work, `messages, `pendingFix, `fixLog, `blockCountByRule, `blocked,
               `autoFixGaveUp, `testFailureCounts, `failures, `suites, `ran
      ensures 0 < attempts <= MAX_PIPELINE_ATTEMPTS && work.code == attempts
      ensures Traced() && Accounted() && Detected(attempts) && Current() && Unspent(oracle, attempts - 1)
      ensures Resumable(messages, head, pendingFix, attempts)
      ensures pendingFix.Some? ==> attempts == MAX_PIPELINE_ATTEMPTS && Permitted(oracle, ran, attempts)
      ensures NonePassedBefore(oracle, ran, attempts) && (autoFixGaveUp ==> work.ok)
      ensures Tallied(attempts) && Unbroken(oracle, ran, 0, attempts - 1, true)
      ensures attempts < MAX_PIPELINE_ATTEMPTS ==>
                work.tests.passed || autoFixGaveUp || Broken(oracle, ran, attempts, true)
      ensures FailuresCounted(oracle, failures, ran, attempts, attempts)
    {
      hide Counted, AllBelow, Callable, Settled, TestsCurrent, Filed, Tested, SomeRunPassed, FailuresRan, Broken,
           LastUnwritten, Unbroken, FailuresCounted, RunsLater, BlockedThrough, Unspent, BuildVerdict,
           Oracle.ForkPassed, Oracle.ForkResult;
      var again := true;
      NothingCounted(oracle, failures, ran);
      NoneBroken(oracle, ran, 0, -1, true);
      NoneBroken(oracle, ran, 0, 0, true);
      while again && attempts < MAX_PIPELINE_ATTEMPTS
        invariant attempts <= MAX_PIPELINE_ATTEMPTS && (attempts == 0 ==> again)
        invariant Traced() && Accounted() && Detected(attempts) && Current()
        invariant work.code == attempts && (autoFixGaveUp ==> work.ok)
        invariant attempts > 0 ==>
                    Unspent(oracle, attempts - 1) && NonePassedBefore(oracle, ran, attempts)
        invariant Resumable(messages, head, pendingFix, attempts)
        invariant again ==> WithinBudget() && suites.generationFailures <= 1 && !work.tests.passed
        invariant again ==> pendingFix.None? ==> messages == head && attempts == 0
        invariant !again ==> pendingFix.None?
        invariant Tallied(attempts) && Unbroken(oracle, ran, 0, attempts - 1, true)
        invariant again ==> Unbroken(oracle, ran, 0, attempts, true)
        invariant !again ==> work.tests.passed || autoFixGaveUp || Broken(oracle, ran, attempts, true)
        invariant FailuresCounted(oracle, failures, ran, attempts, attempts)
        decreases MAX_PIPELINE_ATTEMPTS - attempts
      {
        ghost var before, counted := ran, failures;
        RunsAreEarlier(oracle, attempts, ran);
        again := MainPass();
        RunsLaterSelf(before, attempts - 1);
        OneLater(before, before, ran, attempts - 1);
        OneMoreUnbroken(oracle, before, ran, 0, attempts, true);
        OneMoreCounted(oracle, counted, failures, before, ran, attempts, true, 0);
      }
      if again {
        UnbrokenPermits(oracle, ran, attempts);
      }
    }

    /** The first call follows the draft before it exactly when the main loop left a fix prompt. */
    method TestFixLoop()
      requires Traced() && Accounted() && Detected(attempts) && Current() && Tallied(attempts)
      requires FailuresCounted(oracle, failures, ran, attempts, attempts)
      requires attempts > 0 && work.code == attempts && Unspent(oracle, attempts - 1)
      requires NonePassedBefore(oracle, ran, attempts) && (autoFixGaveUp ==> work.ok)
      requires Resumable(messages, head, pendingFix, attempts)
      requires testFixAttempts == 0 && exception == 0
      requires pendingFix.Some? ==> attempts == MAX_PIPELINE_ATTEMPTS && Permitted(oracle, ran, attempts)
      modifies this`attempts, `testFixAttempts, `calls, `work, `messages, `pendingFix, `fixLog, `blockCountByRule,
               `blocked, `autoFixGaveUp, `testFailureCounts, `failures, `suites, `ran, `exception, `fixPending
      ensures exception == old(attempts) && fixPending == old(pendingFix).Some?
      ensures testFixAttempts <= MAX_TEST_FIX_ATTEMPTS && attempts == old(attempts) + testFixAttempts
      ensures testFixAttempts > 0 <==> old(NeedsTestFix())
      ensures testFixAttempts > 0 ==> BuildVerdict(oracle, exception) in {Oversize, Built}
      ensures NonePassedBefore(oracle, ran, attempts) && (autoFixGaveUp ==> work.ok)
      ensures FixShown(oracle, calls, ran, testFixAttempts, fixPending, exception)
      ensures Traced() && Accounted() && Detected(attempts) && Current() && Unspent(oracle, attempts - 1)
      ensures head <= messages && work.code == attempts
      ensures old(work.tests.passed) ==> work.tests.passed
      ensures old(autoFixGaveUp) ==> autoFixGaveUp
      ensures Fixing(oracle, old(ran), ran, failures, exception, attempts, false)
      ensures 0 < testFixAttempts < MAX_TEST_FIX_ATTEMPTS && work.Passing() && !work.tests.passed && !autoFixGaveUp ==>
                Broken(oracle, ran, attempts, false)
    {
      hide Counted, AllBelow, Callable, Settled, LeftBy, TestsCurrent, Filed, Tested, SomeRunPassed, FailuresRan,
           NonePassedBefore, RunsLater, Permitted, Fixing, Prompted, Broken, LastUnwritten, FailuresCounted,
           BlockedThrough, Unspent, BuildVerdict, Follows;
      var again := true;
      PassingIsRead(oracle, work);
      AnyException(calls, exception, attempts);
      exception, fixPending := attempts, pendingFix.Some?;
      StartsFixing(oracle, ran, failures, exception);
      while again && NeedsTestFix()
        invariant exception == old(attempts) && fixPending == old(pendingFix).Some?
        invariant testFixAttempts <= MAX_TEST_FIX_ATTEMPTS && attempts == old(attempts) + testFixAttempts
        invariant testFixAttempts == 0 ==>
                    again && pendingFix == old(pendingFix) && work == old(work) && autoFixGaveUp == old(autoFixGaveUp)
        invariant testFixAttempts > 0 ==> old(NeedsTestFix())
        invariant NonePassedBefore(oracle, ran, attempts) && (autoFixGaveUp ==> work.ok)
        invariant |calls| == attempts
        invariant testFixAttempts > 0 ==> (Follows(calls[exception], exception) <==> fixPending)
        invariant Traced() && Accounted() && Detected(attempts) && Current() && Unspent(oracle, attempts - 1)
        invariant head <= messages && work.code == attempts
        invariant again ==> Resumable(messages, head, pendingFix, attempts)
        invariant again && pendingFix.None? ==> attempts == exception
        invariant Tallied(attempts) && Fixing(oracle, old(ran), ran, failures, exception, attempts, again)
        invariant !again ==> work.tests.passed || autoFixGaveUp || Broken(oracle, ran, attempts, false)
        decreases MAX_TEST_FIX_ATTEMPTS - testFixAttempts
      {
        again := FixOnce(old(ran));
      }
      LessFixing(oracle, old(ran), ran, failures, exception, attempts, again, false);
      if fixPending {
        StillPermitted(oracle, exception, old(ran), ran);
      }
    }

    method CriticRepairLoop()
      requires Repairable() && repairAttempts == [] && work.code == attempts
      modifies `attempts, `calls, `work, `messages, `fixLog, `suites, `ran, `economicCritique, `repairAttempts
      ensures Repairable() && RepairsNumbered(oracle, old(attempts), repairAttempts) && old(calls) <= calls
      ensures RepairsShown(calls, old(attempts), repairAttempts) && RepairsDue(oracle, old(attempts), repairAttempts)
      ensures RepairsRecorded(oracle, ran, old(attempts), repairAttempts)
      ensures work.code == old(attempts) + LastAccepted(repairAttempts)
      ensures RunsLater(old(ran), ran, old(attempts))
      ensures attempts == old(attempts) + |repairAttempts|
      ensures ShouldRepair(economicCritique) ==> |repairAttempts| == oracle.MaxRepairs()
      ensures old(work.tests.passed) ==> work.tests.passed
      ensures (exists i :: 0 <= i < |repairAttempts| && repairAttempts[i].testResult == Passed) ==> work.tests.passed
    {
      hide Settled, TestsCurrent, ShouldRepair, Callable, Filed, Tested, SomeRunPassed, FailuresRan, BuildVerdict,
           RepairsNumbered, RepairsShown, RepairsDue, RepairsRecorded, LastAccepted;
      NoRepairs(oracle, calls, ran, attempts);
      while |repairAttempts| < oracle.MaxRepairs() && ShouldRepair(economicCritique)
        invariant Repairable() && RepairsNumbered(oracle, old(attempts), repairAttempts) && old(calls) <= calls
        invariant |repairAttempts| <= oracle.MaxRepairs()
        invariant RepairsShown(calls, old(attempts), repairAttempts)
        invariant RepairsDue(oracle, old(attempts), repairAttempts)
        invariant RepairsRecorded(oracle, ran, old(attempts), repairAttempts)
        invariant work.code == old(attempts) + LastAccepted(repairAttempts)
        invariant RunsLater(old(ran), ran, old(attempts))
        invariant attempts == old(attempts) + |repairAttempts|
        invariant old(work.tests.passed) ==> work.tests.passed
        invariant (exists i :: 0 <= i < |repairAttempts| && repairAttempts[i].testResult == Passed)
                  ==> work.tests.passed
        decreases oracle.MaxRepairs() - |repairAttempts|
      {
        ghost var sent, before, repairs, hadTests := calls, ran, repairAttempts, work.tests.passed;
        RepairPass();
        OneLater(old(ran), before, ran, old(attempts));
        NextRepair(old(attempts), sent, repairs);
        NextRecord(old(attempts), before, hadTests, repairs);
      }
    }

    /** The latest record says what its repair found out. */
    lemma NextRecord(drafts: nat, before: seq<ForkEntry>, hadTests: bool, repairs: seq<RepairAttempt>)
      requires Repairable() && attempts == drafts + |repairs| + 1
      requires |repairAttempts| == |repairs| + 1 && repairs < repairAttempts
      requires Tested(oracle, attempts - 1, before) && SomeRunPassed(oracle, before, hadTests)
      requires before <= ran && forall k :: |before| <= k < |ran| ==> ran[k].of == attempts
      requires RepairsRecorded(oracle, before, drafts, repairs)
      requires var record := repairAttempts[|repairs|];
               && SomeRunPassed(oracle, ran[|before|..], record.testResult == Passed)
               && record.compileResult == (if oracle.compiles(attempts) then Passed else Failed)
               && record.scannerResult == (if !oracle.compiles(attempts) then Skipped
                                           else if BuildVerdict(oracle, attempts) == Built then Passed else Failed)
               && (record.testResult == Skipped <==> BuildVerdict(oracle, attempts) != Built)
               && (record.criticResult != NotRerun ==> work.code == attempts)
               && (record.criticResult != NotRerun <==>
                     BuildVerdict(oracle, attempts) == Built && (record.testResult == Passed || !hadTests))
               && (record.criticResult == Clean ==> !ShouldRepair(economicCritique))
               && (record.criticResult == FindingsRemain ==> ShouldRepair(economicCritique))
      ensures RepairsRecorded(oracle, ran, drafts, repairAttempts)
    {
      hide Settled, TestsCurrent, ShouldRepair, BuildVerdict, Callable, Filed, Tested, SomeRunPassed, FailuresRan,
           Prompted, Recorded, Serious, RepairsRecorded;
      var record := repairAttempts[|repairs|];
      assert repairAttempts == repairs + [record];
      RunsAreEarlier(oracle, attempts - 1, before);
      SeriousIsRepaired(attempts, oracle.critique(attempts));
      RecordIs(oracle, before, ran, hadTests, attempts, record);
      OneMoreRecorded(oracle, before, ran, drafts, repairs, record);
    }

    /** The latest call and record extend those before them. */
    lemma NextRepair(drafts: nat, sent: seq<seq<Message>>, repairs: seq<RepairAttempt>)
      requires |calls| == attempts == |sent| + 1 && sent <= calls && Follows(calls[|sent|], |sent|)
      requires |repairAttempts| == |repairs| + 1 && repairs < repairAttempts && |repairs| < oracle.MaxRepairs()
      requires RepairsNumbered(oracle, drafts, repairs) && RepairsShown(sent, drafts, repairs)
      requires RepairsDue(oracle, drafts, repairs)
      requires var v := drafts + LastAccepted(repairs); ShouldRepair(Some(Tagged(v, oracle.critique(v))))
      requires var record := repairAttempts[|repairs|];
               && record.attempt == |repairAttempts|
               && (record.escalated <==> record.attempt > MAX_CRITIC_REPAIR_ATTEMPTS)
               && (Accepted(record) ==> BuildVerdict(oracle, attempts) == Built)
      ensures RepairsNumbered(oracle, drafts, repairAttempts) && RepairsShown(calls, drafts, repairAttempts)
      ensures RepairsDue(oracle, drafts, repairAttempts)
      ensures LastAccepted(repairAttempts)
              == if Accepted(repairAttempts[|repairs|]) then |repairs| + 1 else LastAccepted(repairs)
    {
      hide Follows, BuildVerdict, Oracle.MaxRepairs, RepairsNumbered, RepairsDue, Due, LastAccepted, ShouldRepair;
      var call, record := calls[|sent|], repairAttempts[|repairs|];
      assert calls == sent + [call] && repairAttempts == repairs + [record];
      OneMoreNumbered(oracle, drafts, repairs, record);
      OneMoreShown(sent, drafts, repairs, call, record);
      RepairIsDue(oracle, drafts, repairs);
      OneMoreDue(oracle, drafts, repairs, record);
      OneMoreAccepted(repairs, record);
    }

    /** A run that never compiled still returns its last draft as source. */
    method FillSource()
      requires Current()
      modifies `work
      ensures Current() && work == old(work).(source := work.source) && (work.source == 0 ==> work.code == 0)
    {
      if work.source == 0 {
        work := work.(source := work.code);
      }
    }

    /** Draft until the tests pass or a budget is spent. */
    method DraftAndTest()
      requires Traced() && Accounted() && Detected(0) && Current() && WithinBudget() && suites.generationFailures == 0
      requires Tallied(0)
      requires attempts == testFixAttempts == exception == work.code == 0 && messages == head && pendingFix.None?
      requires !work.tests.passed
      modifies this`attempts, `testFixAttempts, `calls, `work, `messages, `pendingFix, `fixLog, `blockCountByRule,
               `blocked, `autoFixGaveUp, `testFailureCounts, `failures, `suites, `ran, `exception, `fixPending
      ensures Traced() && Accounted() && Detected(attempts) && Current() && head <= messages
      ensures testFixAttempts <= MAX_TEST_FIX_ATTEMPTS
      ensures 0 < exception == attempts - testFixAttempts <= MAX_PIPELINE_ATTEMPTS && Unspent(oracle, attempts - 1)
      ensures work.code == attempts && NonePassedBefore(oracle, ran, attempts)
      ensures FixShown(oracle, calls, ran, testFixAttempts, fixPending, exception)
      ensures Stopped(oracle, ran, attempts, testFixAttempts, autoFixGaveUp, work.tests.passed, work.Passing())
      ensures FailuresCounted(oracle, failures, ran, attempts, attempts - testFixAttempts)
    {
      hide Callable, Prompted, Counted, AllBelow, Settled, LeftBy, TestsCurrent, Filed, Tested, SomeRunPassed,
           FailuresRan, BlockedThrough, Unspent, BuildVerdict, Follows, FixShown, NonePassedBefore, Broken,
           LastUnwritten, FailuresCounted,
           RunsLater, Permitted;
      MainLoop();
      PassingIsRead(oracle, work);
      ghost var before, main := ran, attempts;
      TestFixLoop();
      UnbrokenLater(oracle, before, ran, 0, main - 1, main, true);
      BrokenLater(oracle, before, ran, main, main, true);
      PassingIsRead(oracle, work);
    }

    /** The critic reads a passing draft, and its high findings start the repair loop. */
    method CritiqueAndRepair()
      requires Traced() && Current() && head <= messages && economicCritique.None? && repairAttempts == []
      requires work.code == attempts
      modifies `attempts, `calls, `work, `messages, `fixLog, `suites, `ran, `economicCritique, `repairAttempts
      ensures Traced() && Current() && RepairsNumbered(oracle, old(attempts), repairAttempts) && old(calls) <= calls
      ensures RepairsShown(calls, old(attempts), repairAttempts) && RepairsDue(oracle, old(attempts), repairAttempts)
      ensures RepairsRecorded(oracle, ran, old(attempts), repairAttempts)
      ensures work.code == old(attempts) + LastAccepted(repairAttempts)
      ensures RunsLater(old(ran), ran, old(attempts))
      ensures economicCritique.Some? <==> old(work.Passing())
      ensures economicCritique.None? ==> work == old(work) && repairAttempts == []
      ensures economicCritique.Some? ==>
                work.Passing() && economicCritique.value == Tagged(work.code, oracle.critique(work.code))
      ensures attempts == old(attempts) + |repairAttempts|
      ensures ShouldRepair(economicCritique) ==> |repairAttempts| == oracle.MaxRepairs()
      ensures old(work.tests.passed) ==> work.tests.passed
      ensures (exists i :: 0 <= i < |repairAttempts| && repairAttempts[i].testResult == Passed) ==> work.tests.passed
    {
      hide Settled, TestsCurrent, Callable, Filed, Tested, SomeRunPassed, FailuresRan;
      if work.Passing() {
        RunCritic();
        if ShouldRepair(economicCritique) {
          CriticRepairLoop();
        }
      }
    }

    /** Whatever happened before, a vault over the size limit is never reported as safe. */
    method EnforceSizeLimit()
      requires Current()
      modifies `work
      ensures work == old(work).(safety := Tagged(old(work.safety.of),
                                                  SizeChecked(old(work.safety.value), work.artifact.value)))
      ensures Reported(oracle, work) && TestsCurrent(oracle, work) && (work.Passing() ==> old(work.Passing()))
      ensures work.Passing() && !SizeOk(work.artifact.value) ==>
                exists f :: f in work.safety.value.findings && f.rule == EIP170_RULE
    {
      hide Settled, Reported;
      CheckedIsReported(oracle, work, SizeChecked(work.safety.value, work.artifact.value));
      if !SizeOk(work.artifact.value)
         && forall f :: f in work.safety.value.findings ==> f.rule != EIP170_RULE {
        work := work.(safety := Tagged(work.safety.of,
                                       Safety(Fail, work.safety.value.findings + [Finding(EIP170_RULE, true)])));
      }
    }

    /** The result, after the final size check. */
    method Conclude() returns (result: Result)
      requires Current() && Accounted() && CritiqueCurrent(oracle, work, economicCritique) && work.code > 0
      modifies `work
      ensures result == Result(work, economicCritique, repairAttempts, attempts, testFixAttempts, autoFixGaveUp,
                               fixPending, calls, ran, blocked, failures)
      ensures work == old(work).(safety := work.safety) && Reported(oracle, work)
      ensures work.tests.passed <==> result.Deployable()
      ensures result.Deployable() ==> Coherent(oracle, result)
      ensures work.Passing() && !SizeOk(work.artifact.value) ==>
                exists f :: f in work.safety.value.findings && f.rule == EIP170_RULE
      ensures GaveUpIff(autoFixGaveUp, blocked, Values(failures))
    {
      hide Counted, AllBelow, Settled, Reported, TestsCurrent, Coherent, GaveUpIff;
      EnforceSizeLimit();
      GaveUpExactly(blockCountByRule, blocked, testFailureCounts, Values(failures), autoFixGaveUp);
      result := Result(work, economicCritique, repairAttempts, attempts, testFixAttempts, autoFixGaveUp, fixPending,
                       calls, ran, blocked, failures);
      DeployableIsCoherent(oracle, result);
    }

    /** The critic and the repairs, and then the result. */
    method Finish() returns (result: Result)
      requires Traced() && Accounted() && Detected(attempts) && Current() && head <= messages
      requires economicCritique.None? && repairAttempts == []
      requires exception == attempts - testFixAttempts && attempts > 0 && Unspent(oracle, attempts - 1)
      requires work.code == attempts && NonePassedBefore(oracle, ran, attempts)
      requires FixShown(oracle, calls, ran, testFixAttempts, fixPending, exception)
      requires 0 < exception <= MAX_PIPELINE_ATTEMPTS && testFixAttempts <= MAX_TEST_FIX_ATTEMPTS
      requires Stopped(oracle, ran, attempts, testFixAttempts, autoFixGaveUp, work.tests.passed, work.Passing())
      requires FailuresCounted(oracle, failures, ran, attempts, attempts - testFixAttempts)
      modifies `attempts, `calls, `work, `messages, `fixLog, `suites, `ran, `economicCritique, `repairAttempts
      ensures result.testFixAttempts == testFixAttempts && result.Drafts() == old(attempts)
      ensures result.attempts == old(attempts) + |result.repairs|
      ensures result.Deployable() <==> result.work.tests.passed
      ensures result.Deployable() ==> Coherent(oracle, result)
      ensures Tested(oracle, result.attempts, result.ran) && SomeRunPassed(oracle, result.ran, result.Deployable())
      ensures result.critique.Some? <==> BuildVerdict(oracle, result.Drafts()) in {Oversize, Built}
      ensures result.critique.None? ==> result.repairs == []
      ensures result.critique.Some? ==>
                result.critique.value == Tagged(result.work.code, oracle.critique(result.work.code))
      ensures result.work.Passing() && !SizeOk(result.work.artifact.value) ==>
                exists f :: f in result.work.safety.value.findings && f.rule == EIP170_RULE
      ensures RepairsNumbered(oracle, result.Drafts(), result.repairs) && Conversed(oracle, head, result, exception)
      ensures RepairsShown(result.calls, result.Drafts(), result.repairs)
      ensures RepairsDue(oracle, result.Drafts(), result.repairs)
      ensures RepairsRecorded(oracle, result.ran, result.Drafts(), result.repairs)
      ensures NonePassedBefore(oracle, result.ran, result.Drafts()) && Reported(oracle, result.work)
      ensures result.work.code == result.Drafts() + LastAccepted(result.repairs)
      ensures ShouldRepair(result.critique) ==> |result.repairs| == oracle.MaxRepairs()
      ensures (exists i :: 0 <= i < |result.repairs| && result.repairs[i].testResult == Passed) ==> result.Deployable()
      ensures Explained(oracle, result) && SpentOrGaveUp(oracle, result)
    {
      hide Callable, Prompted, Counted, AllBelow, Settled, TestsCurrent, Coherent, Filed, Tested, SomeRunPassed,
           FailuresRan,
           RepairsNumbered, GaveUpIff, ToolingWorks, BlockedThrough, Unspent, BuildVerdict, Follows, ShouldRepair,
           SizeOk;
      hide SpentOrGaveUp, Spent, Stopped, FailuresCounted, RunsLater, PassedBy, FixShown, Reported, RepairsShown,
           RepairsDue, RepairsRecorded, LastAccepted, NonePassedBefore;
      ghost var sent, before, passed := calls, ran, work.tests.passed;
      PassingIsRead(oracle, work);
      StoppedIsSpent(oracle, ran, attempts, testFixAttempts, autoFixGaveUp, passed, work.Passing());
      CritiqueAndRepair();
      StillStopped(oracle, before, ran, old(attempts), testFixAttempts, autoFixGaveUp, passed, old(work.Passing()));
      StillCounted(oracle, failures, before, ran, old(attempts), old(attempts) - testFixAttempts);
      PassedByIs(oracle, before, ran, old(attempts), passed);
      StillNonePassed(oracle, old(attempts), before, ran);
      StillShown(oracle, sent, before, testFixAttempts, fixPending, exception, calls, ran, old(attempts));
      result := Conclude();
      SpentIsExhausted(oracle, result, passed);
    }
  }

  /** The pipeline from the first draft to the result. */
  method RunCodegenPipeline(oracle: Oracle, head: seq<Message>) returns (result: Result)
    requires head != [] && head[|head| - 1].role == User
    ensures result.Deployable() <==> result.work.tests.passed
    ensures result.Deployable() ==> Coherent(oracle, result)
    ensures Tested(oracle, result.attempts, result.ran) && SomeRunPassed(oracle, result.ran, result.Deployable())
    ensures result.critique.Some? <==> BuildVerdict(oracle, result.Drafts()) in {Oversize, Built}
    ensures result.critique.None? ==> result.repairs == []
    ensures result.critique.Some? ==>
              result.critique.value == Tagged(result.work.code, oracle.critique(result.work.code))
    ensures result.work.ok && result.work.safety.value.level != Fail && !SizeOk(result.work.artifact.value) ==>
              exists f :: f in result.work.safety.value.findings && f.rule == EIP170_RULE
    ensures result.attempts == result.Drafts() + |result.repairs|
    ensures 0 < result.Drafts() - result.testFixAttempts <= MAX_PIPELINE_ATTEMPTS
    ensures result.testFixAttempts <= MAX_TEST_FIX_ATTEMPTS
    ensures RepairsNumbered(oracle, result.Drafts(), result.repairs)
    ensures RepairsShown(result.calls, result.Drafts(), result.repairs)
    ensures result.attempts > MAX_PIPELINE_ATTEMPTS + MAX_TEST_FIX_ATTEMPTS
            <==> |result.repairs| > (MAX_PIPELINE_ATTEMPTS - (result.Drafts() - result.testFixAttempts))
                                    + (MAX_TEST_FIX_ATTEMPTS - result.testFixAttempts)
    ensures Reported(oracle, result.work) && result.work.code == result.Drafts() + LastAccepted(result.repairs)
    ensures NonePassedBefore(oracle, result.ran, result.Drafts())
    ensures Conversed(oracle, head, result, result.Drafts() - result.testFixAttempts)
    ensures RepairsDue(oracle, result.Drafts(), result.repairs)
    ensures RepairsRecorded(oracle, result.ran, result.Drafts(), result.repairs)
    ensures ShouldRepair(result.critique) ==> |result.repairs| == oracle.MaxRepairs()
    ensures result.critique.Some? && result.critique.value.value.reviewed
            && (Blocking in result.critique.value.value.severities || High in result.critique.value.value.severities)
            ==> |result.repairs| == if oracle.hasEscalationModel then 3 else 2
    ensures result.repairs != []
            <==> && oracle.compiles(result.Drafts())
                 && (forall f :: f in oracle.findings(result.Drafts()) ==> !f.blocking)
                 && var critique := oracle.critique(result.Drafts());
                    critique.reviewed && (Blocking in critique.severities || High in critique.severities)
    ensures (exists i :: 0 <= i < |result.repairs| && result.repairs[i].testResult == Passed) ==> result.Deployable()
    ensures Explained(oracle, result) && SpentOrGaveUp(oracle, result)
  {
    hide Callable, Prompted, Counted, AllBelow, Settled, TestsCurrent, Coherent, Filed, Tested, SomeRunPassed,
         FailuresRan,
         RepairsNumbered, GaveUpIff, ToolingWorks, BlockedThrough, Unspent, BuildVerdict, Follows, ShouldRepair, SizeOk;
    hide Conversed, Explained, SpentOrGaveUp, Spent, Stopped, FailuresCounted, FixShown, Reported, RepairsShown,
         NonePassedBefore, LastAccepted, LeftBy, Accepted, RepairsDue, RepairsRecorded;
    var run := new CodegenRun(oracle, head);
    run.DraftAndTest();
    run.FillSource();
    result := run.Finish();
    RepairsAreDue(oracle, result);
  }

  lemma GaveUpExactly(
    blockCounts: map<Rule, nat>, blocked: seq<Rule>, failureCounts: map<Signature, nat>, failures: seq<Signature>,
    gaveUp: bool)
    requires Counted(blockCounts, blocked) && Counted(failureCounts, failures)
    requires gaveUp <==> !(AllBelow(blockCounts, MAX_BLOCKS_PER_RULE)
                           && AllBelow(failureCounts, MAX_IDENTICAL_TEST_FAILURES))
    ensures GaveUpIff(gaveUp, blocked, failures)
  {
  }

  /** With no calls beyond the exception, any exception will do. */
  lemma AnyException(calls: seq<seq<Message>>, exception: int, other: int)
    requires Prompted(calls, exception) && exception == 0 && other == |calls|
    ensures Prompted(calls, other)
  {
  }
}
