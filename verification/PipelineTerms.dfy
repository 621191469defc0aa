/** What the verdicts, counts and choices of the pipeline mean in terms of what its tools answer. */
module PipelineTerms {
  import opened Wrappers
  import opened RetryHistory
  import opened PipelineModel

  // ---- One draft ----

  /** Under the size limit, or of unknown size. */
  predicate Fits(a: Artifact) {
    a.deployedSize.None? || a.deployedSize.value <= 24_576
  }

  predicate Clear(oracle: Oracle, v: nat) {
    oracle.compiles(v) && forall f :: f in oracle.findings(v) ==> !f.blocking
  }

  /** A draft builds exactly when it compiles, nothing blocks it, and one of its two builds fits. */
  lemma BuildIs(oracle: Oracle, v: nat)
    ensures BuildVerdict(oracle, v) == CompileFailed <==> !oracle.compiles(v)
    ensures BuildVerdict(oracle, v) == Blocked <==> oracle.compiles(v) && !Clear(oracle, v)
    ensures BuildVerdict(oracle, v) == Built
            <==> && Clear(oracle, v)
                 && (Fits(oracle.readArtifact(v)) || exists a :: oracle.buildViaIr(v) == Some(a) && Fits(a))
    ensures oracle.FinalArtifact(v) == oracle.readArtifact(v) || Some(oracle.FinalArtifact(v)) == oracle.buildViaIr(v)
    ensures Fits(oracle.readArtifact(v)) || !Fits(oracle.FinalArtifact(v)) ==>
              oracle.FinalArtifact(v) == oracle.readArtifact(v)
    ensures BuildVerdict(oracle, v) == Built ==> Fits(oracle.FinalArtifact(v))
  {
  }

  lemma LevelIs(oracle: Oracle, v: nat)
    ensures oracle.Scan(v).findings == oracle.findings(v)
    ensures oracle.Scan(v).level == Fail <==> exists f :: f in oracle.findings(v) && f.blocking
    ensures oracle.Scan(v).level == Pass <==> oracle.findings(v) == []
  {
    if oracle.findings(v) != [] {
      assert oracle.findings(v)[0] in oracle.findings(v);
    }
  }

  /** The last draft up to this one that compiled, and the last one nothing blocked. */
  lemma {:induction false} LastOnes(oracle: Oracle, drafts: nat)
    ensures var c := LastCompiled(oracle, drafts);
            c <= drafts && (c > 0 ==> oracle.compiles(c)) && forall k :: c < k <= drafts ==> !oracle.compiles(k)
    ensures var r := LastRead(oracle, drafts);
            r <= drafts && (r > 0 ==> Clear(oracle, r)) && forall k :: r < k <= drafts ==> !Clear(oracle, k)
  {
    hide SizeOk, Oracle.FinalArtifact;
    if drafts > 0 {
      LastOnes(oracle, drafts - 1);
    }
  }

  /** The verdict the drafts leave fails for a blocking finding, or for a size that no finding reported. */
  lemma StandingIs(oracle: Oracle, drafts: nat)
    ensures var last, read := LastCompiled(oracle, drafts), LastRead(oracle, drafts);
            Standing(oracle, drafts).level == Fail
            <==> || (exists f :: f in oracle.findings(last) && f.blocking)
                 || (read > 0 && !Fits(oracle.FinalArtifact(read))
                     && forall f :: f in oracle.findings(last) ==> f.rule != 0)
  {
    LevelIs(oracle, LastCompiled(oracle, drafts));
  }

  // ---- Suites ----

  predicate SameInterface(oracle: Oracle, v: nat, w: nat) {
    oracle.contractName(v) == oracle.contractName(w)
    && match (oracle.FinalArtifact(v).abi, oracle.FinalArtifact(w).abi)
       case (None, None) => true
       case (None, Some(g)) => g == []
       case (Some(f), None) => f == []
       case (Some(f), Some(g)) => f == g
  }

  predicate CanWrite(oracle: Oracle, v: nat) {
    oracle.FinalArtifact(v).hasCode && oracle.generateSuite(v).Generated?
  }

  lemma SuitesAre(oracle: Oracle, e: ForkEntry)
    ensures oracle.InterfaceOf(e.suite) == oracle.InterfaceOf(e.of) <==> SameInterface(oracle, e.suite, e.of)
    ensures oracle.WriteSuite(e.suite).Generated? <==> CanWrite(oracle, e.suite)
    ensures SuiteFits(oracle, e) <==> SameInterface(oracle, e.suite, e.of) && CanWrite(oracle, e.suite)
    ensures oracle.ForkPassed(e)
            <==> oracle.runFork(e.of, e.suite, e.deployed).ok || oracle.runFork(e.of, e.suite, e.deployed).skipped
  {
  }

  /** The suite kept was written for this name and these functions. */
  predicate Kept(oracle: Oracle, s: Suites, v: nat) {
    && s.reusable.Some? && s.reusable.value.contractName == oracle.contractName(v)
    && s.reusable.value.functions == match oracle.FinalArtifact(v).abi case None => [] case Some(f) => f
  }

  /**
   * A suite is written anew unless the one kept is for this interface and either its bytecode can be refreshed, or
   * there is none to refresh and a suite is in use.
   */
  predicate WritesAnew(oracle: Oracle, v: nat, path: Option<Name>, s: Suites) {
    || !Kept(oracle, s, v)
    || (oracle.FinalArtifact(v).hasCode && !oracle.suiteBinWritable(v))
    || (!oracle.FinalArtifact(v).hasCode && path.None?)
  }

  predicate WritesBytecode(oracle: Oracle, v: nat, path: Option<Name>, s: Suites) {
    if WritesAnew(oracle, v, path, s) then
      CanWrite(oracle, v) || (oracle.FinalArtifact(v).hasCode && oracle.generateSuite(v).wroteFiles)
    else oracle.FinalArtifact(v).hasCode
  }

  /** Which files a gate leaves, which suite it keeps, and which it will run. */
  lemma PreparedIs(oracle: Oracle, v: nat, path: Option<Name>, s: Suites)
    ensures var p, name := Prepared(oracle, v, path, s), oracle.contractName(v);
            var anew := WritesAnew(oracle, v, path, s);
            && (Choice(oracle, v, path, s) == Regenerate <==> anew)
            && (p.failure.Some? <==> anew && !CanWrite(oracle, v))
            && p.suites.bins == (if WritesBytecode(oracle, v, path, s) then s.bins[name := v] else s.bins)
            && p.suites.written
               == (if anew && WritesBytecode(oracle, v, path, s) then s.written[name := v] else s.written)
            && (p.suites.reusable.Some? <==> !anew || CanWrite(oracle, v))
            && (p.suites.reusable.Some? ==> Kept(oracle, p.suites, v))
            && p.path == (if p.failure.None? && (anew || oracle.FinalArtifact(v).hasCode) then Some(name) else path)
            && p.suites.generationFailures == s.generationFailures + (if p.failure.Some? then 1 else 0)
  {
    hide Oracle.FinalArtifact;
  }

  // ---- Counts ----

  lemma {:induction false} CountIs<T>(log: seq<T>, x: T)
    ensures Count(log, x) == multiset(log)[x]
  {
    if log != [] {
      CountIs(log[..|log| - 1], x);
      assert log == log[..|log| - 1] + [log[|log| - 1]];
    }
  }

  /** The findings of a rule that blocked these drafts: which draft, and which of its findings. */
  function Blocking(oracle: Oracle, drafts: nat, rule: Rule): set<(nat, nat)> {
    set v: nat, i: nat | 0 < v <= drafts && i < |oracle.findings(v)| && oracle.compiles(v)
                         && oracle.findings(v)[i].blocking && oracle.findings(v)[i].rule == rule :: (v, i)
  }

  /** Those of one draft. */
  function BlockingOf(findings: seq<Finding>, rule: Rule): set<nat> {
    set i: nat | i < |findings| && findings[i].blocking && findings[i].rule == rule
  }

  function Shifted(places: set<nat>): set<nat> {
    set i | i in places :: i + 1
  }

  lemma {:induction false} ShiftedSize(places: set<nat>)
    ensures |Shifted(places)| == |places|
  {
    if places != {} {
      var i :| i in places;
      ShiftedSize(places - {i});
      forall j | j in Shifted(places)
        ensures j in Shifted(places - {i}) + {i + 1}
      {
        assert j - 1 in places;
        assert j - 1 != i ==> j - 1 in places - {i};
      }
      assert Shifted(places) == Shifted(places - {i}) + {i + 1};
      assert i + 1 !in Shifted(places - {i});
    }
  }

  lemma FirstBlocking(findings: seq<Finding>, rule: Rule)
    requires findings != []
    ensures 0 !in Shifted(BlockingOf(findings[1..], rule))
    ensures BlockingOf(findings, rule)
            == Shifted(BlockingOf(findings[1..], rule))
               + if findings[0].blocking && findings[0].rule == rule then {0} else {}
  {
    var rest := findings[1..];
    forall i: nat | i in BlockingOf(findings, rule) && i > 0
      ensures i in Shifted(BlockingOf(rest, rule))
    {
      assert rest[i - 1] == findings[i];
      assert i - 1 in BlockingOf(rest, rule);
    }
  }

  lemma {:induction false} RulesCount(findings: seq<Finding>, rule: Rule)
    ensures multiset(BlockingRules(findings))[rule] == |BlockingOf(findings, rule)|
  {
    if findings == [] {
      assert BlockingOf([], rule) == {};
    } else {
      RulesCount(findings[1..], rule);
      FirstBlocking(findings, rule);
      ShiftedSize(BlockingOf(findings[1..], rule));
    }
  }

  function Paired(v: nat, places: set<nat>): set<(nat, nat)> {
    set i | i in places :: (v, i)
  }

  lemma {:induction false} PairedSize(v: nat, places: set<nat>)
    ensures |Paired(v, places)| == |places|
  {
    if places == {} {
      assert Paired(v, places) == {};
    } else {
      var i :| i in places;
      PairedSize(v, places - {i});
      assert Paired(v, places) == Paired(v, places - {i}) + {(v, i)};
    }
  }

  function BlockingIn(oracle: Oracle, v: nat, rule: Rule): set<nat> {
    if oracle.compiles(v) then BlockingOf(oracle.findings(v), rule) else {}
  }

  lemma OneMoreDraft(oracle: Oracle, v: nat, rule: Rule)
    requires v > 0
    ensures var last := Paired(v, BlockingIn(oracle, v, rule));
            last !! Blocking(oracle, v - 1, rule) && Blocking(oracle, v, rule) == Blocking(oracle, v - 1, rule) + last
  {
  }

  /** The rules counted are the blocking findings of the drafts that compile. */
  lemma {:induction false} BlockedCount(oracle: Oracle, drafts: nat, rule: Rule)
    ensures multiset(BlockedThrough(oracle, drafts))[rule] == |Blocking(oracle, drafts, rule)|
  {
    hide Blocking, BlockingIn, BlockedBy, Paired;
    if drafts == 0 {
      NothingBlocking(oracle, rule);
    } else {
      BlockedCount(oracle, drafts - 1, rule);
      OneMoreDraft(oracle, drafts, rule);
      PairedSize(drafts, BlockingIn(oracle, drafts, rule));
      BlockedByCount(oracle, drafts, rule);
    }
  }

  lemma NothingBlocking(oracle: Oracle, rule: Rule)
    ensures Blocking(oracle, 0, rule) == {}
  {
  }

  lemma BlockedByCount(oracle: Oracle, v: nat, rule: Rule)
    ensures multiset(BlockedBy(oracle, v))[rule]
            == |BlockingIn(oracle, v, rule)|
  {
    hide BlockingOf, SizeOk, Oracle.FinalArtifact;
    RulesCount(oracle.findings(v), rule);
    BuildIs(oracle, v);
    if oracle.compiles(v) && BuildVerdict(oracle, v) != Blocked {
      NoneBlocking(oracle.findings(v), rule);
    }
  }

  lemma NoneBlocking(findings: seq<Finding>, rule: Rule)
    requires forall f :: f in findings ==> !f.blocking
    ensures BlockingOf(findings, rule) == {}
  {
  }

  // ---- Giving up ----

  function DraftsFailing(failures: seq<Tagged<Signature>>, signature: Signature): set<nat> {
    set f | f in failures && f.value == signature :: f.of
  }

  predicate InOrder(failures: seq<Tagged<Signature>>) {
    forall i, j :: 0 <= i < j < |failures| ==> failures[i].of < failures[j].of
  }

  lemma {:induction false} FailuresCount(failures: seq<Tagged<Signature>>, signature: Signature)
    requires InOrder(failures)
    ensures multiset(Values<Signature>(failures))[signature] == |DraftsFailing(failures, signature)|
  {
    hide InOrder, Values, DraftsFailing;
    if failures == [] {
      NoneFailing(signature);
    } else {
      var front, last := failures[..|failures| - 1], failures[|failures| - 1];
      assert failures == front + [last];
      FrontInOrder(failures);
      FailuresCount(front, signature);
      OneMoreValue<Signature>(front, last);
      assert Values<Signature>(failures) == Values<Signature>(front) + [last.value];
      LastFailing(front, last, signature);
    }
  }

  lemma NoneFailing(signature: Signature)
    ensures Values<Signature>([]) == [] && DraftsFailing([], signature) == {}
  {
  }

  lemma FrontInOrder(failures: seq<Tagged<Signature>>)
    requires InOrder(failures) && failures != []
    ensures InOrder(failures[..|failures| - 1])
    ensures forall f :: f in failures[..|failures| - 1] ==> f.of < failures[|failures| - 1].of
  {
  }

  lemma LastFailing(front: seq<Tagged<Signature>>, last: Tagged<Signature>, signature: Signature)
    requires forall f :: f in front ==> f.of < last.of
    ensures last.of !in DraftsFailing(front, signature)
    ensures DraftsFailing(front + [last], signature)
            == DraftsFailing(front, signature) + if last.value == signature then {last.of} else {}
  {
    var all := front + [last];
    forall f | f in front
      ensures f in all
    {
    }
    assert all[|front|] == last;
  }

  /** A run of the draft fails so, and not for lack of permissions in the main loop, which ends with pass `main`. */
  ghost predicate FailsSo(oracle: Oracle, ran: seq<ForkEntry>, v: nat, signature: Signature, main: int) {
    exists e :: e in ran && e.of == v && FailedRun(oracle.runFork(e.of, e.suite, e.deployed), signature, v <= main)
  }

  predicate FailedRun(run: ForkRun, signature: Signature, inMain: bool) {
    !run.ok && !run.skipped && run.signature == signature && !(inMain && run.infrastructure)
  }

  ghost function Failing(
    oracle: Oracle, ran: seq<ForkEntry>, drafts: nat, signature: Signature, main: int): set<nat>
  {
    set v: nat | 0 < v <= drafts && FailsSo(oracle, ran, v, signature, main)
  }

  lemma FailingAre(oracle: Oracle, r: Result, signature: Signature)
    requires Explained(oracle, r) && Tested(oracle, r.attempts, r.ran)
    ensures DraftsFailing(r.failures, signature)
            == Failing(oracle, r.ran, r.Drafts(), signature, r.Drafts() - r.testFixAttempts)
  {
    hide Tested, GaveUpIff, Result.Drafts, BlockedThrough, Unspent;
    var drafts, main := r.Drafts(), r.Drafts() - r.testFixAttempts;
    forall f | f in r.failures && f.value == signature
      ensures f.of in Failing(oracle, r.ran, drafts, signature, main)
    {
      CountedFails(oracle, r, f);
    }
    forall v | v in Failing(oracle, r.ran, drafts, signature, main)
      ensures v in DraftsFailing(r.failures, signature)
    {
      var e :| e in r.ran && e.of == v && FailedRun(oracle.runFork(e.of, e.suite, e.deployed), signature, v <= main);
      assert Tagged(v, signature) in r.failures;
    }
  }

  lemma CountedFails(oracle: Oracle, r: Result, f: Tagged<Signature>)
    requires Explained(oracle, r) && Tested(oracle, r.attempts, r.ran) && f in r.failures
    ensures 0 < f.of <= r.Drafts() && FailsSo(oracle, r.ran, f.of, f.value, r.Drafts() - r.testFixAttempts)
  {
    hide GaveUpIff, Result.Drafts, BlockedThrough, Unspent, Testable, BuildVerdict, SuiteFits, Oracle.FinalArtifact;
    var e :| e in r.ran && e.of == f.of && !oracle.ForkPassed(e) && oracle.ForkResult(e).signature == f.value;
    assert f == Tagged(e.of, oracle.ForkResult(e).signature);
    assert FailedRun(oracle.runFork(e.of, e.suite, e.deployed), f.value, f.of <= r.Drafts() - r.testFixAttempts);
  }

  /** Auto-fix gives up exactly when four findings of one rule blocked drafts, or three drafts failed alike. */
  lemma GaveUpIs(oracle: Oracle, r: Result, drafts: nat, main: int)
    requires Explained(oracle, r) && Tested(oracle, r.attempts, r.ran)
    requires drafts == r.Drafts() && main == drafts - r.testFixAttempts
    ensures r.gaveUp
            <==> || (exists rule :: |Blocking(oracle, drafts, rule)| >= 4)
                 || (exists signature :: |Failing(oracle, r.ran, drafts, signature, main)| >= 3)
  {
    hide Blocking, Failing, Tested, FailuresCounted, Unspent, BlockedThrough, Values, DraftsFailing, Result.Drafts;
    forall rule
      ensures Count(r.blocked, rule) == |Blocking(oracle, drafts, rule)|
    {
      CountIs(r.blocked, rule);
      BlockedCount(oracle, drafts, rule);
    }
    forall signature
      ensures Count<Signature>(Values<Signature>(r.failures), signature)
              == |Failing(oracle, r.ran, drafts, signature, main)|
    {
      FailingCount(oracle, r, drafts, main, signature);
    }
  }

  lemma FailingCount(oracle: Oracle, r: Result, drafts: nat, main: int, signature: Signature)
    requires Explained(oracle, r) && Tested(oracle, r.attempts, r.ran)
    requires drafts == r.Drafts() && main == drafts - r.testFixAttempts
    ensures Count<Signature>(Values<Signature>(r.failures), signature)
            == |Failing(oracle, r.ran, drafts, signature, main)|
  {
    hide Failing, Tested, FailuresCounted, Unspent, BlockedThrough, Values, DraftsFailing, Result.Drafts;
    CountIs<Signature>(Values<Signature>(r.failures), signature);
    FailuresCount(r.failures, signature);
    FailingAre(oracle, r, signature);
    assert DraftsFailing(r.failures, signature) == Failing(oracle, r.ran, drafts, signature, main);
    assert InOrder(r.failures);
  }

  /** A run is reported as exhausted when it gave up, or spent its passes on a failing verdict or failing tests. */
  lemma ExhaustedIs(r: Result)
    ensures r.Exhausted()
            <==> || r.gaveUp
                 || (r.attempts >= 12 && r.work.safety.value.level == Fail)
                 || (r.attempts >= 12 && r.testFixAttempts >= 8 && r.work.ok && r.work.safety.value.level != Fail
                     && !r.work.tests.passed)
  {
  }

  /**
   * What a deployable result stands for, in what the tools answered: its draft compiles, nothing blocks it, its
   * artifact fits, and a fork run of that draft passed, on its own bytecode if that could be read.
   */
  lemma DeployableIs(oracle: Oracle, r: Result)
    requires r.Deployable() && Coherent(oracle, r)
    ensures var v, run := r.work.code, r.work.tests.run;
            && r.work.source == v && Clear(oracle, v) && Fits(r.work.artifact.value)
            && (r.work.artifact.value == oracle.readArtifact(v) || oracle.buildViaIr(v) == Some(r.work.artifact.value))
            && r.work.safety == Tagged(v, Safety(if oracle.findings(v) == [] then Pass else Warn, oracle.findings(v)))
            && run.of == v
            && (oracle.runFork(v, run.suite, run.deployed).ok || oracle.runFork(v, run.suite, run.deployed).skipped)
            && (r.work.artifact.value.hasCode <==> run.deployed == v)
            && (r.work.artifact.value.hasCode ==> SameInterface(oracle, run.suite, v) && CanWrite(oracle, run.suite))
            && (r.critique.Some? ==> r.critique.value == Tagged(v, oracle.critique(v)))
  {
    hide SuiteFits, Oracle.FinalArtifact;
    var v := r.work.code;
    BuildIs(oracle, v);
    LevelIs(oracle, v);
    SuitesAre(oracle, r.work.tests.run);
  }

  // ---- Repairs ----

  /** The last accepted repair is the last one after which the critic ran again. */
  lemma {:induction false} LastAcceptedIs(repairs: seq<RepairAttempt>)
    ensures var n := LastAccepted(repairs);
            && n <= |repairs| && (n > 0 ==> repairs[n - 1].criticResult in {Clean, FindingsRemain})
            && forall k :: n <= k < |repairs| ==> repairs[k].criticResult == NotRerun
  {
    if repairs != [] {
      LastAcceptedIs(repairs[..|repairs| - 1]);
    }
  }
}
