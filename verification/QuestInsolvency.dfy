/** Runs on which approved users cannot be paid. */
module QuestInsolvency {
  import opened Wrappers
  import opened Uint256
  import opened MapSums
  import opened QuestVault
  import opened QuestAccounting

  /** Users base .. base+k-1 submit to a quest and are approved. */
  function Cohort(manager: Address, questId: nat, base: nat, k: nat): seq<Call> {
    if k == 0 then []
    else Cohort(manager, questId, base, k - 1)
         + [Submit(questId, base + k - 1), ApproveSubmission(manager, questId, base + k - 1)]
  }

  function CohortClaims(questId: nat, base: nat, k: nat): seq<Call> {
    if k == 0 then []
    else CohortClaims(questId, base, k - 1) + [ClaimReward(questId, base + k - 1, true)]
  }

  ghost predicate InCohort(e: Entry, questId: nat, base: nat, k: nat) {
    e.questId == questId && base <= e.user < base + k
  }

  ghost predicate FreshQuest(s: Ledger, questId: nat, reward: nat, n: nat) {
    && questId in s.quests
    && s.quests[questId].rewardPerApproval == reward
    && s.quests[questId].maxApprovals == n <= MAX_UINT256
    && s.quests[questId].approvalsCount == 0
    && (forall e: Entry :: e.questId == questId ==> s.StateOf(e) == NotSubmitted && At(s.claimable, e) == 0)
  }

  lemma RunOne(v: Variant, manager: Address, s: Ledger, c: Call)
    ensures Run(v, manager, s, [c]) == Apply(v, manager, s, c)
  {
    assert [c][..0] == [];
    assert Run(v, manager, s, []) == s;
  }

  lemma RunTwo(v: Variant, manager: Address, s: Ledger, c: Call, d: Call)
    ensures Run(v, manager, s, [c, d]) == Apply(v, manager, Apply(v, manager, s, c), d)
  {
    RunOne(v, manager, s, c);
    assert [c, d][..1] == [c];
  }

  /** What approving a cohort does to the ledger. */
  ghost predicate CohortApproved(v: Variant, s: Ledger, t: Ledger, questId: nat, base: nat, k: nat, reward: nat) {
    && t.rewardBucket == s.rewardBucket - (if v == DebitAtApproval then k * reward else 0)
    && t.totalReservedForQuests == s.totalReservedForQuests - k * reward
    && t.questCount == s.questCount
    && t.Cash() == s.Cash()
    && t.quests == s.quests[questId := s.QuestAt(questId).(approvalsCount := k)]
    && (forall e: Entry ::
          At(t.claimable, e) == if InCohort(e, questId, base, k) then reward else At(s.claimable, e))
    && (forall e: Entry :: t.StateOf(e) == if InCohort(e, questId, base, k) then Approved else s.StateOf(e))
  }

  lemma {:induction false} CohortRun(
    v: Variant, manager: Address, s: Ledger, questId: nat, base: nat, k: nat, reward: nat, n: nat)
    requires v != AggregateCounter
    requires FreshQuest(s, questId, reward, n) && k <= n && reward <= MAX_UINT256
    requires k * reward <= s.totalReservedForQuests && k * reward <= s.rewardBucket
    ensures CohortApproved(v, s, Run(v, manager, s, Cohort(manager, questId, base, k)), questId, base, k, reward)
  {
    if k == 0 {
      assert s.quests == s.quests[questId := s.QuestAt(questId).(approvalsCount := 0)];
    } else {
      assert (k - 1) * reward + reward == k * reward;
      CohortRun(v, manager, s, questId, base, k - 1, reward, n);
      var t := Run(v, manager, s, Cohort(manager, questId, base, k - 1));
      var user := base + k - 1;
      RunAppend(v, manager, s, Cohort(manager, questId, base, k - 1),
                [Submit(questId, user), ApproveSubmission(manager, questId, user)]);
      RunTwo(v, manager, t, Submit(questId, user), ApproveSubmission(manager, questId, user));
      OneMore(v, manager, s, t, questId, base, k, reward, n);
    }
  }

  lemma OneMore(
    v: Variant, manager: Address, s: Ledger, t: Ledger, questId: nat, base: nat, k: nat, reward: nat, n: nat)
    requires v != AggregateCounter
    requires FreshQuest(s, questId, reward, n) && 0 < k <= n && reward <= MAX_UINT256
    requires (k - 1) * reward + reward == k * reward
    requires k * reward <= s.totalReservedForQuests && k * reward <= s.rewardBucket
    requires CohortApproved(v, s, t, questId, base, k - 1, reward)
    ensures var e := Entry(questId, base + k - 1);
            var u := Apply(v, manager, t, Submit(questId, e.user));
            CohortApproved(v, s, Apply(v, manager, u, ApproveSubmission(manager, questId, e.user)),
                           questId, base, k, reward)
  {
    hide CohortApproved, FreshQuest, Apply, ApproveSpec, CanApprove;
    SubmitOne(v, manager, s, t, questId, base, k, reward, n);
    var e := Entry(questId, base + k - 1);
    var u := Apply(v, manager, t, Submit(questId, e.user));
    ApproveOne(v, manager, s, t, u, questId, base, k, reward, n);
    ApprovedMore(v, s, t, u, questId, base, k, reward, n);
  }

  /** The next user of the cohort submits. */
  lemma SubmitOne(
    v: Variant, manager: Address, s: Ledger, t: Ledger, questId: nat, base: nat, k: nat, reward: nat, n: nat)
    requires FreshQuest(s, questId, reward, n) && 0 < k <= n
    requires CohortApproved(v, s, t, questId, base, k - 1, reward)
    ensures var e := Entry(questId, base + k - 1);
            Apply(v, manager, t, Submit(questId, e.user)) == t.(userState := t.userState[e := Submitted])
  {
    assert t.StateOf(Entry(questId, base + k - 1)) == NotSubmitted;
  }

  /** The approval of a submitted user of the cohort goes through. */
  lemma ApproveOne(
    v: Variant, manager: Address, s: Ledger, t: Ledger, u: Ledger, questId: nat, base: nat, k: nat, reward: nat, n: nat)
    requires v != AggregateCounter
    requires FreshQuest(s, questId, reward, n) && 0 < k <= n && reward <= MAX_UINT256
    requires (k - 1) * reward + reward == k * reward
    requires k * reward <= s.totalReservedForQuests && k * reward <= s.rewardBucket
    requires CohortApproved(v, s, t, questId, base, k - 1, reward)
    requires u == t.(userState := t.userState[Entry(questId, base + k - 1) := Submitted])
    ensures var e := Entry(questId, base + k - 1);
            && CanApprove(v, u, e)
            && Apply(v, manager, u, ApproveSubmission(manager, questId, e.user)) == ApproveSpec(v, u, e).value
  {
    var e := Entry(questId, base + k - 1);
    hide ApproveSpec;
    assert u.QuestAt(questId) == s.QuestAt(questId).(approvalsCount := k - 1);
    assert At(t.claimable, e) == 0;
    assert ApproveSpec(v, u, e).Some? by { Approvable(v, u, e); }
  }

  lemma Approvable(v: Variant, s: Ledger, e: Entry)
    ensures ApproveSpec(v, s, e).Some? <==> CanApprove(v, s, e)
  {
    hide CanApprove;
  }

  /** The approval adds its user to the approved cohort. */
  lemma ApprovedMore(
    v: Variant, s: Ledger, t: Ledger, u: Ledger, questId: nat, base: nat, k: nat, reward: nat, n: nat)
    requires v != AggregateCounter && FreshQuest(s, questId, reward, n) && 0 < k
    requires (k - 1) * reward + reward == k * reward
    requires CohortApproved(v, s, t, questId, base, k - 1, reward)
    requires u == t.(userState := t.userState[Entry(questId, base + k - 1) := Submitted])
    requires CanApprove(v, u, Entry(questId, base + k - 1))
    ensures CohortApproved(v, s, ApproveSpec(v, u, Entry(questId, base + k - 1)).value, questId, base, k, reward)
  {
    hide CanApprove;
    var e := Entry(questId, base + k - 1);
    var w := ApproveSpec(v, u, e).value;
    assert At(t.claimable, e) == 0;
    assert w.quests == s.quests[questId := s.QuestAt(questId).(approvalsCount := k)];
    hide ApproveSpec, FreshQuest;
    forall f: Entry
      ensures At(w.claimable, f) == if InCohort(f, questId, base, k) then reward else At(s.claimable, f)
      ensures w.StateOf(f) == if InCohort(f, questId, base, k) then Approved else s.StateOf(f)
    {
      assert InCohort(f, questId, base, k) <==> InCohort(f, questId, base, k - 1) || f == e;
    }
  }

  /** What a cohort's claims do while the bucket lasts. */
  ghost predicate CohortPaid(s: Ledger, t: Ledger, questId: nat, base: nat, k: nat, reward: nat) {
    && t.rewardBucket == s.rewardBucket - k * reward
    && t.Cash() == s.Cash() - k * reward
    && (forall e: Entry :: At(t.claimable, e) == if InCohort(e, questId, base, k) then 0 else At(s.claimable, e))
  }

  lemma {:induction false} CohortClaimsRun(
    v: Variant, manager: Address, s: Ledger, questId: nat, base: nat, k: nat, reward: nat)
    requires v != AggregateCounter && reward > 0 && k * reward <= s.rewardBucket
    requires forall e: Entry :: InCohort(e, questId, base, k) ==> At(s.claimable, e) == reward
    ensures CohortPaid(s, Run(v, manager, s, CohortClaims(questId, base, k)), questId, base, k, reward)
  {
    if k > 0 {
      assert (k - 1) * reward + reward == k * reward;
      CohortClaimsRun(v, manager, s, questId, base, k - 1, reward);
      var calls := CohortClaims(questId, base, k - 1);
      var t := Run(v, manager, s, calls);
      var c := ClaimReward(questId, base + k - 1, true);
      RunAppend(v, manager, s, calls, [c]);
      RunOne(v, manager, t, c);
      assert InCohort(Entry(questId, base + k - 1), questId, base, k);
      assert CanClaim(v, t, Entry(questId, base + k - 1));
    }
  }

  // ---- The broken vault ----

  /** Deposit for one cohort, then fund and approve two. */
  function FundAndApprove(manager: Address, questId: nat, base: nat, reward: uint256, n: uint256): seq<Call> {
    [CreateQuest(manager, reward, n, 0)] + Cohort(manager, questId, base, n)
  }

  function DoublePromise(manager: Address, reward: uint256, n: uint256): seq<Call>
    requires n * reward <= MAX_UINT256
  {
    [Receive(n * reward)] + FundAndApprove(manager, 0, 0, reward, n) + FundAndApprove(manager, 1, n, reward, n)
    + CohortClaims(1, n, n)
  }

  /** A quest for n rewards is created over an unreserved bucket and its whole cohort approved. */
  lemma FundAndApproveRun(v: Variant, manager: Address, s: Ledger, base: nat, reward: uint256, n: uint256)
    requires v != AggregateCounter
    requires n * reward <= s.rewardBucket <= MAX_UINT256 && s.totalReservedForQuests == 0
    requires s.questCount < MAX_UINT256
    requires forall e: Entry :: e.questId == s.questCount ==> s.StateOf(e) == NotSubmitted && At(s.claimable, e) == 0
    ensures var t := Run(v, manager, s, FundAndApprove(manager, s.questCount, base, reward, n));
            && t.rewardBucket == s.rewardBucket - (if v == DebitAtApproval then n * reward else 0)
            && t.totalReservedForQuests == 0
            && t.questCount == s.questCount + 1
            && t.Cash() == s.Cash()
            && (forall e: Entry ::
                  At(t.claimable, e) == if InCohort(e, s.questCount, base, n) then reward else At(s.claimable, e))
            && (forall e: Entry :: e.questId != s.questCount ==> t.StateOf(e) == s.StateOf(e))
  {
    var c := CreateQuest(manager, reward, n, 0);
    assert reward * n == n * reward;
    assert CanCreate(v, s, reward, n);
    var created := Apply(v, manager, s, c);
    RunOne(v, manager, s, c);
    RunAppend(v, manager, s, [c], Cohort(manager, s.questCount, base, n));
    CohortRun(v, manager, created, s.questCount, base, n, reward, n);
  }

  /**
   * For every reward and every cohort size there is a run of the broken vault after which each user of the
   * first cohort is still owed the reward, is refused, and no cash is left to pay it.
   */
  lemma FirstCohortIsRefused(manager: Address, reward: uint256, n: uint256)
    requires reward > 0 && n >= 1 && n * reward <= MAX_UINT256
    ensures var s := Run(Broken, manager, EMPTY, DoublePromise(manager, reward, n));
            && s.Cash() == 0
            && (forall user: nat :: user < n ==>
                  && At(s.claimable, Entry(0, user)) == reward
                  && Step(Broken, manager, s, ClaimReward(0, user, true)) == None)
  {
    hide Run, DoublePromise, FundAndApprove, CohortClaims;
    var deposited := Run(Broken, manager, EMPTY, [Receive(n * reward)]);
    RunOne(Broken, manager, EMPTY, Receive(n * reward));
    assert n * reward > 0;
    assert deposited.rewardBucket == n * reward && deposited.questCount == 0;
    FundAndApproveRun(Broken, manager, deposited, 0, reward, n);
    var first := Run(Broken, manager, deposited, FundAndApprove(manager, 0, 0, reward, n));
    FundAndApproveRun(Broken, manager, first, n, reward, n);
    var second := Run(Broken, manager, first, FundAndApprove(manager, 1, n, reward, n));
    CohortClaimsRun(Broken, manager, second, 1, n, n, reward);
    var s := Run(Broken, manager, second, CohortClaims(1, n, n));
    DoublePromiseRun(manager, reward, n);
    forall user: nat | user < n
      ensures At(s.claimable, Entry(0, user)) == reward
    {
      assert InCohort(Entry(0, user), 0, 0, n);
      assert At(first.claimable, Entry(0, user)) == reward;
    }
  }

  lemma DoublePromiseRun(manager: Address, reward: uint256, n: uint256)
    requires n * reward <= MAX_UINT256
    ensures Run(Broken, manager, EMPTY, DoublePromise(manager, reward, n)) ==
            Run(Broken, manager,
                Run(Broken, manager,
                    Run(Broken, manager,
                        Run(Broken, manager, EMPTY, [Receive(n * reward)]),
                        FundAndApprove(manager, 0, 0, reward, n)),
                    FundAndApprove(manager, 1, n, reward, n)),
                CohortClaims(1, n, n))
  {
    var a := [Receive(n * reward)];
    var b := FundAndApprove(manager, 0, 0, reward, n);
    var c := FundAndApprove(manager, 1, n, reward, n);
    RunAppend(Broken, manager, EMPTY, a, b);
    RunAppend(Broken, manager, EMPTY, a + b, c);
    RunAppend(Broken, manager, EMPTY, a + b + c, CohortClaims(1, n, n));
  }

  // ---- Debit at approval ----

  /**
   * With exactly one budget deposited, approving the cohort empties the bucket: every approved user is
   * refused although the vault still holds the whole budget in cash.
   */
  lemma DebitAtApprovalRefusesAll(manager: Address, reward: uint256, n: uint256)
    requires reward > 0 && n >= 1 && n * reward <= MAX_UINT256
    ensures var s := Run(DebitAtApproval, manager, EMPTY,
                         [Receive(n * reward)] + FundAndApprove(manager, 0, 0, reward, n));
            && s.Cash() == n * reward && s.rewardBucket == 0
            && (forall user: nat :: user < n ==>
                  && At(s.claimable, Entry(0, user)) == reward
                  && Step(DebitAtApproval, manager, s, ClaimReward(0, user, true)) == None)
  {
    var calls := [Receive(n * reward)] + FundAndApprove(manager, 0, 0, reward, n);
    var deposited := Run(DebitAtApproval, manager, EMPTY, [Receive(n * reward)]);
    RunOne(DebitAtApproval, manager, EMPTY, Receive(n * reward));
    assert n * reward > 0;
    FundAndApproveRun(DebitAtApproval, manager, deposited, 0, reward, n);
    RunAppend(DebitAtApproval, manager, EMPTY, [Receive(n * reward)], FundAndApprove(manager, 0, 0, reward, n));
    var s := Run(DebitAtApproval, manager, EMPTY, calls);
    forall user: nat | user < n
      ensures At(s.claimable, Entry(0, user)) == reward
    {
      assert InCohort(Entry(0, user), 0, 0, n);
    }
  }
}
