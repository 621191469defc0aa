/** Who moves the money of a quest vault: which calls a run must contain, and exactly when a call goes through. */
module QuestAuthority {
  import opened Wrappers
  import opened Uint256
  import opened MapSums
  import opened QuestVault
  import opened QuestAccounting

  // ---- Nobody is owed anything without the manager ----

  /** At that place in the run the user submits, approves or claims. */
  predicate SubmitsAt(calls: seq<Call>, i: int, e: Entry) {
    0 <= i < |calls| && calls[i] == Submit(e.questId, e.user)
  }

  predicate ApprovesAt(calls: seq<Call>, i: int, manager: Address, e: Entry) {
    0 <= i < |calls| && calls[i] == ApproveSubmission(manager, e.questId, e.user)
  }

  predicate ClaimsAt(calls: seq<Call>, i: int, e: Entry) {
    0 <= i < |calls| && calls[i] == ClaimReward(e.questId, e.user, true)
  }

  ghost predicate WasSubmitted(calls: seq<Call>, e: Entry) {
    exists i :: SubmitsAt(calls, i, e)
  }

  ghost predicate WasApproved(calls: seq<Call>, manager: Address, e: Entry) {
    exists i, j :: i < j && SubmitsAt(calls, i, e) && ApprovesAt(calls, j, manager, e)
  }

  ghost predicate WasClaimed(calls: seq<Call>, manager: Address, e: Entry) {
    exists i, j, k :: i < j < k && SubmitsAt(calls, i, e) && ApprovesAt(calls, j, manager, e) && ClaimsAt(calls, k, e)
  }

  /** The user's state names the calls that led to it. */
  ghost predicate Explained(calls: seq<Call>, manager: Address, s: Ledger, e: Entry) {
    match s.StateOf(e)
    case NotSubmitted => true
    case Submitted => WasSubmitted(calls, e)
    case Approved => WasApproved(calls, manager, e)
    case Claimed => WasClaimed(calls, manager, e)
  }

  lemma LongerRun(calls: seq<Call>, c: Call, manager: Address, e: Entry)
    ensures WasSubmitted(calls, e) ==> WasSubmitted(calls + [c], e)
    ensures WasApproved(calls, manager, e) ==> WasApproved(calls + [c], manager, e)
    ensures WasClaimed(calls, manager, e) ==> WasClaimed(calls + [c], manager, e)
  {
    var more := calls + [c];
    assert forall i :: SubmitsAt(calls, i, e) ==> SubmitsAt(more, i, e);
    assert forall i :: ApprovesAt(calls, i, manager, e) ==> ApprovesAt(more, i, manager, e);
    assert forall i :: ClaimsAt(calls, i, e) ==> ClaimsAt(more, i, e);
  }

  lemma LastCall(calls: seq<Call>, c: Call, manager: Address, e: Entry)
    ensures c == Submit(e.questId, e.user) ==> WasSubmitted(calls + [c], e)
    ensures c == ApproveSubmission(manager, e.questId, e.user) && WasSubmitted(calls, e)
            ==> WasApproved(calls + [c], manager, e)
    ensures c == ClaimReward(e.questId, e.user, true) && WasApproved(calls, manager, e)
            ==> WasClaimed(calls + [c], manager, e)
  {
    var more, n := calls + [c], |calls|;
    assert forall i :: SubmitsAt(calls, i, e) ==> i < n && SubmitsAt(more, i, e);
    assert forall i :: ApprovesAt(calls, i, manager, e) ==> i < n && ApprovesAt(more, i, manager, e);
    if c == Submit(e.questId, e.user) {
      assert SubmitsAt(more, n, e);
    }
    if c == ApproveSubmission(manager, e.questId, e.user) {
      assert ApprovesAt(more, n, manager, e);
    }
    if c == ClaimReward(e.questId, e.user, true) {
      assert ClaimsAt(more, n, e);
    }
  }

  /** One call changes a user's state only forward, by that user's own entry, and by the manager for an approval. */
  lemma StateMoves(v: Variant, manager: Address, s: Ledger, c: Call, e: Entry)
    requires Books(s)
    ensures var t := Apply(v, manager, s, c);
            || t.StateOf(e) == s.StateOf(e)
            || (s.StateOf(e) == NotSubmitted && t.StateOf(e) == Submitted && c == Submit(e.questId, e.user))
            || (s.StateOf(e) == Submitted && t.StateOf(e) == Approved
                && c == ApproveSubmission(manager, e.questId, e.user))
            || (s.StateOf(e) == Approved && t.StateOf(e) == Claimed && c == ClaimReward(e.questId, e.user, true))
  {
    assert EntryConsistent(s, e);
  }

  lemma {:induction false} StatesAreExplained(v: Variant, manager: Address, calls: seq<Call>, e: Entry)
    ensures Explained(calls, manager, Run(v, manager, EMPTY, calls), e)
    decreases |calls|
  {
    hide Run, Apply, Books, CashLaw, Explained;
    if calls == [] {
      NothingExplained(v, manager, e);
    } else {
      var before, c := calls[..|calls| - 1], calls[|calls| - 1];
      StatesAreExplained(v, manager, before, e);
      RunKeepsLaws(v, manager, before);
      OneMoreExplained(v, manager, Run(v, manager, EMPTY, before), before, c, e);
      assert before + [c] == calls;
      OneMoreCall(v, manager, calls);
    }
  }

  lemma NothingExplained(v: Variant, manager: Address, e: Entry)
    ensures Explained([], manager, Run(v, manager, EMPTY, []), e)
  {
  }

  lemma OneMoreExplained(v: Variant, manager: Address, s: Ledger, before: seq<Call>, c: Call, e: Entry)
    requires Books(s) && Explained(before, manager, s, e)
    ensures Explained(before + [c], manager, Apply(v, manager, s, c), e)
  {
    hide Apply, Books, WasSubmitted, WasApproved, WasClaimed;
    StateMoves(v, manager, s, c, e);
    LongerRun(before, c, manager, e);
    LastCall(before, c, manager, e);
  }

  lemma OneMoreCall(v: Variant, manager: Address, calls: seq<Call>)
    requires calls != []
    ensures Run(v, manager, EMPTY, calls)
            == Apply(v, manager, Run(v, manager, EMPTY, calls[..|calls| - 1]), calls[|calls| - 1])
  {
  }

  /**
   * On every run of every variant, whoever is owed or was paid anything submitted, and was then approved by the
   * manager, for exactly the quest's reward; whoever was paid claimed after that.
   */
  lemma OnlyTheManagerPays(v: Variant, manager: Address, calls: seq<Call>, e: Entry)
    ensures var s := Run(v, manager, EMPTY, calls);
            && (At(s.claimable, e) > 0 || At(s.history.paidTo, e) > 0 || At(s.history.approvedFor, e) > 0
                ==> exists i, j :: i < j && SubmitsAt(calls, i, e) && ApprovesAt(calls, j, manager, e))
            && (At(s.history.paidTo, e) > 0
                ==> exists i, j, k :: i < j < k && SubmitsAt(calls, i, e) && ApprovesAt(calls, j, manager, e)
                                      && ClaimsAt(calls, k, e))
  {
    hide Run;
    var s := Run(v, manager, EMPTY, calls);
    RunKeepsLaws(v, manager, calls);
    assert EntryConsistent(s, e);
    StatesAreExplained(v, manager, calls, e);
    if WasClaimed(calls, manager, e) {
      var i, j, k :| i < j < k && SubmitsAt(calls, i, e) && ApprovesAt(calls, j, manager, e) && ClaimsAt(calls, k, e);
      assert WasApproved(calls, manager, e);
    }
  }

  // ---- Where quests and money come from ----

  predicate CreatesAt(calls: seq<Call>, i: int, manager: Address, q: Quest) {
    && 0 <= i < |calls| && calls[i].CreateQuest? && calls[i].sender == manager
    && q.rewardPerApproval == calls[i].rewardPerApproval && q.maxApprovals == calls[i].maxApprovals
    && q.deadline == calls[i].deadline
  }

  /** Every quest is open and has the terms of a call of the manager. */
  lemma {:induction false} QuestsAreTheManagers(v: Variant, manager: Address, calls: seq<Call>, id: nat)
    ensures var s := Run(v, manager, EMPTY, calls);
            id < s.questCount ==> s.QuestAt(id).state == Open && exists i :: CreatesAt(calls, i, manager, s.QuestAt(id))
    decreases |calls|
  {
    hide Run, Apply, CreatesAt, Books, CashLaw, Ledger.QuestAt;
    if calls == [] {
      NoQuests(v, manager);
    } else {
      var before, c := calls[..|calls| - 1], calls[|calls| - 1];
      var s := Run(v, manager, EMPTY, before);
      QuestsAreTheManagers(v, manager, before, id);
      RunKeepsLaws(v, manager, before);
      OneMoreCall(v, manager, calls);
      QuestTermsMove(v, manager, s, c, id);
      assert before + [c] == calls;
      TermsStay(before, c, manager, s.QuestAt(id), Apply(v, manager, s, c).QuestAt(id));
    }
  }

  lemma NoQuests(v: Variant, manager: Address)
    ensures Run(v, manager, EMPTY, []).questCount == 0
  {
  }

  /** The call that created a quest has its terms, whatever was approved since. */
  lemma TermsStay(before: seq<Call>, c: Call, manager: Address, q: Quest, r: Quest)
    ensures r == q.(approvalsCount := r.approvalsCount) && (exists i :: CreatesAt(before, i, manager, q))
            ==> exists i :: CreatesAt(before + [c], i, manager, r)
    ensures c.CreateQuest? && c.sender == manager
            && r == Quest(Open, c.rewardPerApproval, c.maxApprovals, 0, c.deadline)
            ==> exists i :: CreatesAt(before + [c], i, manager, r)
  {
    if r == q.(approvalsCount := r.approvalsCount) && exists i :: CreatesAt(before, i, manager, q) {
      var i :| CreatesAt(before, i, manager, q);
      assert CreatesAt(before + [c], i, manager, r);
    }
    if c.CreateQuest? && c.sender == manager && r == Quest(Open, c.rewardPerApproval, c.maxApprovals, 0, c.deadline) {
      assert CreatesAt(before + [c], |before|, manager, r);
    }
  }

  /** A call changes at most a quest's count of approvals, and only the manager adds a quest. */
  lemma QuestTermsMove(v: Variant, manager: Address, s: Ledger, c: Call, id: nat)
    requires Books(s)
    ensures var t := Apply(v, manager, s, c);
            && s.questCount <= t.questCount <= s.questCount + 1
            && (id < s.questCount ==>
                  t.QuestAt(id) == s.QuestAt(id).(approvalsCount := t.QuestAt(id).approvalsCount))
            && (s.questCount <= id < t.questCount ==>
                  && c.CreateQuest? && c.sender == manager
                  && t.QuestAt(id) == Quest(Open, c.rewardPerApproval, c.maxApprovals, 0, c.deadline))
  {
  }

  /** What the deposits of a run bring in: each that does not overflow the bucket. */
  function Deposited(v: Variant, manager: Address, calls: seq<Call>): nat {
    if calls == [] then 0
    else
      var before, c := calls[..|calls| - 1], calls[|calls| - 1];
      Deposited(v, manager, before)
      + (if c.Receive? && Run(v, manager, EMPTY, before).rewardBucket + c.value <= MAX_UINT256 then c.value else 0)
  }

  lemma {:induction false} DepositsAreReceived(v: Variant, manager: Address, calls: seq<Call>)
    ensures Run(v, manager, EMPTY, calls).history.deposits == Deposited(v, manager, calls)
  {
    if calls != [] {
      DepositsAreReceived(v, manager, calls[..|calls| - 1]);
    }
  }

  // ---- Exactly when a call goes through ----

  lemma {:induction false} OutstandingAtLeast(quests: map<nat, Quest>, n: nat, id: nat)
    requires forall i: nat :: i in quests ==> quests[i].approvalsCount <= quests[i].maxApprovals
    ensures OutstandingUpTo(quests, n) >= 0
    ensures id < n && id in quests ==> OutstandingUpTo(quests, n) >= Outstanding(quests[id])
  {
    if n > 0 {
      OutstandingAtLeast(quests, n - 1, id);
      if n - 1 in quests {
        OutstandingIsNat(quests[n - 1]);
      }
    }
  }

  lemma OutstandingIsNat(q: Quest)
    requires q.approvalsCount <= q.maxApprovals
    ensures Outstanding(q) >= 0
    ensures q.approvalsCount < q.maxApprovals ==> Outstanding(q) >= q.rewardPerApproval
  {
    var left := q.maxApprovals - q.approvalsCount;
    if left > 0 {
      assert q.rewardPerApproval * left == q.rewardPerApproval + q.rewardPerApproval * (left - 1);
    }
  }

  /** A quest with approvals left is one the manager created, and its next reward is still reserved. */
  lemma RewardIsReserved(v: Variant, manager: Address, s: Ledger, id: nat)
    requires Reachable(v, manager, s)
    ensures var q := s.QuestAt(id);
            q.approvalsCount < q.maxApprovals ==>
              && q.rewardPerApproval <= MAX_UINT256 && q.maxApprovals <= MAX_UINT256
              && q.rewardPerApproval <= s.totalReservedForQuests
  {
    hide Run;
    var calls :| s == Run(v, manager, EMPTY, calls);
    RunKeepsLaws(v, manager, calls);
    if id < s.questCount {
      QuestsAreTheManagers(v, manager, calls, id);
      var i :| CreatesAt(calls, i, manager, s.QuestAt(id));
      OutstandingAtLeast(s.quests, s.questCount, id);
      OutstandingIsNat(s.quests[id]);
    }
  }

  /**
   * An approval goes through exactly for the manager, a submitted user and a quest with approvals left, and in the
   * debiting variant with the reward in the bucket: no other arithmetic ever stands in its way.
   */
  lemma ApproveIff(v: Variant, manager: Address, s: Ledger, sender: Address, e: Entry)
    requires Reachable(v, manager, s)
    ensures var q := s.QuestAt(e.questId);
            Step(v, manager, s, ApproveSubmission(sender, e.questId, e.user)).Some?
            <==> && sender == manager && s.StateOf(e) == Submitted && q.approvalsCount < q.maxApprovals
                 && (v == DebitAtApproval ==> q.rewardPerApproval <= s.rewardBucket)
  {
    hide Run;
    ReachableKeepsLaws(v, manager, s);
    assert EntryConsistent(s, e);
    RewardIsReserved(v, manager, s, e.questId);
  }

  /** A quest is created exactly by the manager and out of money neither reserved nor, with the counter, owed. */
  lemma CreateIff(
    v: Variant, manager: Address, s: Ledger, sender: Address, reward: uint256, maxApprovals: uint256,
    deadline: uint256)
    requires Reachable(v, manager, s)
    ensures Step(v, manager, s, CreateQuest(sender, reward, maxApprovals, deadline)).Some?
            <==> && sender == manager && s.questCount < MAX_UINT256
                 && s.totalReservedForQuests + (if v == AggregateCounter then s.Owed() else 0) + reward * maxApprovals
                    <= s.rewardBucket
  {
    hide Run;
    ReachableKeepsLaws(v, manager, s);
    OutstandingAtLeast(s.quests, s.questCount, 0);
  }

  /** A claim goes through exactly when there is something to claim, the bucket holds it and the transfer works. */
  lemma ClaimIff(v: Variant, manager: Address, s: Ledger, e: Entry, transferSucceeds: bool)
    requires Reachable(v, manager, s)
    ensures Step(v, manager, s, ClaimReward(e.questId, e.user, transferSucceeds)).Some?
            <==> transferSucceeds && 0 < At(s.claimable, e) <= s.rewardBucket
  {
    hide Run;
    ReachableKeepsLaws(v, manager, s);
    SumAtLeast(s.claimable, e);
  }
}
