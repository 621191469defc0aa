/** What every run of every quest vault keeps, and the cash law of each variant. */
module QuestAccounting {
  import opened Wrappers
  import opened Uint256
  import opened MapSums
  import opened QuestVault

  /** Budget a quest can still hand out. */
  ghost function Outstanding(q: Quest): int {
    q.rewardPerApproval * (q.maxApprovals - q.approvalsCount)
  }

  ghost function OutstandingUpTo(quests: map<nat, Quest>, n: nat): int {
    if n == 0 then 0
    else OutstandingUpTo(quests, n - 1) + (if n - 1 in quests then Outstanding(quests[n - 1]) else 0)
  }

  lemma {:induction false} OutstandingUpdate(quests: map<nat, Quest>, n: nat, id: nat, q: Quest)
    ensures id >= n ==> OutstandingUpTo(quests[id := q], n) == OutstandingUpTo(quests, n)
    ensures id < n && id in quests ==>
              OutstandingUpTo(quests[id := q], n)
              == OutstandingUpTo(quests, n) - Outstanding(quests[id]) + Outstanding(q)
  {
    if n > 0 {
      OutstandingUpdate(quests, n - 1, id, q);
    }
  }

  /** Approving one submission releases exactly one reward from the quest's outstanding budget. */
  lemma OneApproval(q: Quest)
    ensures Outstanding(q.(approvalsCount := q.approvalsCount + 1)) == Outstanding(q) - q.rewardPerApproval
  {
    var left := q.maxApprovals - q.approvalsCount;
    assert q.rewardPerApproval * (left - 1) == q.rewardPerApproval * left - q.rewardPerApproval;
  }

  /** One user's slots of one quest agree with the user's state there. */
  ghost predicate EntryConsistent(s: Ledger, e: Entry) {
    var reward := s.QuestAt(e.questId).rewardPerApproval;
    var st := s.StateOf(e);
    && (st == Approved || st == Claimed ==> e.questId < s.questCount)
    && At(s.claimable, e) == (if st == Approved then reward else 0)
    && At(s.history.approvedFor, e) == (if st == Approved || st == Claimed then reward else 0)
    && At(s.history.paidTo, e) == (if st == Claimed then reward else 0)
  }

  ghost predicate QuestsConsistent(s: Ledger) {
    && (forall i: nat :: i in s.quests <==> i < s.questCount)
    && (forall i: nat :: i in s.quests ==> s.quests[i].approvalsCount <= s.quests[i].maxApprovals)
  }

  /** The storage invariant shared by all three variants. */
  ghost predicate Books(s: Ledger) {
    && QuestsConsistent(s)
    && (forall e: Entry :: EntryConsistent(s, e))
    && s.totalReservedForQuests == OutstandingUpTo(s.quests, s.questCount)
    && s.history.payouts == Sum(s.history.paidTo)
    && s.rewardBucket <= MAX_UINT256
  }

  lemma CreateKeepsBooks(v: Variant, s: Ledger, reward: nat, maxApprovals: nat, deadline: nat)
    requires Books(s) && CanCreate(v, s, reward, maxApprovals)
    ensures Books(CreateQuestSpec(v, s, reward, maxApprovals, deadline).value)
  {
    var t := CreateQuestSpec(v, s, reward, maxApprovals, deadline).value;
    var q := Quest(Open, reward, maxApprovals, 0, deadline);
    OutstandingUpdate(s.quests, s.questCount, s.questCount, q);
    forall e: Entry ensures EntryConsistent(t, e) {
      assert EntryConsistent(s, e);
    }
  }

  lemma SubmitKeepsBooks(s: Ledger, e: Entry)
    requires Books(s) && s.StateOf(e) == NotSubmitted
    ensures Books(SubmitSpec(s, e).value)
  {
    var t := SubmitSpec(s, e).value;
    forall f: Entry ensures EntryConsistent(t, f) {
      assert EntryConsistent(s, f);
    }
  }

  lemma ApproveKeepsBooks(v: Variant, s: Ledger, e: Entry)
    requires Books(s) && CanApprove(v, s, e)
    ensures Books(ApproveSpec(v, s, e).value)
    ensures ApproveSpec(v, s, e).value.Owed() == s.Owed() + s.QuestAt(e.questId).rewardPerApproval
  {
    var t := ApproveSpec(v, s, e).value;
    var q := s.QuestAt(e.questId);
    assert EntryConsistent(s, e);
    OneApproval(q);
    OutstandingUpdate(s.quests, s.questCount, e.questId, q.(approvalsCount := q.approvalsCount + 1));
    SumUpdate(s.claimable, e, q.rewardPerApproval);
    forall f: Entry ensures EntryConsistent(t, f) {
      ApprovedEntry(v, s, e, f);
    }
  }

  lemma ApprovedEntry(v: Variant, s: Ledger, e: Entry, f: Entry)
    requires Books(s) && CanApprove(v, s, e)
    ensures EntryConsistent(ApproveSpec(v, s, e).value, f)
  {
    assert EntryConsistent(s, e) && EntryConsistent(s, f);
  }

  lemma ClaimKeepsBooks(v: Variant, s: Ledger, e: Entry)
    requires Books(s) && CanClaim(v, s, e)
    ensures s.StateOf(e) == Approved && At(s.claimable, e) == s.QuestAt(e.questId).rewardPerApproval
    ensures Books(ClaimSpec(v, s, e, true).value)
    ensures ClaimSpec(v, s, e, true).value.Owed() == s.Owed() - At(s.claimable, e)
  {
    var t := ClaimSpec(v, s, e, true).value;
    var amount := At(s.claimable, e);
    assert EntryConsistent(s, e);
    SumUpdate(s.claimable, e, 0);
    SumUpdate(s.history.paidTo, e, amount);
    forall f: Entry ensures EntryConsistent(t, f) {
      assert EntryConsistent(s, f);
    }
  }

  /** How each variant's bucket relates to real cash. */
  ghost predicate CashLaw(v: Variant, s: Ledger) {
    match v
    case Broken => s.rewardBucket == s.Cash()
    case DebitAtApproval => s.Cash() == s.rewardBucket + s.Owed() + s.history.payouts
    case AggregateCounter =>
      && s.rewardBucket == s.Cash()
      && s.totalOwedToUsers == s.Owed()
      && s.totalReservedForQuests + s.totalOwedToUsers <= s.rewardBucket
  }

  lemma StepKeepsLaws(v: Variant, manager: Address, s: Ledger, c: Call)
    requires Books(s) && CashLaw(v, s)
    ensures Books(Apply(v, manager, s, c)) && CashLaw(v, Apply(v, manager, s, c))
  {
    if Step(v, manager, s, c).Some? {
      match c
      case Receive(value) =>
        ReceiveKeepsBooks(s, value);
      case CreateQuest(sender, reward, maxApprovals, deadline) =>
        CreateKeepsBooks(v, s, reward, maxApprovals, deadline);
      case Submit(questId, user) =>
        SubmitKeepsBooks(s, Entry(questId, user));
      case ApproveSubmission(sender, questId, user) =>
        ApproveKeepsBooks(v, s, Entry(questId, user));
      case ClaimReward(questId, user, transferSucceeds) =>
        ClaimKeepsBooks(v, s, Entry(questId, user));
    }
  }

  lemma ReceiveKeepsBooks(s: Ledger, value: nat)
    requires Books(s) && ReceiveSpec(s, value).Some?
    ensures Books(ReceiveSpec(s, value).value)
  {
    var t := ReceiveSpec(s, value).value;
    forall e: Entry ensures EntryConsistent(t, e) {
      assert EntryConsistent(s, e);
    }
  }

  lemma EmptyKeepsLaws(v: Variant)
    ensures Books(EMPTY) && CashLaw(v, EMPTY)
  {
    SumZero(EMPTY.claimable);
    SumZero(EMPTY.history.paidTo);
    assert OutstandingUpTo(EMPTY.quests, 0) == 0;
  }

  lemma {:induction false} RunKeepsLaws(v: Variant, manager: Address, calls: seq<Call>)
    ensures Books(Run(v, manager, EMPTY, calls)) && CashLaw(v, Run(v, manager, EMPTY, calls))
    decreases |calls|
  {
    if calls == [] {
      EmptyKeepsLaws(v);
    } else {
      var last := |calls| - 1;
      RunKeepsLaws(v, manager, calls[..last]);
      StepKeepsLaws(v, manager, Run(v, manager, EMPTY, calls[..last]), calls[last]);
    }
  }

  lemma ReachableKeepsLaws(v: Variant, manager: Address, s: Ledger)
    requires Reachable(v, manager, s)
    ensures Books(s) && CashLaw(v, s)
  {
    var calls :| s == Run(v, manager, EMPTY, calls);
    RunKeepsLaws(v, manager, calls);
  }
}
