/** Who gets paid: the two remedies against the broken vault, over all runs. */
module QuestSolvency {
  import opened Wrappers
  import opened Uint256
  import opened MapSums
  import opened QuestVault
  import opened QuestAccounting

  // ---- No variant ever overpays ----

  /** Per entry, payment happens at most once and never exceeds what was approved. */
  lemma NeverOverpaid(v: Variant, manager: Address, s: Ledger, e: Entry)
    requires Reachable(v, manager, s)
    ensures At(s.history.paidTo, e) <= At(s.history.approvedFor, e)
    ensures At(s.history.paidTo, e) + At(s.claimable, e) == At(s.history.approvedFor, e)
  {
    ReachableKeepsLaws(v, manager, s);
    assert EntryConsistent(s, e);
  }

  // ---- An approval is never lost ----

  /** A quest's reward is fixed, and a user's state only moves forward. */
  ghost predicate Later(s: Ledger, t: Ledger) {
    && s.questCount <= t.questCount
    && (forall i: nat :: i < s.questCount ==> t.QuestAt(i).rewardPerApproval == s.QuestAt(i).rewardPerApproval)
    && (forall e: Entry :: s.StateOf(e) == Approved ==> t.StateOf(e) == Approved || t.StateOf(e) == Claimed)
    && (forall e: Entry :: s.StateOf(e) == Claimed ==> t.StateOf(e) == Claimed)
  }

  lemma StepIsLater(v: Variant, manager: Address, s: Ledger, c: Call)
    requires Books(s)
    ensures Later(s, Apply(v, manager, s, c))
  {
    if c.ClaimReward? && CanClaim(v, s, Entry(c.questId, c.user)) {
      ClaimKeepsBooks(v, s, Entry(c.questId, c.user));
    }
  }

  lemma {:induction false} RunIsLater(v: Variant, manager: Address, s: Ledger, calls: seq<Call>)
    requires Reachable(v, manager, s)
    ensures Later(s, Run(v, manager, s, calls))
    decreases |calls|
  {
    if calls != [] {
      var last := |calls| - 1;
      var t := Run(v, manager, s, calls[..last]);
      RunIsLater(v, manager, s, calls[..last]);
      ReachableFrom(v, manager, s, calls[..last]);
      ReachableKeepsLaws(v, manager, t);
      StepIsLater(v, manager, t, calls[last]);
    }
  }

  /**
   * The aggregate-counter vault: a claim goes through exactly when the caller is approved, unpaid, owed a
   * non-zero reward and able to receive it, and then pays exactly that reward.
   */
  lemma AggregateClaimIff(manager: Address, s: Ledger, e: Entry, transferSucceeds: bool)
    requires Books(s) && CashLaw(AggregateCounter, s)
    ensures var reward := s.QuestAt(e.questId).rewardPerApproval;
            var after := Step(AggregateCounter, manager, s, ClaimReward(e.questId, e.user, transferSucceeds));
            && (after.Some? <==> transferSucceeds && s.StateOf(e) == Approved && reward > 0)
            && (after.Some? ==>
                  && after.value.Cash() == s.Cash() - reward
                  && At(after.value.history.paidTo, e) == reward
                  && after.value.StateOf(e) == Claimed)
  {
    assert EntryConsistent(s, e);
    SumAtLeast(s.claimable, e);
    assert CanClaim(AggregateCounter, s, e) <==> At(s.claimable, e) > 0;
  }

  /**
   * Whatever anyone does after an approval, the approved user either has been paid exactly the approved
   * reward or can still be paid it by claiming now.
   */
  lemma ApprovedIsNeverLost(manager: Address, s: Ledger, e: Entry, calls: seq<Call>)
    requires Reachable(AggregateCounter, manager, s)
    requires s.StateOf(e) == Approved && s.QuestAt(e.questId).rewardPerApproval > 0
    ensures var reward := s.QuestAt(e.questId).rewardPerApproval;
            var t := Run(AggregateCounter, manager, s, calls);
            || (t.StateOf(e) == Claimed && At(t.history.paidTo, e) == reward)
            || (var after := Step(AggregateCounter, manager, t, ClaimReward(e.questId, e.user, true));
                after.Some? && At(after.value.history.paidTo, e) == reward && after.value.Cash() == t.Cash() - reward)
  {
    var t := Run(AggregateCounter, manager, s, calls);
    ReachableKeepsLaws(AggregateCounter, manager, s);
    assert EntryConsistent(s, e);
    RunIsLater(AggregateCounter, manager, s, calls);
    ReachableFrom(AggregateCounter, manager, s, calls);
    ReachableKeepsLaws(AggregateCounter, manager, t);
    assert EntryConsistent(t, e);
    AggregateClaimIff(manager, t, e, true);
  }

  // ---- Everyone claims ----

  function Claims(order: seq<Entry>): (calls: seq<Call>) {
    seq(|order|, i requires 0 <= i < |order| => ClaimReward(order[i].questId, order[i].user, true))
  }

  /** Every user with something to claim, once each. */
  ghost predicate AllClaimants(s: Ledger, order: seq<Entry>) {
    && (forall i, j :: 0 <= i < j < |order| ==> order[i] != order[j])
    && (forall e: Entry :: e in order <==> At(s.claimable, e) > 0)
  }

  /** A run of claims moves the same amount out of the bucket and out of the debt. */
  lemma {:induction false} ClaimsKeepGap(v: Variant, manager: Address, s: Ledger, order: seq<Entry>)
    requires Books(s) && CashLaw(v, s)
    ensures var t := Run(v, manager, s, Claims(order));
            && Books(t) && CashLaw(v, t)
            && t.rewardBucket - t.Owed() == s.rewardBucket - s.Owed()
    decreases |order|
  {
    if order != [] {
      var last := |order| - 1;
      ClaimsKeepGap(v, manager, s, order[..last]);
      assert Claims(order)[..last] == Claims(order[..last]);
      var t := Run(v, manager, s, Claims(order[..last]));
      var c := Claims(order)[last];
      StepKeepsLaws(v, manager, t, c);
      if CanClaim(v, t, order[last]) {
        ClaimKeepsBooks(v, t, order[last]);
      }
    }
  }

  lemma {:induction false} ClaimsPay(v: Variant, manager: Address, s: Ledger, order: seq<Entry>)
    requires Books(s) && CashLaw(v, s) && s.Owed() <= s.rewardBucket
    requires forall i, j :: 0 <= i < j < |order| ==> order[i] != order[j]
    requires forall e :: e in order ==> At(s.claimable, e) > 0
    ensures var t := Run(v, manager, s, Claims(order));
            forall e: Entry :: At(t.claimable, e) == if e in order then 0 else At(s.claimable, e)
    decreases |order|
  {
    if order != [] {
      var last := |order| - 1;
      var e := order[last];
      ClaimsPay(v, manager, s, order[..last]);
      ClaimsKeepGap(v, manager, s, order[..last]);
      assert Claims(order)[..last] == Claims(order[..last]);
      var t := Run(v, manager, s, Claims(order[..last]));
      assert e !in order[..last];
      SumAtLeast(t.claimable, e);
      assert CanClaim(v, t, e);
      assert forall f :: f in order <==> f in order[..last] || f == e;
    }
  }

  lemma NothingLeft(s: Ledger, t: Ledger, order: seq<Entry>)
    requires AllClaimants(s, order)
    requires forall e: Entry :: At(t.claimable, e) == if e in order then 0 else At(s.claimable, e)
    ensures t.Owed() == 0
  {
    forall e | e in t.claimable ensures t.claimable[e] == 0 {
      assert At(t.claimable, e) == 0;
    }
    SumZero(t.claimable);
  }

  /**
   * In every variant and in whatever order they come, all claimants are paid if and only if the bucket
   * covers the debt.
   */
  lemma AllPaidIff(v: Variant, manager: Address, s: Ledger, order: seq<Entry>)
    requires Reachable(v, manager, s) && AllClaimants(s, order)
    ensures Run(v, manager, s, Claims(order)).Owed() == 0 <==> s.Owed() <= s.rewardBucket
  {
    var t := Run(v, manager, s, Claims(order));
    ReachableKeepsLaws(v, manager, s);
    ClaimsKeepGap(v, manager, s, order);
    if s.Owed() <= s.rewardBucket {
      ClaimsPay(v, manager, s, order);
      NothingLeft(s, t, order);
    }
  }

  /** The aggregate-counter vault pays everyone, in any order, out of money it really has. */
  lemma AggregatePaysEveryone(manager: Address, s: Ledger, order: seq<Entry>)
    requires Reachable(AggregateCounter, manager, s) && AllClaimants(s, order)
    ensures var t := Run(AggregateCounter, manager, s, Claims(order));
            && t.Owed() == 0 && t.totalOwedToUsers == 0
            && t.Cash() == s.Cash() - s.Owed()
            && t.Cash() >= t.totalReservedForQuests
  {
    ReachableKeepsLaws(AggregateCounter, manager, s);
    ClaimsKeepGap(AggregateCounter, manager, s, order);
    AllPaidIff(AggregateCounter, manager, s, order);
  }

  // ---- What the broken vault is missing ----

  /** Reservations and debts together are covered. */
  ghost predicate Backed(s: Ledger) {
    s.totalReservedForQuests + s.Owed() <= s.rewardBucket
  }

  /** The manager's new quest is funded with money already owed to approved users. */
  ghost predicate Overcommits(manager: Address, s: Ledger, c: Call) {
    && c.CreateQuest? && c.sender == manager
    && CanCreate(Broken, s, c.rewardPerApproval, c.maxApprovals)
    && c.rewardPerApproval * c.maxApprovals > s.rewardBucket - s.totalReservedForQuests - s.Owed()
  }

  /** The same storage with remedy (b)'s counter filled in. */
  ghost function WithCounter(s: Ledger): Ledger {
    s.(totalOwedToUsers := s.Owed())
  }

  lemma BrokenStepTracksDebt(manager: Address, s: Ledger, c: Call)
    requires Books(s) && CashLaw(Broken, s) && Backed(s)
    ensures Overcommits(manager, s, c) <==> !Backed(Apply(Broken, manager, s, c))
    ensures Overcommits(manager, s, c) <==>
              WithCounter(Apply(Broken, manager, s, c)) != Apply(AggregateCounter, manager, WithCounter(s), c)
  {
    match c
    case Receive(value) =>
    case CreateQuest(sender, reward, maxApprovals, deadline) =>
    case Submit(questId, user) =>
    case ApproveSubmission(sender, questId, user) =>
      ApproveTracksDebt(s, Entry(questId, user));
    case ClaimReward(questId, user, transferSucceeds) =>
      ClaimTracksDebt(s, Entry(questId, user));
  }

  lemma ApproveTracksDebt(s: Ledger, e: Entry)
    requires Books(s) && Backed(s)
    ensures CanApprove(Broken, s, e) <==> CanApprove(AggregateCounter, WithCounter(s), e)
    ensures CanApprove(Broken, s, e) ==>
              && Backed(ApproveSpec(Broken, s, e).value)
              && WithCounter(ApproveSpec(Broken, s, e).value) == ApproveSpec(AggregateCounter, WithCounter(s), e).value
  {
    if CanApprove(Broken, s, e) {
      ApproveKeepsBooks(Broken, s, e);
    }
  }

  lemma ClaimTracksDebt(s: Ledger, e: Entry)
    requires Books(s) && Backed(s)
    ensures CanClaim(Broken, s, e) <==> CanClaim(AggregateCounter, WithCounter(s), e)
    ensures CanClaim(Broken, s, e) ==>
              && Backed(ClaimSpec(Broken, s, e, true).value)
              && WithCounter(ClaimSpec(Broken, s, e, true).value)
                 == ClaimSpec(AggregateCounter, WithCounter(s), e, true).value
  {
    SumAtLeast(s.claimable, e);
    if CanClaim(Broken, s, e) {
      ClaimKeepsBooks(Broken, s, e);
    }
  }

  /** No prefix of the run overcommits. */
  ghost predicate NeverOvercommits(manager: Address, calls: seq<Call>) {
    forall i :: 0 <= i < |calls| ==> !Overcommits(manager, Run(Broken, manager, EMPTY, calls[..i]), calls[i])
  }

  ghost predicate AlwaysBacked(manager: Address, calls: seq<Call>) {
    forall i :: 0 <= i <= |calls| ==> Backed(Run(Broken, manager, EMPTY, calls[..i]))
  }

  /**
   * Over whole runs: the broken vault behaves as the repaired one, debts covered throughout, exactly on the
   * runs that never fund a quest with money already owed.
   */
  lemma {:induction false} BrokenSoundIff(manager: Address, calls: seq<Call>)
    ensures NeverOvercommits(manager, calls) <==> AlwaysBacked(manager, calls)
    ensures NeverOvercommits(manager, calls) ==>
            WithCounter(Run(Broken, manager, EMPTY, calls)) == Run(AggregateCounter, manager, EMPTY, calls)
    decreases |calls|
  {
    if calls == [] {
      EmptyRunIsSound(manager);
    } else {
      var before := calls[..|calls| - 1];
      BrokenSoundIff(manager, before);
      NeverOvercommitsSplit(manager, calls);
      AlwaysBackedSplit(manager, calls);
      if AlwaysBacked(manager, before) {
        LastIsBacked(manager, before);
        RunKeepsLaws(Broken, manager, before);
        BrokenStepTracksDebt(manager, Run(Broken, manager, EMPTY, before), calls[|before|]);
      }
    }
  }

  lemma EmptyRunIsSound(manager: Address)
    ensures AlwaysBacked(manager, []) && WithCounter(EMPTY) == EMPTY
  {
    SumZero(EMPTY.claimable);
  }

  lemma LastIsBacked(manager: Address, calls: seq<Call>)
    requires AlwaysBacked(manager, calls)
    ensures Backed(Run(Broken, manager, EMPTY, calls))
  {
    assert calls[..|calls|] == calls;
  }

  lemma NeverOvercommitsSplit(manager: Address, calls: seq<Call>)
    requires calls != []
    ensures var last := |calls| - 1;
            NeverOvercommits(manager, calls) <==>
            && NeverOvercommits(manager, calls[..last])
            && !Overcommits(manager, Run(Broken, manager, EMPTY, calls[..last]), calls[last])
  {
    hide Run, Overcommits;
    var before := calls[..|calls| - 1];
    assert forall i :: 0 <= i < |before| ==> before[..i] == calls[..i] && before[i] == calls[i];
  }

  lemma AlwaysBackedSplit(manager: Address, calls: seq<Call>)
    requires calls != []
    ensures AlwaysBacked(manager, calls) <==>
            AlwaysBacked(manager, calls[..|calls| - 1]) && Backed(Run(Broken, manager, EMPTY, calls))
  {
    hide Run, Backed;
    var before := calls[..|calls| - 1];
    if AlwaysBacked(manager, calls) {
      forall i | 0 <= i <= |before| ensures Backed(Run(Broken, manager, EMPTY, before[..i])) {
        assert before[..i] == calls[..i];
      }
      assert calls[..|calls|] == calls;
    }
    if AlwaysBacked(manager, before) && Backed(Run(Broken, manager, EMPTY, calls)) {
      forall i | 0 <= i <= |calls| ensures Backed(Run(Broken, manager, EMPTY, calls[..i])) {
        assert i <= |before| ==> before[..i] == calls[..i];
        assert i == |calls| ==> calls[..i] == calls;
      }
    }
  }

  // ---- Debit at approval, as written ----

  /** Real cash exceeds bucket plus debts by exactly what has already been paid: each payment is debited twice. */
  lemma DebitStrandsPayments(manager: Address, s: Ledger)
    requires Reachable(DebitAtApproval, manager, s)
    ensures s.Cash() == s.rewardBucket + s.Owed() + s.history.payouts
    ensures s.Cash() >= s.rewardBucket + s.Owed()
  {
    ReachableKeepsLaws(DebitAtApproval, manager, s);
  }

  /** Its claims go through exactly when the bucket, already debited once, can be debited again. */
  lemma DebitClaimIff(manager: Address, s: Ledger, e: Entry, transferSucceeds: bool)
    requires Reachable(DebitAtApproval, manager, s)
    ensures var reward := s.QuestAt(e.questId).rewardPerApproval;
            Step(DebitAtApproval, manager, s, ClaimReward(e.questId, e.user, transferSucceeds)).Some?
            <==> transferSucceeds && s.StateOf(e) == Approved && 0 < reward <= s.rewardBucket
  {
    ReachableKeepsLaws(DebitAtApproval, manager, s);
    assert EntryConsistent(s, e);
  }
}
