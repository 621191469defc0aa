/**
 * The three quest vaults of the regression fixture as one ledger machine.
 *
 * The fixture assembles its contracts from shared text (state and receive(), createQuest(), claimReward())
 * and varies the approval, so the variant is a parameter here and the shared functions appear once.
 * A call that reverts leaves every field unchanged.
 */
module QuestVault {
  import opened Wrappers
  import opened Uint256
  import opened MapSums

  /** Which remedy the contract text carries. */
  datatype Variant = Broken | DebitAtApproval | AggregateCounter

  type Address(==, !new, 0) = nat

  datatype QuestState = Open | Closed

  datatype Quest = Quest(
    state: QuestState, rewardPerApproval: nat, maxApprovals: nat, approvalsCount: nat, deadline: nat)

  datatype UserState = NotSubmitted | Submitted | Approved | Claimed

  /** The two keys of the nested mappings. */
  datatype Entry = Entry(questId: nat, user: Address)

  /** Observations no contract reads: what was ever deposited and paid out, in total and per entry. */
  datatype History = History(deposits: nat, payouts: nat, approvedFor: map<Entry, nat>, paidTo: map<Entry, nat>)

  /** Contract storage, with the history of the run beside it. */
  datatype Ledger = Ledger(
    rewardBucket: nat,
    totalReservedForQuests: nat,
    totalOwedToUsers: nat,
    questCount: nat,
    quests: map<nat, Quest>,
    userState: map<Entry, UserState>,
    claimable: map<Entry, nat>,
    history: History)
  {
    /** Storage reads: a slot never written holds the zero value. */
    function QuestAt(questId: nat): Quest {
      if questId in quests then quests[questId] else Quest(Open, 0, 0, 0, 0)
    }

    function StateOf(e: Entry): UserState {
      if e in userState then userState[e] else NotSubmitted
    }

    /** The native balance behind the vault. */
    ghost function Cash(): int {
      history.deposits - history.payouts
    }

    /** Everything users could still claim. */
    ghost function Owed(): nat {
      Sum(claimable)
    }
  }

  const EMPTY := Ledger(0, 0, 0, 0, map[], map[], map[], History(0, 0, map[], map[]))

  /** `submit` stands for the submission entry point that the fixture trims away. */
  datatype Call =
    | Receive(value: uint256)
    | CreateQuest(sender: Address, rewardPerApproval: uint256, maxApprovals: uint256, deadline: uint256)
    | Submit(questId: nat, user: Address)
    | ApproveSubmission(sender: Address, questId: nat, user: Address)
    | ClaimReward(questId: nat, user: Address, transferSucceeds: bool)

  function ReceiveSpec(s: Ledger, value: nat): Option<Ledger> {
    if value == 0 then Some(s)
    else if s.rewardBucket + value > MAX_UINT256 then None
    else Some(s.(rewardBucket := s.rewardBucket + value, history := s.history.(deposits := s.history.deposits + value)))
  }

  /** The budget createQuest() takes to be unallocated; a negative value is an underflow in the contract. */
  function Available(v: Variant, s: Ledger): int {
    s.rewardBucket - s.totalReservedForQuests - (if v == AggregateCounter then s.totalOwedToUsers else 0)
  }

  predicate CanCreate(v: Variant, s: Ledger, reward: nat, maxApprovals: nat) {
    && reward * maxApprovals <= MAX_UINT256
    && reward * maxApprovals <= Available(v, s)
    && s.questCount + 1 <= MAX_UINT256
    && s.totalReservedForQuests + reward * maxApprovals <= MAX_UINT256
  }

  function CreateQuestSpec(v: Variant, s: Ledger, reward: nat, maxApprovals: nat, deadline: nat): Option<Ledger> {
    if !CanCreate(v, s, reward, maxApprovals) then None else
      Some(s.(
           questCount := s.questCount + 1,
           quests := s.quests[s.questCount := Quest(Open, reward, maxApprovals, 0, deadline)],
           totalReservedForQuests := s.totalReservedForQuests + reward * maxApprovals))
  }

  function SubmitSpec(s: Ledger, e: Entry): Option<Ledger> {
    if s.StateOf(e) != NotSubmitted then None else
      Some(s.(userState := s.userState[e := Submitted]))
  }

  predicate CanApprove(v: Variant, s: Ledger, e: Entry) {
    var q := s.QuestAt(e.questId);
    var reward := q.rewardPerApproval;
    && s.StateOf(e) == Submitted
    && q.approvalsCount < q.maxApprovals
    && (v == DebitAtApproval ==> reward <= s.rewardBucket)
    && At(s.claimable, e) + reward <= MAX_UINT256
    && (v == AggregateCounter ==> s.totalOwedToUsers + reward <= MAX_UINT256)
    && q.approvalsCount + 1 <= MAX_UINT256
    && reward <= s.totalReservedForQuests
  }

  function ApproveSpec(v: Variant, s: Ledger, e: Entry): Option<Ledger> {
    if !CanApprove(v, s, e) then None else
      var q := s.QuestAt(e.questId);
      var reward := q.rewardPerApproval;
      Some(s.(
           rewardBucket := if v == DebitAtApproval then s.rewardBucket - reward else s.rewardBucket,
           claimable := s.claimable[e := At(s.claimable, e) + reward],
           totalOwedToUsers := if v == AggregateCounter then s.totalOwedToUsers + reward else s.totalOwedToUsers,
           quests := s.quests[e.questId := q.(approvalsCount := q.approvalsCount + 1)],
           totalReservedForQuests := s.totalReservedForQuests - reward,
           userState := s.userState[e := Approved],
           history := s.history.(approvedFor := s.history.approvedFor[e := At(s.history.approvedFor, e) + reward])))
  }

  predicate CanClaim(v: Variant, s: Ledger, e: Entry) {
    var amount := At(s.claimable, e);
    0 < amount <= s.rewardBucket && (v == AggregateCounter ==> amount <= s.totalOwedToUsers)
  }

  /** State is written before the native transfer, and a failing transfer reverts everything. */
  function ClaimSpec(v: Variant, s: Ledger, e: Entry, transferSucceeds: bool): Option<Ledger> {
    if !CanClaim(v, s, e) || !transferSucceeds then None else
      var amount := At(s.claimable, e);
      Some(s.(
           claimable := s.claimable[e := 0],
           totalOwedToUsers := if v == AggregateCounter then s.totalOwedToUsers - amount else s.totalOwedToUsers,
           rewardBucket := s.rewardBucket - amount,
           userState := s.userState[e := Claimed],
           history := s.history.(
             payouts := s.history.payouts + amount,
             paidTo := s.history.paidTo[e := At(s.history.paidTo, e) + amount])))
  }

  /** One external call; None is a revert. */
  function Step(v: Variant, manager: Address, s: Ledger, c: Call): Option<Ledger> {
    match c
    case Receive(value) => ReceiveSpec(s, value)
    case CreateQuest(sender, reward, maxApprovals, deadline) =>
      if sender != manager then None else CreateQuestSpec(v, s, reward, maxApprovals, deadline)
    case Submit(questId, user) => SubmitSpec(s, Entry(questId, user))
    case ApproveSubmission(sender, questId, user) =>
      if sender != manager then None else ApproveSpec(v, s, Entry(questId, user))
    case ClaimReward(questId, user, transferSucceeds) => ClaimSpec(v, s, Entry(questId, user), transferSucceeds)
  }

  function Apply(v: Variant, manager: Address, s: Ledger, c: Call): Ledger {
    Step(v, manager, s, c).GetOr(s)
  }

  /** The state after a sequence of calls, each of which may revert. */
  function Run(v: Variant, manager: Address, s: Ledger, calls: seq<Call>): Ledger
    decreases |calls|
  {
    if calls == [] then s
    else Apply(v, manager, Run(v, manager, s, calls[..|calls| - 1]), calls[|calls| - 1])
  }

  ghost predicate Reachable(v: Variant, manager: Address, s: Ledger) {
    exists calls :: s == Run(v, manager, EMPTY, calls)
  }

  lemma {:induction false} RunAppend(v: Variant, manager: Address, s: Ledger, a: seq<Call>, b: seq<Call>)
    ensures Run(v, manager, s, a + b) == Run(v, manager, Run(v, manager, s, a), b)
    decreases |b|
  {
    if b == [] {
      assert a + b == a;
    } else {
      var last := |b| - 1;
      assert (a + b)[..|a + b| - 1] == a + b[..last];
      RunAppend(v, manager, s, a, b[..last]);
    }
  }

  lemma ReachableFrom(v: Variant, manager: Address, s: Ledger, calls: seq<Call>)
    requires Reachable(v, manager, s)
    ensures Reachable(v, manager, Run(v, manager, s, calls))
  {
    var before :| s == Run(v, manager, EMPTY, before);
    RunAppend(v, manager, EMPTY, before, calls);
    assert Run(v, manager, s, calls) == Run(v, manager, EMPTY, before + calls);
  }

  /** What a call does to storage: success moves to the next state, a revert changes nothing. */
  ghost predicate Performed(v: Variant, manager: Address, before: Ledger, c: Call, ok: bool, after: Ledger) {
    && Step(v, manager, before, c) == (if ok then Some(after) else None)
    && (!ok ==> after == before)
  }

  /** The contract object. Storage is updated in place; a method returning false has reverted. */
  class Vault {
    const variant: Variant
    const manager: Address
    var rewardBucket: nat
    var totalReservedForQuests: nat
    var totalOwedToUsers: nat
    var questCount: nat
    var quests: map<nat, Quest>
    var userState: map<Entry, UserState>
    var claimable: map<Entry, nat>
    ghost var history: History

    ghost function View(): Ledger
      reads this
    {
      Ledger(rewardBucket, totalReservedForQuests, totalOwedToUsers, questCount, quests, userState, claimable,
             history)
    }

    constructor (variant: Variant, manager: Address)
      ensures View() == EMPTY && this.variant == variant && this.manager == manager
    {
      this.variant, this.manager := variant, manager;
      rewardBucket, totalReservedForQuests, totalOwedToUsers, questCount := 0, 0, 0, 0;
      quests, userState, claimable := map[], map[], map[];
      history := History(0, 0, map[], map[]);
    }

    method Receive(value: uint256) returns (ok: bool)
      modifies this
      ensures Performed(variant, manager, old(View()), Call.Receive(value), ok, View())
    {
      if value == 0 {
        return true;
      }
      if rewardBucket + value > MAX_UINT256 {
        return false;
      }
      rewardBucket := rewardBucket + value;
      history := history.(deposits := history.deposits + value);
      ok := true;
    }

    method CreateQuest(sender: Address, rewardPerApproval: uint256, maxApprovals: uint256, deadline: uint256)
      returns (ok: bool)
      modifies this
      ensures Performed(variant, manager, old(View()),
                        Call.CreateQuest(sender, rewardPerApproval, maxApprovals, deadline), ok, View())
    {
      if sender != manager {
        return false;
      }
      var totalBudget := rewardPerApproval * maxApprovals;
      if totalBudget > MAX_UINT256 || totalReservedForQuests > rewardBucket {
        return false;
      }
      var available := rewardBucket - totalReservedForQuests;
      if variant == AggregateCounter {
        if totalOwedToUsers > available {
          return false;
        }
        available := available - totalOwedToUsers;
      }
      if available < totalBudget || questCount + 1 > MAX_UINT256 || totalReservedForQuests + totalBudget > MAX_UINT256 {
        return false;
      }
      var questId := questCount;
      questCount := questCount + 1;
      quests := quests[questId := Quest(Open, rewardPerApproval, maxApprovals, 0, deadline)];
      totalReservedForQuests := totalReservedForQuests + totalBudget;
      ok := true;
    }

    method Submit(questId: nat, user: Address) returns (ok: bool)
      modifies this
      ensures Performed(variant, manager, old(View()), Call.Submit(questId, user), ok, View())
    {
      var e := Entry(questId, user);
      if e in userState && userState[e] != NotSubmitted {
        return false;
      }
      userState := userState[e := Submitted];
      ok := true;
    }

    method ApproveSubmission(sender: Address, questId: nat, user: Address) returns (ok: bool)
      modifies this
      ensures Performed(variant, manager, old(View()), Call.ApproveSubmission(sender, questId, user), ok, View())
    {
      var e := Entry(questId, user);
      var q := if questId in quests then quests[questId] else Quest(Open, 0, 0, 0, 0);
      var reward := q.rewardPerApproval;
      var credited := At(claimable, e) + reward;
      ghost var next := ApproveSpec(variant, View(), e);
      if sender != manager || e !in userState || userState[e] != Submitted || q.approvalsCount >= q.maxApprovals
         || (variant == DebitAtApproval && reward > rewardBucket)
         || credited > MAX_UINT256
         || (variant == AggregateCounter && totalOwedToUsers + reward > MAX_UINT256)
         || q.approvalsCount + 1 > MAX_UINT256
         || reward > totalReservedForQuests {
        return false;
      }
      rewardBucket := if variant == DebitAtApproval then rewardBucket - reward else rewardBucket;
      claimable := claimable[e := credited];
      totalOwedToUsers := if variant == AggregateCounter then totalOwedToUsers + reward else totalOwedToUsers;
      quests := quests[questId := q.(approvalsCount := q.approvalsCount + 1)];
      totalReservedForQuests := totalReservedForQuests - reward;
      userState := userState[e := Approved];
      history := history.(approvedFor := history.approvedFor[e := At(history.approvedFor, e) + reward]);
      ok := true;
      assert next == Some(View());
    }

    method ClaimReward(questId: nat, user: Address, transferSucceeds: bool) returns (ok: bool)
      modifies this
      ensures Performed(variant, manager, old(View()), Call.ClaimReward(questId, user, transferSucceeds), ok, View())
    {
      var e := Entry(questId, user);
      var amount := At(claimable, e);
      if amount == 0 || rewardBucket < amount || (variant == AggregateCounter && totalOwedToUsers < amount)
         || !transferSucceeds {
        return false;
      }
      claimable := claimable[e := 0];
      totalOwedToUsers := if variant == AggregateCounter then totalOwedToUsers - amount else totalOwedToUsers;
      rewardBucket := rewardBucket - amount;
      userState := userState[e := Claimed];
      history := history.(
        payouts := history.payouts + amount,
        paidTo := history.paidTo[e := At(history.paidTo, e) + amount]);
      ok := true;
    }
  }
}
