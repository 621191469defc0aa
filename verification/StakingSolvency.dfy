/** When the index-based vault can pay what it has accrued, floor divisions included. */
module StakingSolvency {
  import opened Wrappers
  import opened Uint256
  import opened MapSums
  import opened StakingVault

  ghost predicate UserConsistent(s: Pool, u: Address) {
    && At(s.pendingRewards, u) + At(s.paidTo, u) == At(s.rewardDebt, u)
    && At(s.rewardDebt, u) <= Accrued(s, u)
  }

  /** Kept by every run, whoever stakes when. */
  ghost predicate Books(s: Pool) {
    && (forall u: Address :: UserConsistent(s, u))
    && s.totalStaked == Sum(s.stakedAmount)
    && s.rewardBucket + Sum(s.paidTo) == s.deposits
    && s.rewardBucket <= MAX_UINT256
  }

  lemma AccruedMonotone(staked: nat, more: nat, index: nat, higher: nat)
    requires staked <= more && index <= higher
    ensures Share(staked, index) <= Share(more, higher)
  {
    assert staked * index <= more * index <= more * higher;
  }

  lemma SettleKeepsBooks(s: Pool, user: Address)
    requires Books(s) && SettleSpec(s, user).Some?
    ensures Books(SettleSpec(s, user).value)
  {
    var t := SettleSpec(s, user).value;
    assert UserConsistent(s, user);
    forall u: Address ensures UserConsistent(t, u) {
      assert UserConsistent(s, u);
    }
  }

  lemma StakeKeepsBooks(s: Pool, user: Address, amount: nat)
    requires Books(s) && StakeSpec(s, user, amount).Some?
    ensures Books(StakeSpec(s, user, amount).value)
  {
    SettleKeepsBooks(s, user);
    var settled := SettleSpec(s, user).value;
    var t := StakeSpec(s, user, amount).value;
    var staked := At(s.stakedAmount, user);
    SumUpdate(s.stakedAmount, user, staked + amount);
    AccruedMonotone(staked, staked + amount, s.accRewardPerShare, s.accRewardPerShare);
    forall u: Address ensures UserConsistent(t, u) {
      assert UserConsistent(settled, u);
    }
  }

  lemma ClaimKeepsBooks(s: Pool, user: Address)
    requires Books(s) && ClaimSpec(s, user, true).Some?
    ensures Books(ClaimSpec(s, user, true).value)
  {
    SettleKeepsBooks(s, user);
    var settled := SettleSpec(s, user).value;
    var t := ClaimSpec(s, user, true).value;
    SumUpdate(s.paidTo, user, At(t.paidTo, user));
    forall u: Address ensures UserConsistent(t, u) {
      assert UserConsistent(settled, u);
    }
  }

  lemma ReceiveKeepsBooks(s: Pool, value: nat)
    requires Books(s) && ReceiveSpec(s, value).Some?
    ensures Books(ReceiveSpec(s, value).value)
  {
    var t := ReceiveSpec(s, value).value;
    forall u: Address ensures UserConsistent(t, u) {
      assert UserConsistent(s, u);
      var staked := At(s.stakedAmount, u);
      AccruedMonotone(staked, staked, s.accRewardPerShare, t.accRewardPerShare);
    }
  }

  lemma StepKeepsBooks(s: Pool, c: Call)
    requires Books(s)
    ensures Books(Apply(s, c))
  {
    if Step(s, c).Some? {
      match c
      case Receive(value) => ReceiveKeepsBooks(s, value);
      case Stake(user, amount) => StakeKeepsBooks(s, user, amount);
      case ClaimRewards(user, transferSucceeds) => ClaimKeepsBooks(s, user);
    }
  }

  lemma {:induction false} RunKeepsBooks(calls: seq<Call>)
    ensures Books(Run(EMPTY, calls))
    decreases |calls|
  {
    if calls == [] {
      SumZero(EMPTY.stakedAmount);
      SumZero(EMPTY.paidTo);
      assert forall u: Address :: UserConsistent(EMPTY, u);
    } else {
      RunKeepsBooks(calls[..|calls| - 1]);
      StepKeepsBooks(Run(EMPTY, calls[..|calls| - 1]), calls[|calls| - 1]);
    }
  }

  /** The index never falls along a run. */
  lemma {:induction false} IndexGrows(calls: seq<Call>, i: nat)
    requires i <= |calls|
    ensures Run(EMPTY, calls[..i]).accRewardPerShare <= Run(EMPTY, calls).accRewardPerShare
    decreases |calls|
  {
    if i == |calls| {
      assert calls[..i] == calls;
    } else {
      var earlier, last := calls[..|calls| - 1], calls[|calls| - 1];
      IndexGrows(earlier, i);
      assert earlier[..i] == calls[..i];
      StepGrowsIndex(Run(EMPTY, earlier), last);
    }
  }

  lemma StepGrowsIndex(s: Pool, c: Call)
    ensures s.accRewardPerShare <= Apply(s, c).accRewardPerShare
  {
  }

  /** On every run `_settle` fails only by overflow of the product or of the pending total, never by underflow. */
  lemma SettleNeverUnderflows(calls: seq<Call>, user: Address)
    ensures var s := Run(EMPTY, calls);
            && At(s.rewardDebt, user) <= Accrued(s, user)
            && (SettleSpec(s, user).None? <==>
                || At(s.stakedAmount, user) * s.accRewardPerShare > MAX_UINT256
                || At(s.pendingRewards, user) + Accrued(s, user) - At(s.rewardDebt, user) > MAX_UINT256)
  {
    RunKeepsBooks(calls);
    assert UserConsistent(Run(EMPTY, calls), user);
  }

  // ---- Liabilities ----

  /** Pending plus unsettled rewards of one user. */
  ghost function Entitled(s: Pool, user: Address): int {
    At(s.pendingRewards, user) + Accrued(s, user) - At(s.rewardDebt, user)
  }

  ghost function Shares(staked: map<Address, nat>, index: nat): map<Address, nat> {
    map u | u in staked :: Share(staked[u], index)
  }

  /** Pending, unsettled and already paid rewards of all users together. */
  ghost function TotalAccrued(s: Pool): nat {
    Sum(Shares(s.stakedAmount, s.accRewardPerShare))
  }

  ghost predicate Covers(staked: nat, index: nat, total: nat) {
    total * ONE <= staked * index
  }

  /** One more floored share on either side. */
  lemma AddFloor(staked: nat, rest: nat, index: nat, restShares: nat)
    requires Covers(rest, index, restShares)
    ensures Covers(staked + rest, index, Share(staked, index) + restShares)
  {
    assert Share(staked, index) * ONE <= staked * index;
    assert (staked + rest) * index == staked * index + rest * index;
  }

  /** Flooring each share loses value, it never creates any. */
  lemma {:induction false} FloorsSumBelow(staked: map<Address, nat>, index: nat)
    ensures Covers(Sum(staked), index, Sum(Shares(staked, index)))
    decreases |staked|
  {
    var shares := Shares(staked, index);
    if staked == map[] {
      assert shares == map[];
      assert Sum(shares) == 0 && Sum(staked) == 0;
    } else {
      var u :| u in staked;
      var rest := staked - {u};
      assert rest.Keys == staked.Keys - {u};
      FloorsSumBelow(rest, index);
      SumRemove(staked, u);
      SumRemove(shares, u);
      assert shares - {u} == Shares(rest, index);
      AddFloor(staked[u], Sum(rest), index, Sum(Shares(rest, index)));
    }
  }

  /** All shares together are covered by deposits. */
  ghost predicate Backed(s: Pool) {
    s.totalStaked * s.accRewardPerShare <= ONE * s.deposits
  }

  ghost predicate Solvent(s: Pool) {
    TotalAccrued(s) <= s.deposits
  }

  lemma BackedIsSolvent(s: Pool)
    requires Books(s) && Backed(s)
    ensures Solvent(s)
  {
    FloorsSumBelow(s.stakedAmount, s.accRewardPerShare);
  }

  /** In a solvent vault the bucket covers each user's whole entitlement. */
  lemma SolventCoversUser(s: Pool, user: Address)
    requires Books(s) && Solvent(s)
    ensures 0 <= Entitled(s, user) <= s.rewardBucket
  {
    assert UserConsistent(s, user);
    var settled := s.paidTo[user := Accrued(s, user)];
    SumUpdate(s.paidTo, user, Accrued(s, user));
    var shares := Shares(s.stakedAmount, s.accRewardPerShare);
    forall u | u in settled ensures settled[u] <= At(shares, u) {
      assert UserConsistent(s, u);
    }
    SumMonotone(settled, shares);
  }

  /**
   * In a solvent vault the balance guard never refuses: a claim goes through exactly when the caller is
   * entitled to something, the product fits a word and the transfer succeeds; it pays the entitlement.
   */
  lemma SolventClaimIff(s: Pool, user: Address, transferSucceeds: bool)
    requires Books(s) && Solvent(s)
    ensures var after := Step(s, ClaimRewards(user, transferSucceeds));
            && (after.Some? <==>
                && transferSucceeds
                && Entitled(s, user) > 0
                && At(s.stakedAmount, user) * s.accRewardPerShare <= MAX_UINT256)
            && (after.Some? ==>
                  && At(after.value.paidTo, user) == At(s.paidTo, user) + Entitled(s, user)
                  && after.value.rewardBucket == s.rewardBucket - Entitled(s, user)
                  && Entitled(after.value, user) == 0)
  {
    SolventCoversUser(s, user);
    assert UserConsistent(s, user);
  }

  // ---- Which steps keep the vault backed ----

  /** The stake would share in past rewards that no deposit covers. */
  ghost predicate Overreaches(s: Pool, c: Call) {
    && c.Stake? && Step(s, c).Some?
    && (s.totalStaked + c.amount) * s.accRewardPerShare > ONE * s.deposits
  }

  lemma IndexIncrement(staked: nat, index: nat, value: nat)
    requires staked > 0
    ensures staked * (index + value * ONE / staked) <= staked * index + value * ONE
  {
    var d := value * ONE / staked;
    assert staked * d <= value * ONE;
    assert staked * (index + d) == staked * index + staked * d;
  }

  lemma StepBackedIff(s: Pool, c: Call)
    requires Backed(s)
    ensures Backed(Apply(s, c)) <==> !Overreaches(s, c)
  {
    if c.Receive? && s.totalStaked > 0 {
      IndexIncrement(s.totalStaked, s.accRewardPerShare, c.value);
    }
  }

  ghost predicate NeverOverreaches(calls: seq<Call>) {
    forall i :: 0 <= i < |calls| ==> !Overreaches(Run(EMPTY, calls[..i]), calls[i])
  }

  ghost predicate AlwaysBacked(calls: seq<Call>) {
    forall i :: 0 <= i <= |calls| ==> Backed(Run(EMPTY, calls[..i]))
  }

  /** Over whole runs: shares stay covered exactly when no stake reaches for past rewards. */
  lemma {:induction false} RunBackedIff(calls: seq<Call>)
    ensures AlwaysBacked(calls) <==> NeverOverreaches(calls)
    decreases |calls|
  {
    if calls == [] {
      assert calls[..0] == [];
    } else {
      var before := calls[..|calls| - 1];
      RunBackedIff(before);
      NeverOverreachesSplit(calls);
      AlwaysBackedSplit(calls);
      if Backed(Run(EMPTY, before)) {
        StepBackedIff(Run(EMPTY, before), calls[|before|]);
      } else {
        assert before[..|before|] == before;
      }
    }
  }

  lemma NeverOverreachesSplit(calls: seq<Call>)
    requires calls != []
    ensures var before := calls[..|calls| - 1];
            NeverOverreaches(calls) <==> NeverOverreaches(before) && !Overreaches(Run(EMPTY, before), calls[|before|])
  {
    hide Run, Overreaches;
    var before := calls[..|calls| - 1];
    assert forall i :: 0 <= i < |before| ==> before[..i] == calls[..i] && before[i] == calls[i];
  }

  lemma AlwaysBackedSplit(calls: seq<Call>)
    requires calls != []
    ensures AlwaysBacked(calls) <==> AlwaysBacked(calls[..|calls| - 1]) && Backed(Run(EMPTY, calls))
  {
    hide Run, Backed;
    var before := calls[..|calls| - 1];
    if AlwaysBacked(calls) {
      forall i | 0 <= i <= |before| ensures Backed(Run(EMPTY, before[..i])) {
        assert before[..i] == calls[..i];
      }
      assert calls[..|calls|] == calls;
    }
    if AlwaysBacked(before) && Backed(Run(EMPTY, calls)) {
      forall i | 0 <= i <= |calls| ensures Backed(Run(EMPTY, calls[..i])) {
        assert i <= |before| ==> before[..i] == calls[..i];
        assert i == |calls| ==> calls[..i] == calls;
      }
    }
  }

  /** Nobody successfully stakes once the index has moved. */
  ghost predicate StakesPrecedeRewards(calls: seq<Call>) {
    forall i :: 0 <= i < |calls| && calls[i].Stake? && Step(Run(EMPTY, calls[..i]), calls[i]).Some? ==>
                  Run(EMPTY, calls[..i]).accRewardPerShare == 0
  }

  lemma NothingToReach(s: Pool, c: Call)
    requires c.Stake? && Step(s, c).Some? ==> s.accRewardPerShare == 0
    ensures !Overreaches(s, c)
  {
  }

  /**
   * On every run whose stakes precede the first distribution, everything accrued is covered by deposits and
   * no claim is refused for lack of balance.
   */
  lemma EarlyStakersAreCovered(calls: seq<Call>, user: Address)
    requires StakesPrecedeRewards(calls)
    ensures TotalAccrued(Run(EMPTY, calls)) <= Run(EMPTY, calls).deposits
    ensures 0 <= Entitled(Run(EMPTY, calls), user) <= Run(EMPTY, calls).rewardBucket
  {
    var s := Run(EMPTY, calls);
    forall i | 0 <= i < |calls| ensures !Overreaches(Run(EMPTY, calls[..i]), calls[i]) {
      NothingToReach(Run(EMPTY, calls[..i]), calls[i]);
    }
    RunBackedIff(calls);
    assert calls[..|calls|] == calls;
    RunKeepsBooks(calls);
    BackedIsSolvent(s);
    SolventCoversUser(s, user);
  }

  // ---- Staking late ----

  /** The exact effect of a stake on liabilities: the newcomer's floored share of all past rewards. */
  lemma StakeSolventIff(s: Pool, user: Address, amount: nat)
    requires Books(s) && StakeSpec(s, user, amount).Some?
    ensures var staked := At(s.stakedAmount, user);
            Solvent(StakeSpec(s, user, amount).value) <==>
            Share(staked + amount, s.accRewardPerShare) - Accrued(s, user) <= s.deposits - TotalAccrued(s)
  {
    var t := StakeSpec(s, user, amount).value;
    var gained := Share(At(s.stakedAmount, user) + amount, s.accRewardPerShare);
    var shares := Shares(s.stakedAmount, s.accRewardPerShare);
    SumUpdate(shares, user, gained);
    assert Shares(t.stakedAmount, t.accRewardPerShare) == shares[user := gained];
    assert At(shares, user) == Accrued(s, user);
  }

  const EARLY: Address := 1
  const LATE: Address := 2

  function LateStake(value: uint256): seq<Call> {
    [Stake(EARLY, 1), Receive(value), Stake(LATE, 1), ClaimRewards(LATE, true)]
  }

  lemma RunFour(a: Call, b: Call, c: Call, d: Call)
    ensures Run(EMPTY, [a, b, c, d]) == Apply(Apply(Apply(Apply(EMPTY, a), b), c), d)
  {
    assert [a, b, c, d][..3] == [a, b, c] && [a, b, c][..2] == [a, b] && [a, b][..1] == [a] && [a][..0] == [];
    assert Run(EMPTY, []) == EMPTY;
    assert Run(EMPTY, [a]) == Apply(EMPTY, a);
    assert Run(EMPTY, [a, b]) == Apply(Apply(EMPTY, a), b);
    assert Run(EMPTY, [a, b, c]) == Apply(Apply(Apply(EMPTY, a), b), c);
  }

  /** A first stake settles nothing, whatever the index. */
  lemma FirstStake(s: Pool, user: Address, amount: uint256)
    requires At(s.stakedAmount, user) == At(s.pendingRewards, user) == At(s.rewardDebt, user) == 0
    requires s.totalStaked + amount <= MAX_UINT256
    ensures Apply(s, Stake(user, amount)) == s.(
              stakedAmount := s.stakedAmount[user := amount],
              totalStaked := s.totalStaked + amount,
              pendingRewards := s.pendingRewards[user := 0],
              rewardDebt := s.rewardDebt[user := 0])
  {
    assert Share(0, s.accRewardPerShare) == 0;
    assert SettleSpec(s, user) ==
           Some(s.(pendingRewards := s.pendingRewards[user := 0], rewardDebt := s.rewardDebt[user := 0]));
  }

  /** A claim by the only user the bucket can pay. */
  lemma ClaimEmptiesBucket(s: Pool, user: Address, other: Address)
    requires user != other && 0 < s.rewardBucket <= MAX_UINT256
    requires Accrued(s, user) == Accrued(s, other) == s.rewardBucket
    requires At(s.stakedAmount, user) * s.accRewardPerShare <= MAX_UINT256
    requires At(s.rewardDebt, user) == At(s.pendingRewards, user) == At(s.paidTo, user) == 0
    requires At(s.rewardDebt, other) == At(s.pendingRewards, other) == 0
    ensures var t := Apply(s, ClaimRewards(user, true));
            && At(t.paidTo, user) == s.rewardBucket
            && t.deposits == s.deposits
            && Entitled(t, other) == s.rewardBucket
            && Step(t, ClaimRewards(other, true)) == None
  {
    var t := Apply(s, ClaimRewards(user, true));
    assert SettleSpec(s, user) ==
           Some(s.(pendingRewards := s.pendingRewards[user := s.rewardBucket],
                   rewardDebt := s.rewardDebt[user := s.rewardBucket]));
    assert t.rewardBucket == 0 && Accrued(t, other) == s.rewardBucket;
  }

  /** With a single share staked, a distribution moves the index by the whole deposit. */
  lemma RewardOneShare(s: Pool, value: uint256)
    requires 0 < value && value * ONE <= MAX_UINT256
    requires s.rewardBucket == s.accRewardPerShare == 0 && s.totalStaked == 1
    ensures Apply(s, Receive(value)) ==
            s.(rewardBucket := value, deposits := s.deposits + value, accRewardPerShare := value * ONE)
    ensures Share(1, value * ONE) == value && 1 * (value * ONE) == value * ONE
  {
    assert value * ONE / 1 == value * ONE;
  }

  /** Without the condition the vault fails: a late staker walks off with a whole distribution. */
  lemma LateStakerTakesAll(value: uint256)
    requires 0 < value && value * ONE <= MAX_UINT256
    ensures var s := Run(EMPTY, LateStake(value));
            && At(s.paidTo, LATE) == value == s.deposits
            && Entitled(s, EARLY) == value
            && Step(s, ClaimRewards(EARLY, true)) == None
  {
    RunFour(Stake(EARLY, 1), Receive(value), Stake(LATE, 1), ClaimRewards(LATE, true));
    FirstStake(EMPTY, EARLY, 1);
    var one := Apply(EMPTY, Stake(EARLY, 1));
    RewardOneShare(one, value);
    var two := Apply(one, Receive(value));
    FirstStake(two, LATE, 1);
    var three := Apply(two, Stake(LATE, 1));
    assert At(three.stakedAmount, LATE) == At(three.stakedAmount, EARLY) == 1;
    ClaimEmptiesBucket(three, LATE, EARLY);
  }
}
