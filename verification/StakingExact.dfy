/** What each call of the staking vault credits exactly, and how little of a deposit can go uncredited. */
module StakingExact {
  import opened Wrappers
  import opened Uint256
  import opened MapSums
  import opened StakingVault
  import opened StakingSolvency

  // ---- One call ----

  /** The index moves by the deposit per staked unit, floored: the largest increment the deposit covers. */
  lemma DepositMovesIndex(s: Pool, value: uint256)
    requires Step(s, Receive(value)).Some?
    ensures var t := Apply(s, Receive(value));
            var d := t.accRewardPerShare - s.accRewardPerShare;
            && t == s.(rewardBucket := s.rewardBucket + value, deposits := s.deposits + value,
                       accRewardPerShare := t.accRewardPerShare)
            && (s.totalStaked == 0 || value == 0 ==> d == 0)
            && (s.totalStaked > 0 ==>
                  s.totalStaked * d <= value * 1_000_000_000_000_000_000 < s.totalStaked * (d + 1))
  {
    if s.totalStaked > 0 {
      FlooredQuotient(value * ONE, s.totalStaked);
      if value == 0 {
        assert s.totalStaked * 0 == 0;
      }
    }
  }

  lemma FlooredQuotient(n: nat, d: nat)
    requires d > 0
    ensures d * (n / d) <= n < d * (n / d + 1)
  {
    assert d * (n / d + 1) == d * (n / d) + d;
  }

  /**
   * A deposit is refused only when bucket, product or index would not fit a word, where the index moves by the largest
   * `d` the deposit covers.
   */
  lemma DepositIff(calls: seq<Call>, value: uint256, d: nat)
    requires var s := Run(EMPTY, calls);
             s.totalStaked > 0 ==> Covers(s.totalStaked, d, value * 1_000_000_000_000_000_000)
    ensures var s := Run(EMPTY, calls);
            Step(s, Receive(value)).None?
            <==> value > 0 && (|| s.rewardBucket + value > MAX_UINT256
                               || (s.totalStaked > 0 && value * 1_000_000_000_000_000_000 > MAX_UINT256)
                               || (s.totalStaked > 0 && s.accRewardPerShare + d > MAX_UINT256))
  {
    hide Run, Covers;
    var s := Run(EMPTY, calls);
    if s.totalStaked > 0 {
      LargestIsQuotient(value * ONE, s.totalStaked, d);
    }
  }

  /** `d` is the largest number whose product with `staked` is at most `n`. */
  ghost predicate Covers(staked: nat, d: nat, n: nat) {
    staked * d <= n < staked * (d + 1)
  }

  lemma LargestIsQuotient(n: nat, staked: nat, d: nat)
    requires staked > 0 && Covers(staked, d, n)
    ensures n / staked == d
  {
    FlooredQuotient(n, staked);
    Cancels(staked, d, n / staked + 1);
    Cancels(staked, n / staked, d + 1);
  }

  lemma Cancels(k: nat, m: nat, n: nat)
    requires k * m < k * n
    ensures m < n
  {
    assert k * (m - n) == k * m - k * n;
  }

  /** A stake adds its amount to one position and to the total, and changes what nobody else is entitled to. */
  lemma StakeIff(calls: seq<Call>, user: Address, amount: uint256, other: Address)
    ensures var s := Run(EMPTY, calls);
            var after := Step(s, Stake(user, amount));
            && (after.Some? <==>
                  && At(s.stakedAmount, user) * s.accRewardPerShare <= MAX_UINT256 && Entitled(s, user) <= MAX_UINT256
                  && At(s.stakedAmount, user) + amount <= MAX_UINT256 && s.totalStaked + amount <= MAX_UINT256)
            && (after.Some? ==>
                  var t := after.value;
                  && At(t.stakedAmount, user) == At(s.stakedAmount, user) + amount
                  && t.totalStaked == s.totalStaked + amount
                  && At(t.pendingRewards, user) == Entitled(s, user)
                  && t.rewardBucket == s.rewardBucket && t.accRewardPerShare == s.accRewardPerShare
                  && t.deposits == s.deposits && t.paidTo == s.paidTo
                  && (other != user ==>
                        && At(t.stakedAmount, other) == At(s.stakedAmount, other)
                        && Entitled(t, other) == Entitled(s, other)))
  {
    hide Run;
    var s := Run(EMPTY, calls);
    RunKeepsBooks(calls);
    assert UserConsistent(s, user);
  }

  /** A claim pays everything its caller is entitled to, once, and nobody else anything. */
  lemma ClaimIff(calls: seq<Call>, user: Address, transferSucceeds: bool, other: Address)
    ensures var s := Run(EMPTY, calls);
            var after := Step(s, ClaimRewards(user, transferSucceeds));
            && (after.Some? <==>
                  && transferSucceeds && 0 < Entitled(s, user) <= s.rewardBucket
                  && At(s.stakedAmount, user) * s.accRewardPerShare <= MAX_UINT256)
            && (after.Some? ==>
                  var t := after.value;
                  && At(t.paidTo, user) == At(s.paidTo, user) + Entitled(s, user) && Entitled(t, user) == 0
                  && t.rewardBucket == s.rewardBucket - Entitled(s, user)
                  && t.stakedAmount == s.stakedAmount && t.totalStaked == s.totalStaked
                  && t.accRewardPerShare == s.accRewardPerShare && t.deposits == s.deposits
                  && (other != user ==>
                        At(t.paidTo, other) == At(s.paidTo, other) && Entitled(t, other) == Entitled(s, other)))
  {
    hide Run;
    var s := Run(EMPTY, calls);
    RunKeepsBooks(calls);
    assert UserConsistent(s, user);
  }

  // ---- Whole runs ----

  /** The deposit is accepted while somebody stakes. */
  ghost predicate Rewards(s: Pool, c: Call) {
    c.Receive? && c.value > 0 && s.totalStaked > 0 && Step(s, c).Some?
  }

  /** What was deposited for stakers, and in how many deposits. */
  ghost function Rewarded(calls: seq<Call>): nat {
    if calls == [] then 0
    else
      var before, c := calls[..|calls| - 1], calls[|calls| - 1];
      Rewarded(before) + (if Rewards(Run(EMPTY, before), c) then c.value else 0)
  }

  ghost function RewardCount(calls: seq<Call>): nat {
    if calls == [] then 0
    else
      var before, c := calls[..|calls| - 1], calls[|calls| - 1];
      RewardCount(before) + (if Rewards(Run(EMPTY, before), c) then 1 else 0)
  }

  /** Total stake times index falls short of the rewards by less than one stake per deposit. */
  ghost predicate Credited(staked: nat, index: nat, count: nat, rewarded: nat) {
    rewarded * ONE <= staked * index + count * staked
  }

  lemma StepCredits(s: Pool, c: Call, count: nat, rewarded: nat)
    requires Credited(s.totalStaked, s.accRewardPerShare, count, rewarded)
    ensures var t := Apply(s, c);
            if Rewards(s, c) then Credited(t.totalStaked, t.accRewardPerShare, count + 1, rewarded + c.value)
            else Credited(t.totalStaked, t.accRewardPerShare, count, rewarded)
  {
    var t := Apply(s, c);
    if Rewards(s, c) {
      DepositMovesIndex(s, c.value);
      OneMoreReward(s.totalStaked, s.accRewardPerShare, t.accRewardPerShare, count, rewarded, c.value);
    } else {
      StakeNeverFalls(s, c);
      MoreStake(s.totalStaked, t.totalStaked, s.accRewardPerShare, t.accRewardPerShare, count);
    }
  }

  lemma StakeNeverFalls(s: Pool, c: Call)
    ensures s.totalStaked <= Apply(s, c).totalStaked && s.accRewardPerShare <= Apply(s, c).accRewardPerShare
  {
  }

  lemma MoreStake(staked: nat, more: nat, index: nat, higher: nat, count: nat)
    requires staked <= more && index <= higher
    ensures staked * index + count * staked <= more * higher + count * more
  {
    assert staked * index <= more * index <= more * higher;
    assert count * staked <= count * more;
  }

  lemma OneMoreReward(staked: nat, index: nat, higher: nat, count: nat, rewarded: nat, value: nat)
    requires Credited(staked, index, count, rewarded) && index <= higher
    requires value * ONE < staked * (higher - index + 1)
    ensures Credited(staked, higher, count + 1, rewarded + value)
  {
    var d := higher - index;
    assert staked * (d + 1) == staked * d + staked;
    assert staked * higher == staked * index + staked * d;
    assert (count + 1) * staked == count * staked + staked;
    assert (rewarded + value) * ONE == rewarded * ONE + value * ONE;
  }

  lemma {:induction false} RunCredits(calls: seq<Call>)
    ensures var s := Run(EMPTY, calls);
            Credited(s.totalStaked, s.accRewardPerShare, RewardCount(calls), Rewarded(calls))
    decreases |calls|
  {
    if calls != [] {
      var before, c := calls[..|calls| - 1], calls[|calls| - 1];
      RunCredits(before);
      hide Credited, Apply, Rewards;
      StepCredits(Run(EMPTY, before), c, RewardCount(before), Rewarded(before));
    }
  }

  ghost predicate LosesLittle(staked: nat, index: nat, total: nat, stakers: nat) {
    staked * index <= (total + stakers) * ONE
  }

  /** Flooring each share loses less than one unit per staker. */
  lemma {:induction false} FloorsLoseLittle(staked: map<Address, nat>, index: nat)
    ensures LosesLittle(Sum(staked), index, Sum(Shares(staked, index)), |staked|)
    decreases |staked|
  {
    hide LosesLittle, Share;
    var shares := Shares(staked, index);
    if staked == map[] {
      assert shares == map[];
      assert Sum(shares) == 0 && Sum(staked) == 0;
      NoneLost(index);
    } else {
      var u :| u in staked;
      var rest := staked - {u};
      assert rest.Keys == staked.Keys - {u};
      FloorsLoseLittle(rest, index);
      SumRemove(staked, u);
      SumRemove(shares, u);
      assert shares - {u} == Shares(rest, index);
      OneFloor(staked[u], Sum(rest), index, Sum(Shares(rest, index)), |rest|);
    }
  }

  lemma NoneLost(index: nat)
    ensures LosesLittle(0, index, 0, 0)
  {
    assert 0 * index == 0;
  }

  lemma OneFloor(staked: nat, rest: nat, index: nat, restShares: nat, n: nat)
    requires LosesLittle(rest, index, restShares, n)
    ensures LosesLittle(staked + rest, index, Share(staked, index) + restShares, n + 1)
  {
    FlooredQuotient(staked * index, ONE);
    assert (staked + rest) * index == staked * index + rest * index;
    assert (Share(staked, index) + 1) * ONE == ONE * (staked * index / ONE + 1);
  }

  /**
   * On every run, what all users together have accrued falls short of the rewards deposited for them by at most one
   * unit per staker and, in units of 1e18, one total stake per deposit.
   */
  lemma LittleIsLost(calls: seq<Call>)
    ensures var s := Run(EMPTY, calls);
            Rewarded(calls) * 1_000_000_000_000_000_000
            <= (TotalAccrued(s) + |s.stakedAmount|) * 1_000_000_000_000_000_000 + RewardCount(calls) * s.totalStaked
  {
    hide Run, Rewarded, RewardCount;
    var s := Run(EMPTY, calls);
    RunCredits(calls);
    RunKeepsBooks(calls);
    FloorsLoseLittle(s.stakedAmount, s.accRewardPerShare);
  }

  /** With stakes before rewards it is also at most what was deposited: nearly all of it is credited, and no more. */
  lemma EarlyStakersGetAll(calls: seq<Call>)
    requires StakesPrecedeRewards(calls)
    ensures var s := Run(EMPTY, calls);
            && TotalAccrued(s) <= s.deposits
            && Rewarded(calls) * 1_000_000_000_000_000_000
               <= (TotalAccrued(s) + |s.stakedAmount|) * 1_000_000_000_000_000_000 + RewardCount(calls) * s.totalStaked
  {
    hide Run, Rewarded, RewardCount;
    LittleIsLost(calls);
    EarlyStakersAreCovered(calls, 0);
  }
}
