/**
 * The index-based staking vault of the fixture: rewards are accounted per share, scaled by 1e18 and
 * floored, and credited to a user when that user is settled.
 */
module StakingVault {
  import opened Wrappers
  import opened Uint256
  import opened MapSums

  type Address(==, !new, 0) = nat

  const ONE: nat := 1_000_000_000_000_000_000

  /** Contract storage, the deposit total, and what each user has been paid. */
  datatype Pool = Pool(
    rewardBucket: nat,
    accRewardPerShare: nat,
    totalStaked: nat,
    stakedAmount: map<Address, nat>,
    rewardDebt: map<Address, nat>,
    pendingRewards: map<Address, nat>,
    deposits: nat,
    paidTo: map<Address, nat>)

  const EMPTY := Pool(0, 0, 0, map[], map[], map[], 0, map[])

  datatype Call =
    | Receive(value: uint256)
    | Stake(user: Address, amount: uint256)
    | ClaimRewards(user: Address, transferSucceeds: bool)

  function Share(staked: nat, index: nat): nat {
    staked * index / ONE
  }

  /** A user's floored share of everything the index has accumulated. */
  function Accrued(s: Pool, user: Address): nat {
    Share(At(s.stakedAmount, user), s.accRewardPerShare)
  }

  function ReceiveSpec(s: Pool, value: nat): Option<Pool> {
    if value == 0 then Some(s)
    else if s.rewardBucket + value > MAX_UINT256 then None
    else
      var t := s.(rewardBucket := s.rewardBucket + value, deposits := s.deposits + value);
      if s.totalStaked == 0 then Some(t)
      else if value * ONE > MAX_UINT256 then None
      else if s.accRewardPerShare + value * ONE / s.totalStaked > MAX_UINT256 then None
      else Some(t.(accRewardPerShare := s.accRewardPerShare + value * ONE / s.totalStaked))
  }

  /** `_settle`: None when the product overflows or the subtraction underflows. */
  function SettleSpec(s: Pool, user: Address): Option<Pool> {
    var accrued := Accrued(s, user);
    if At(s.stakedAmount, user) * s.accRewardPerShare > MAX_UINT256 then None
    else if accrued < At(s.rewardDebt, user) then None
    else
      var owed := accrued - At(s.rewardDebt, user);
      if At(s.pendingRewards, user) + owed > MAX_UINT256 then None
      else Some(s.(
                  pendingRewards := s.pendingRewards[user := At(s.pendingRewards, user) + owed],
                  rewardDebt := s.rewardDebt[user := accrued]))
  }

  /** `stake` adds to the position without refreshing the debt it has just settled. */
  function StakeSpec(s: Pool, user: Address, amount: nat): Option<Pool> {
    var t :- SettleSpec(s, user);
    if At(t.stakedAmount, user) + amount > MAX_UINT256 || t.totalStaked + amount > MAX_UINT256 then None
    else Some(t.(
                stakedAmount := t.stakedAmount[user := At(t.stakedAmount, user) + amount],
                totalStaked := t.totalStaked + amount))
  }

  function ClaimSpec(s: Pool, user: Address, transferSucceeds: bool): Option<Pool> {
    var t :- SettleSpec(s, user);
    var amount := At(t.pendingRewards, user);
    if amount == 0 || t.rewardBucket < amount || !transferSucceeds then None
    else Some(t.(
                pendingRewards := t.pendingRewards[user := 0],
                rewardBucket := t.rewardBucket - amount,
                paidTo := t.paidTo[user := At(t.paidTo, user) + amount]))
  }

  function Step(s: Pool, c: Call): Option<Pool> {
    match c
    case Receive(value) => ReceiveSpec(s, value)
    case Stake(user, amount) => StakeSpec(s, user, amount)
    case ClaimRewards(user, transferSucceeds) => ClaimSpec(s, user, transferSucceeds)
  }

  function Apply(s: Pool, c: Call): Pool {
    Step(s, c).GetOr(s)
  }

  function Run(s: Pool, calls: seq<Call>): Pool
    decreases |calls|
  {
    if calls == [] then s else Apply(Run(s, calls[..|calls| - 1]), calls[|calls| - 1])
  }

  ghost predicate Performed(before: Pool, c: Call, ok: bool, after: Pool) {
    && Step(before, c) == (if ok then Some(after) else None)
    && (!ok ==> after == before)
  }

  class Vault {
    var rewardBucket: nat
    var accRewardPerShare: nat
    var totalStaked: nat
    var stakedAmount: map<Address, nat>
    var rewardDebt: map<Address, nat>
    var pendingRewards: map<Address, nat>
    ghost var deposits: nat
    ghost var paidTo: map<Address, nat>

    ghost function View(): Pool
      reads this
    {
      Pool(rewardBucket, accRewardPerShare, totalStaked, stakedAmount, rewardDebt, pendingRewards, deposits, paidTo)
    }

    constructor ()
      ensures View() == EMPTY
    {
      rewardBucket, accRewardPerShare, totalStaked := 0, 0, 0;
      stakedAmount, rewardDebt, pendingRewards := map[], map[], map[];
      deposits, paidTo := 0, map[];
    }

    method Receive(value: uint256) returns (ok: bool)
      modifies this
      ensures Performed(old(View()), Call.Receive(value), ok, View())
    {
      if value == 0 {
        return true;
      }
      if rewardBucket + value > MAX_UINT256 {
        return false;
      }
      if totalStaked > 0 {
        if value * ONE > MAX_UINT256 || accRewardPerShare + value * ONE / totalStaked > MAX_UINT256 {
          return false;
        }
        accRewardPerShare := accRewardPerShare + value * ONE / totalStaked;
      }
      rewardBucket := rewardBucket + value;
      deposits := deposits + value;
      ok := true;
    }

    method Settle(user: Address) returns (ok: bool)
      modifies this
      ensures SettleSpec(old(View()), user) == (if ok then Some(View()) else None)
      ensures !ok ==> View() == old(View())
    {
      var product := At(stakedAmount, user) * accRewardPerShare;
      var accrued := product / ONE;
      if product > MAX_UINT256 || accrued < At(rewardDebt, user) {
        return false;
      }
      var owed := accrued - At(rewardDebt, user);
      if At(pendingRewards, user) + owed > MAX_UINT256 {
        return false;
      }
      pendingRewards := pendingRewards[user := At(pendingRewards, user) + owed];
      rewardDebt := rewardDebt[user := accrued];
      ok := true;
    }

    /** A revert after `_settle` undoes the settlement as well. */
    method Stake(user: Address, amount: uint256) returns (ok: bool)
      modifies this
      ensures Performed(old(View()), Call.Stake(user, amount), ok, View())
    {
      var pendingBefore, debtBefore := pendingRewards, rewardDebt;
      ok := Settle(user);
      if !ok {
        return;
      }
      if At(stakedAmount, user) + amount > MAX_UINT256 || totalStaked + amount > MAX_UINT256 {
        pendingRewards, rewardDebt := pendingBefore, debtBefore;
        return false;
      }
      stakedAmount := stakedAmount[user := At(stakedAmount, user) + amount];
      totalStaked := totalStaked + amount;
    }

    method ClaimRewards(user: Address, transferSucceeds: bool) returns (ok: bool)
      modifies this
      ensures Performed(old(View()), Call.ClaimRewards(user, transferSucceeds), ok, View())
    {
      var pendingBefore, debtBefore := pendingRewards, rewardDebt;
      ok := Settle(user);
      if !ok {
        return;
      }
      var amount := At(pendingRewards, user);
      if amount == 0 || rewardBucket < amount || !transferSucceeds {
        pendingRewards, rewardDebt := pendingBefore, debtBefore;
        return false;
      }
      pendingRewards := pendingRewards[user := 0];
      rewardBucket := rewardBucket - amount;
      paidTo := paidTo[user := At(paidTo, user) + amount];
    }
  }
}
