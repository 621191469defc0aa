/** The scan's verdict on the fixture's contracts, against what their ledgers really do. */
module LedgerVerdicts {
  import opened Wrappers
  import opened LedgerScan
  import opened MoneyFlow
  import QuestVault
  import QuestAccounting
  import QuestInsolvency
  import Uint256
  import opened MapSums

  const CREATE_QUEST: Name := 1
  const APPROVE_SUBMISSION: Name := 2
  const CLAIM_REWARD: Name := 3
  const SETTLE: Name := 4
  const STAKE: Name := 5
  const CLAIM_REWARDS: Name := 6

  const REWARD_BUCKET: Name := 10
  const TOTAL_RESERVED: Name := 11
  const QUEST_COUNT: Name := 12
  const TOTAL_OWED: Name := 13
  const CLAIMABLE_REWARDS: Name := 14
  const ACC_REWARD_PER_SHARE: Name := 15
  const TOTAL_STAKED: Name := 16
  const STAKED_AMOUNT: Name := 17
  const REWARD_DEBT: Name := 18
  const PENDING_REWARDS: Name := 19
  const AMOUNT: Name := 20

  const RECEIVE_UNIT := CodeUnit(RECEIVE, [TextWrite(REWARD_BUCKET, Scalar, Credit)], false, [])

  function CreateQuestUnit(v: QuestVault.Variant): CodeUnit {
    CodeUnit(CREATE_QUEST, [TextWrite(QUEST_COUNT, Scalar, Credit), TextWrite(TOTAL_RESERVED, Scalar, Credit)], false,
             [Balance(REWARD_BUCKET, [TOTAL_RESERVED] + (if v.AggregateCounter? then [TOTAL_OWED] else []))])
  }

  /** The one line by which the approvals differ. */
  function Remedy(v: QuestVault.Variant): seq<TextWrite> {
    match v
    case Broken => []
    case DebitAtApproval => [TextWrite(REWARD_BUCKET, Scalar, Debit)]
    case AggregateCounter => [TextWrite(TOTAL_OWED, Scalar, Credit)]
  }

  function ApproveUnit(v: QuestVault.Variant): CodeUnit {
    CodeUnit(APPROVE_SUBMISSION,
             [TextWrite(CLAIMABLE_REWARDS, Mapping, Credit), TextWrite(TOTAL_RESERVED, Scalar, Debit)] + Remedy(v),
             false, [])
  }

  function ClaimUnit(v: QuestVault.Variant): CodeUnit {
    CodeUnit(CLAIM_REWARD,
             [TextWrite(CLAIMABLE_REWARDS, Mapping, Zero), TextWrite(REWARD_BUCKET, Scalar, Debit)]
             + (if v.AggregateCounter? then [TextWrite(TOTAL_OWED, Scalar, Debit)] else []),
             true,
             if v.AggregateCounter? then [] else [Balance(REWARD_BUCKET, [AMOUNT])])
  }

  /** The three quest contracts as the extraction sees them. */
  function QuestContract(v: QuestVault.Variant): Contract {
    Contract([REWARD_BUCKET, TOTAL_RESERVED, QUEST_COUNT] + (if v.AggregateCounter? then [TOTAL_OWED] else []),
             [CLAIMABLE_REWARDS],
             [CreateQuestUnit(v), ApproveUnit(v), ClaimUnit(v), RECEIVE_UNIT])
  }

  const STAKING_CONTRACT := Contract(
    [REWARD_BUCKET, ACC_REWARD_PER_SHARE, TOTAL_STAKED], [STAKED_AMOUNT, REWARD_DEBT, PENDING_REWARDS],
    [CodeUnit(SETTLE, [TextWrite(PENDING_REWARDS, Mapping, Credit), TextWrite(REWARD_DEBT, Mapping, Assign)],
              false, []),
     CodeUnit(STAKE, [TextWrite(STAKED_AMOUNT, Mapping, Credit), TextWrite(TOTAL_STAKED, Scalar, Credit)], false, []),
     CodeUnit(CLAIM_REWARDS, [TextWrite(PENDING_REWARDS, Mapping, Zero), TextWrite(REWARD_BUCKET, Scalar, Debit)],
              true, [Balance(REWARD_BUCKET, [AMOUNT])]),
     CodeUnit(RECEIVE, [TextWrite(REWARD_BUCKET, Scalar, Credit), TextWrite(ACC_REWARD_PER_SHARE, Scalar, Credit)],
              false, [])])

  lemma BucketAndLiability(v: QuestVault.Variant)
    ensures IsBucket(QuestContract(v), REWARD_BUCKET) && IsLiability(QuestContract(v), CLAIMABLE_REWARDS)
  {
    var c := QuestContract(v);
    assert c.units[1] in c.units && c.units[2] in c.units && c.units[3] in c.units;
    assert Credits(RECEIVE_UNIT, REWARD_BUCKET, Scalar);
    assert DebitsOrClears(ClaimUnit(v), REWARD_BUCKET, Scalar);
    assert Credits(ApproveUnit(v), CLAIMABLE_REWARDS, Mapping);
    assert DebitsOrClears(ClaimUnit(v), CLAIMABLE_REWARDS, Mapping);
  }

  lemma OthersAreCounters(v: QuestVault.Variant)
    ensures !IsBucket(QuestContract(v), TOTAL_RESERVED) && !IsBucket(QuestContract(v), TOTAL_OWED)
  {
    var c := QuestContract(v);
    forall u | u in c.units && u.fn == RECEIVE
      ensures u == RECEIVE_UNIT
    {
    }
  }

  /** An approval makes these writes; nothing else in the contract credits the claimable mapping. */
  lemma ApprovalWrites(v: QuestVault.Variant, i: nat, x: TextWrite)
    requires i < |QuestContract(v).units| && x in QuestContract(v).units[i].writes
    ensures QuestContract(v).units[i].fn == APPROVE_SUBMISSION ==> x in ApproveUnit(v).writes
    ensures x.variable == CLAIMABLE_REWARDS && x.kind == Credit ==> i == 1
  {
  }

  lemma ApprovalMakes(v: QuestVault.Variant, w: Write)
    requires Makes(QuestContract(v), w)
    ensures w.fn == APPROVE_SUBMISSION && v.Broken? ==>
              w.variable == CLAIMABLE_REWARDS || (w.variable == TOTAL_RESERVED && w.kind == Debit)
    ensures w.variable == CLAIMABLE_REWARDS && w.kind == Credit ==> w.fn == APPROVE_SUBMISSION
  {
    var c := QuestContract(v);
    var i, shape :| && 0 <= i < |c.units| && c.units[i].fn == w.fn
                    && TextWrite(w.variable, shape, w.kind) in c.units[i].writes
                    && Tracked(c, TextWrite(w.variable, shape, w.kind));
    ApprovalWrites(v, i, TextWrite(w.variable, shape, w.kind));
  }

  lemma ApprovalMakesAll(v: QuestVault.Variant, x: TextWrite)
    requires x in ApproveUnit(v).writes && Tracked(QuestContract(v), x)
    ensures Makes(QuestContract(v), Write(APPROVE_SUBMISSION, x.variable, x.kind))
  {
    var c := QuestContract(v);
    assert c.units[1] == ApproveUnit(v) && TextWrite(x.variable, x.shape, x.kind) == x;
  }

  lemma BucketRole(v: QuestVault.Variant)
    ensures REWARD_BUCKET in QuestContract(v).scalars && IsBucket(QuestContract(v), REWARD_BUCKET)
    ensures RoleIn(QuestContract(v), REWARD_BUCKET) == Some(Bucket)
  {
    BucketAndLiability(v);
    assert QuestContract(v).scalars[0] == REWARD_BUCKET;
  }

  lemma ReservedRole(v: QuestVault.Variant)
    ensures TOTAL_RESERVED in QuestContract(v).scalars
    ensures RoleIn(QuestContract(v), TOTAL_RESERVED) == Some(Counter)
  {
    OthersAreCounters(v);
    assert QuestContract(v).scalars[1] == TOTAL_RESERVED;
  }

  lemma OwedRole()
    ensures TOTAL_OWED in QuestContract(QuestVault.AggregateCounter).scalars
    ensures RoleIn(QuestContract(QuestVault.AggregateCounter), TOTAL_OWED) == Some(Counter)
  {
    OthersAreCounters(QuestVault.AggregateCounter);
    assert QuestContract(QuestVault.AggregateCounter).scalars[3] == TOTAL_OWED;
  }

  lemma ClaimableRole(v: QuestVault.Variant)
    ensures CLAIMABLE_REWARDS in QuestContract(v).mappings && IsLiability(QuestContract(v), CLAIMABLE_REWARDS)
    ensures RoleIn(QuestContract(v), CLAIMABLE_REWARDS) == Some(Liability)
  {
    BucketAndLiability(v);
  }

  lemma RemedyTracked(v: QuestVault.Variant, t: Table)
    requires v != QuestVault.Broken && Describes(t, QuestContract(v))
    ensures exists w :: Tracks(t, APPROVE_SUBMISSION, w)
  {
    var remedy := Remedy(v)[0];
    if v.DebitAtApproval? {
      BucketRole(v);
    } else {
      OwedRole();
    }
    assert remedy in ApproveUnit(v).writes;
    ApprovalMakesAll(v, remedy);
    assert Tracks(t, APPROVE_SUBMISSION, Write(APPROVE_SUBMISSION, remedy.variable, remedy.kind));
  }

  /** Either remedy silences the scan. */
  lemma RemediesScanClean(v: QuestVault.Variant, t: Table)
    requires v != QuestVault.Broken && Describes(t, QuestContract(v))
    ensures Silent(t)
  {
    RemedyTracked(v, t);
    forall l, f | l in NamesOf(t, Liability) ensures !Flagged(t, l, f) {
      if Write(f, l, Credit) in t.writes {
        ApprovalMakes(v, Write(f, l, Credit));
      }
    }
  }

  lemma BrokenApprovalUntracked(t: Table, w: Write)
    requires Describes(t, QuestContract(QuestVault.Broken))
    ensures !Tracks(t, APPROVE_SUBMISSION, w)
  {
    if w in t.writes && w.fn == APPROVE_SUBMISSION {
      ApprovalMakes(QuestVault.Broken, w);
      ClaimableRole(QuestVault.Broken);
      ReservedRole(QuestVault.Broken);
    }
  }

  lemma BrokenApprovalWrites(t: Table)
    requires Describes(t, QuestContract(QuestVault.Broken))
    ensures Write(APPROVE_SUBMISSION, CLAIMABLE_REWARDS, Credit) in t.writes
    ensures Releases(t, APPROVE_SUBMISSION, Write(APPROVE_SUBMISSION, TOTAL_RESERVED, Debit))
  {
    ClaimableRole(QuestVault.Broken);
    ReservedRole(QuestVault.Broken);
    var approve := ApproveUnit(QuestVault.Broken).writes;
    assert approve[0] in approve && approve[1] in approve;
    ApprovalMakesAll(QuestVault.Broken, approve[0]);
    ApprovalMakesAll(QuestVault.Broken, approve[1]);
  }

  /** The scan reports the broken approval, and only it. */
  lemma BrokenIsReported(t: Table, liability: Name, fn: Name)
    requires Describes(t, QuestContract(QuestVault.Broken))
    ensures liability in NamesOf(t, Liability) && Flagged(t, liability, fn)
            <==> liability == CLAIMABLE_REWARDS && fn == APPROVE_SUBMISSION
  {
    ClaimableRole(QuestVault.Broken);
    if liability == CLAIMABLE_REWARDS && fn == APPROVE_SUBMISSION {
      BucketRole(QuestVault.Broken);
      BrokenApprovalWrites(t);
      forall w ensures !Tracks(t, APPROVE_SUBMISSION, w) {
        BrokenApprovalUntracked(t, w);
      }
    } else if liability in NamesOf(t, Liability) && Write(fn, liability, Credit) in t.writes {
      assert liability in QuestContract(QuestVault.Broken).mappings;
      ApprovalMakes(QuestVault.Broken, Write(fn, liability, Credit));
    }
  }

  // ---- The staking contract ----

  lemma StakingUnitWrites(i: nat, x: TextWrite)
    requires i < |STAKING_CONTRACT.units| && x in STAKING_CONTRACT.units[i].writes
    ensures x.kind == Debit ==> x.variable == REWARD_BUCKET
  {
  }

  lemma StakingDebits(w: Write)
    requires Makes(STAKING_CONTRACT, w) && w.kind == Debit
    ensures w.variable == REWARD_BUCKET && RoleIn(STAKING_CONTRACT, REWARD_BUCKET) == Some(Bucket)
  {
    var c := STAKING_CONTRACT;
    var i, shape :| && 0 <= i < |c.units| && c.units[i].fn == w.fn
                    && TextWrite(w.variable, shape, w.kind) in c.units[i].writes
                    && Tracked(c, TextWrite(w.variable, shape, w.kind));
    StakingUnitWrites(i, TextWrite(w.variable, shape, w.kind));
    var receive, claim := c.units[3], c.units[2];
    assert receive in c.units && receive.fn == RECEIVE && Credits(receive, REWARD_BUCKET, Scalar);
    assert claim in c.units && DebitsOrClears(claim, REWARD_BUCKET, Scalar);
    assert c.scalars[0] == REWARD_BUCKET;
  }

  lemma StakingBalance(u: CodeUnit, b: Balance)
    requires u in STAKING_CONTRACT.units && b in u.balances
    ensures b.subtracted == [AMOUNT]
  {
  }

  lemma {:induction false} RoleOfNone(vs: seq<Variable>, n: Name)
    requires RoleOf(vs, n) == None
    ensures forall v :: v in vs ==> v.name != n
  {
    if vs != [] {
      RoleOfNone(vs[1..], n);
      assert forall v :: v in vs <==> v == vs[0] || v in vs[1..];
    }
  }

  lemma AmountIsLocal()
    ensures RoleIn(STAKING_CONTRACT, AMOUNT) == None
  {
  }

  /** The only balance checked is against the claimed amount, a local variable, which is no allocation. */
  lemma StakingAllocatesNothing(t: Table, liability: Name, fn: Name, e: FreeBalance)
    requires Describes(t, STAKING_CONTRACT)
    ensures !Allocates(t, liability, fn, e)
  {
    if e in t.freeBalance {
      var u :| u in STAKING_CONTRACT.units && e.fn == u.fn && Balance(e.bucket, e.subtracted) in u.balances;
      StakingBalance(u, Balance(e.bucket, e.subtracted));
      AmountIsLocal();
      RoleOfNone(t.variables, AMOUNT);
    }
  }

  /** The index-based vault credits without debiting the bucket, and is left alone. */
  lemma StakingScansClean(t: Table)
    requires Describes(t, STAKING_CONTRACT)
    ensures Silent(t)
  {
    forall l, f | l in NamesOf(t, Liability) ensures !Flagged(t, l, f) {
      forall w ensures !Releases(t, f, w) {
        if w in t.writes && w.kind == Debit {
          StakingDebits(w);
        }
      }
      forall e ensures !Allocates(t, l, f, e) {
        StakingAllocatesNothing(t, l, f, e);
      }
    }
  }

  // ---- Verdicts and ledgers agree on the fixture ----

  /** Users are never owed more than the vault really holds. */
  ghost predicate AlwaysCovered(v: QuestVault.Variant) {
    forall manager, calls ::
      var s := QuestVault.Run(v, manager, QuestVault.EMPTY, calls);
      s.Owed() <= s.Cash()
  }

  /** The scan is silent on a quest contract exactly when its debts are covered on every run. */
  lemma VerdictMatchesLedger(v: QuestVault.Variant)
    ensures Silent(BuildMoneyFlowTable(QuestContract(v))) <==> AlwaysCovered(v)
  {
    var t := BuildMoneyFlowTable(QuestContract(v));
    BuiltTableDescribes(QuestContract(v));
    match v
    case Broken =>
      BrokenIsReported(t, CLAIMABLE_REWARDS, APPROVE_SUBMISSION);
      BrokenIsUncovered();
    case _ =>
      RemediesScanClean(v, t);
      forall manager, calls
        ensures var s := QuestVault.Run(v, manager, QuestVault.EMPTY, calls); s.Owed() <= s.Cash()
      {
        QuestAccounting.RunKeepsLaws(v, manager, calls);
      }
  }

  lemma BrokenIsUncovered()
    ensures !AlwaysCovered(QuestVault.Broken)
  {
    var one: Uint256.uint256 := 1;
    QuestInsolvency.FirstCohortIsRefused(0, one, one);
    var s := QuestVault.Run(QuestVault.Broken, 0, QuestVault.EMPTY, QuestInsolvency.DoublePromise(0, one, one));
    SumAtLeast(s.claimable, QuestVault.Entry(0, 0));
  }
}
