# Verified model of the vault generation server

The server turns a prompt into a Solidity vault. These modules model its deterministic core and prove what that
core promises over every input and every run.

- **Vault ledgers** (`QuestVault`, `QuestAccounting`, `QuestSolvency`, `QuestInsolvency`, `QuestAuthority`,
  `StakingVault`, `StakingSolvency`, `StakingExact`). The four fixture contracts as classes over 256-bit checked arithmetic: a call that would
  overflow or underflow reverts and changes nothing. Histories of deposits, approvals and payments stand beside the
  storage. `Submit` stands for the submission entry point the fixture trims away.
- **Solvency scanner** (`LedgerScan`, `MoneyFlow`, `LedgerTerms`, `LedgerVerdicts`). The table the scanner reads, how
  it is built from extracted writes, the scan itself, and its verdicts on the fixture contracts compared with their
  ledgers.
- **Repair pipeline** (`RetryHistory`, `PipelineModel`, `Pipeline`, `PipelineTerms`, `PipelineRuns`). The main, test-fix and
  critic-repair loops as one class. Model, compiler, scanners, artifact reader, suite generator, fork runs and critic
  are arbitrary functions of the pass number; every value carries the pass whose draft it was computed from. A fork
  run names the draft it judges, the draft its suite was written for and the draft whose bytecode it deploys.
- **Run protocol** (`RunProtocol`, `RunSafety`, `RunContents`, `RunManager`). Producer, subscribers, replay buffer and persists
  as a state machine whose steps are the code between two awaits; the run manager and the in-memory store are
  proved to take exactly those steps.
- **Source editor** (`SolidityText`, `FunctionBodies`, `SourceEditing`, `NestedFunctions`, `SourceLoops`,
  `SourcePatches`, `ReceiveBody`, `PlainText`, `PlainReading`). Header patterns and brace counting on characters, the lens of reading and replacing
  function bodies, declaration text and the `receive()` body.
- **Source patches** (`Patterns`, `FunctionHeads`, `Insertions`, `PatchTexts`, `EditEffects`, `DisclosurePatch`,
  `SourceParts`, `SourceTests`, `SourceEdits`, `EnterModifier`, `PatchSteps`, `CommonPatches`, `PatchSettling`,
  `PatchIdempotence`, `ReceiveInsertion`, `ReceiveHeads`, `ReceiveKept`, `ReceiveEdited`, `PatchTests`, `PatchPlaces`,
  `PatchSequence`, `PatchReadback`, `PatchHeaders`). The patch sequence with its own tests and texts, as edits of the
  text. What each step tests, where it writes and what it writes is stated for any text (`PatchSequence.SequenceIs`).
  The theorems about idempotence, `receive()` and what reads back are for well-formed source
  (`SourceParts.WellFormed`): text outside functions and closed functions in any order, where no function starts inside
  another or in the text between, headers hold no quote, semicolon or second brace, and a description is closed in the
  part it opens in and does not end in `address[] entrants` (which becomes a declaration once the inserted text starts
  with a semicolon).
  `PatchSettling.KeywordsEnd` asks that `external` in the header of `enter` is a whole word: in `externals.push` the
  rewritten header would read `nonReentrants.push`.
- **Smaller protocols** (`NonceStore`, `NonceTerms`, `RetryingStream`, `DesignDefaults`, `DesignTerms`, `UiSections`,
  `UiTerms`).

The modules called `...Terms`, `...Exact`, `...Authority`, `...Contents`, `Plain...` and the last five of the patches say
what the specification functions compute without naming them: in terms of characters and texts, of the calls and steps
of a run, or of what the tools of the pipeline answered.

## What turned out false, and when it holds

- The broken vault (`QuestInsolvency.FirstCohortIsRefused`) is sound exactly on runs that never fund a quest with
  money already owed (`QuestSolvency.BrokenSoundIff`).
- Debiting the bucket at approval, as the fixture writes it, debits every payment twice: cash always covers the
  debts, but a claim goes through exactly when the bucket can be debited again (`QuestSolvency.DebitClaimIff`), and
  a vault funded for one cohort refuses all of it (`QuestInsolvency.DebitAtApprovalRefusesAll`).
- The staking vault does not refresh the reward debt when it adds a stake, so a late staker can take a whole
  distribution (`StakingSolvency.LateStakerTakesAll`). Total stake times index stays covered exactly on runs in which
  no stake reaches for past rewards (`StakingSolvency.RunBackedIff`); for a single stake `Overreaches` is that coverage
  of the next state spelled out. Solvency itself, which flooring makes weaker than coverage, is characterised exactly
  per stake only (`StakingSolvency.StakeSolventIff`).
- `extractFunctionChunks` promises top-level functions but resumes right after each header, so it lists a function
  declared inside another beside it (`NestedFunctions.NestedIsListed`). All listed functions are top-level exactly when
  no header starts inside the body of a listed one (`NestedFunctions.TopLevelIff`).
- A declaration without a body swallows its successor: reading and replacing then look at different declarations
  (`SourceEditing.ReadingAndReplacingDisagree`), and agree exactly when nothing is swallowed
  (`SourceEditing.SameTargetIff`).
- Replacing a body can rewrite `receive()` (`ReceiveBody.BodilessHeaderExposesReceive`); it leaves `receive()` alone
  exactly when that body does not enclose the replaced one (`ReceiveBody.ReceiveKeptIff`).
- The patch sequence can rewrite `receive()` on well-formed source too (`ReceiveEdited.ReceiveIsRewritten`). It leaves
  its body unchanged exactly when neither the first array declaration the cap goes behind nor the first description the
  disclosure goes into ends inside it (`ReceiveKept.ReceiveIsKeptIff`).
- `applyCommonCodegenPatches` is not idempotent, not even on well-formed source (`PatchIdempotence.PatchedTwice`): the
  disclosure patch tests the schema function but edits the first description in the text
  (`DisclosurePatch.DisclosedTwice`). All other patches have nothing left to do the second time, so the sequence is
  idempotent exactly when its disclosure is (`PatchIdempotence.CommonIdempotentIff`): when the disclosure does not
  fire, finds no description, or edits one inside the schema function, or edits that function's header so that the
  body read afterwards needs no disclosure (`PatchIdempotence.CommonIdempotentWhen`,
  `DisclosurePatch.DiscloseIdempotentIff`).
- A draft that would pass its own suite can be lost (`PipelineRuns.LostToOldSuite`): with an unchanged interface the
  gate runs the suite written for an earlier draft. The suite run is the draft's own exactly when the gate regenerates
  it (`PipelineModel.PreparedRun`). What counts is the fork runs: a result is deployable exactly when one of them passed
  (`PipelineModel.SomeRunPassed`), so a draft is safe when it passes under every suite the gate may choose
  (`PipelineModel.CertainIsKept`).
- Tests can pass over an older draft's bytecode (`PipelineRuns.StaleBytecodePasses`): a fork run deploys the draft it
  judges exactly when that draft's creation bytecode could be read, and without it a run still takes place exactly when
  the kept suite has the current interface and some suite is in use (`Pipeline.CodegenRun.RunIntegrationGate`).
- A model call after the first need not show the draft of the pass before it (`PipelineRuns.FixWithoutDraft`). Only the
  first call of the test-fix loop can be such a call, and it is one exactly when the main loop stopped without leaving
  a fix prompt (`PipelineModel.Conversed`).
- The pipeline announces at most 20 passes and can take 23 (`PipelineRuns.TwentyThreePasses`): repairs are passes too,
  so the total exceeds 20 exactly when there are more repairs than drafting passes left unused
  (`Pipeline.RunCodegenPipeline`).
- The per-rule budget of four is described in passes but counts findings, so the first draft can spend it
  (`PipelineRuns.GivesUpOnFirstDraft`). The two counts agree exactly when no draft has two findings of the rule
  (`PipelineRuns.FindingsArePassesIff`).
- A repair call need not show the draft it asks to repair (`PipelineRuns.RepairShowsRejected`): it shows that draft
  exactly when it is the first repair or the one before it was accepted, and otherwise the rejected draft
  (`PipelineModel.RepairsShown`).
- A run can spend all its passes and not be reported by `autoFixExhausted` (`PipelineRuns.SpentWithoutReport`). With
  working tooling and failing tests every run has spent its passes or given up, and it is reported exactly when its
  last draft compiles or the verdict left standing is a failure: that of the last draft that compiled, failed for its
  size when the artifact of the last draft past the scanner is too large and that was not yet reported
  (`PipelineModel.SpentOrGaveUp`, `PipelineModel.Standing`).

## Model

| member | source | states |
|---|---|---|
| QuestVault.Vault.Receive | server/fixtures/quest-proof-reward-vault.ts:42-45 | a deposit credits the bucket by its value and nothing else, a zero deposit changes nothing, overflow reverts |
| QuestVault.Vault.CreateQuest | server/fixtures/quest-proof-reward-vault.ts:49-63 | the manager's quest reserves its whole budget out of the unallocated bucket, in every variant; anything else reverts unchanged |
| QuestVault.Vault.ApproveSubmission | server/fixtures/quest-proof-reward-vault.ts:90-114 | an approval moves one reward from reserved to claimable with the variant's own debit or counter; a refused one changes nothing |
| QuestVault.Vault.ClaimReward | server/fixtures/quest-proof-reward-vault.ts:67-75 | a claim clears the caller's slot, debits the bucket and pays, or reverts unchanged, also when the transfer fails |
| QuestVault.RunAppend | server/fixtures/quest-proof-reward-vault.ts:42-75 | runs compose, reverts included |
| QuestAccounting.ApproveKeepsBooks | server/fixtures/quest-proof-reward-vault.ts:194-204 | an approval keeps reserved equal to the quests' outstanding budgets and raises what users are owed by exactly the reward |
| QuestAccounting.ClaimKeepsBooks | server/fixtures/quest-proof-reward-vault.ts:206-214 | a possible claim is by an approved user owed exactly the reward, and lowers the debt by exactly that |
| QuestAccounting.StepKeepsLaws | server/fixtures/quest-proof-reward-vault.ts:42-114 | every call keeps the books and the variant's cash law, whoever sends it |
| QuestAccounting.RunKeepsLaws | server/fixtures/quest-proof-reward-vault.ts:175-214 | on every run reserved equals the sum of outstanding budgets, and each variant's bucket, debts and counter stand in their fixed relation to deposits minus payouts |
| QuestSolvency.NeverOverpaid | server/fixtures/quest-proof-reward-vault.ts:66-75 | on every run of every variant, paid plus claimable equals approved for each user and quest |
| QuestSolvency.AggregateClaimIff | server/fixtures/quest-proof-reward-vault.ts:206-214 | in the aggregate-counter vault a claim succeeds exactly when the user is approved, the reward is non-zero and the transfer works, and pays exactly the reward |
| QuestSolvency.ApprovedIsNeverLost | server/fixtures/quest-proof-reward-vault.ts:194-214 | whatever anyone does after an approval, the user has been paid the approved reward once or can be paid it now |
| QuestSolvency.ClaimsKeepGap | server/fixtures/quest-proof-reward-vault.ts:67-75 | a run of claims takes the same amount out of bucket and debt |
| QuestSolvency.AllPaidIff | server/fixtures/quest-proof-reward-vault.ts:66-75 | in every variant and order, all claimants are paid if and only if the bucket covers the debt |
| QuestSolvency.AggregatePaysEveryone | server/fixtures/quest-proof-reward-vault.ts:174-214 | the aggregate-counter vault pays every claimant in any order and ends owing nothing |
| QuestSolvency.BrokenStepTracksDebt | server/fixtures/quest-proof-reward-vault.ts:89-100 | a step of the broken vault loses coverage exactly when it funds a quest with owed money, and that is exactly where the repaired vault behaves differently |
| QuestSolvency.BrokenSoundIff | server/fixtures/quest-proof-reward-vault.ts:48-100 | over whole runs the broken vault stays covered exactly when no prefix overcommits, and then runs like the repaired one |
| QuestSolvency.DebitStrandsPayments | server/fixtures/quest-proof-reward-vault.ts:103-114 | with the debit at approval, cash equals bucket plus debts plus everything already paid |
| QuestSolvency.DebitClaimIff | server/fixtures/quest-proof-reward-vault.ts:67-75 | there a claim succeeds exactly when the bucket still holds the amount a second time |
| QuestInsolvency.FirstCohortIsRefused | server/fixtures/quest-proof-reward-vault.ts:88-100 | for every reward and cohort size, a run of the broken vault leaves each user of the first cohort owed and refused, with no cash left |
| QuestInsolvency.DebitAtApprovalRefusesAll | server/fixtures/quest-proof-reward-vault.ts:102-114 | a vault funded for exactly one cohort refuses every approved user while holding the whole budget |
| QuestAuthority.OnlyTheManagerPays | server/fixtures/quest-proof-reward-vault.ts:66-114 | on every run of every variant, whoever is owed, approved or paid anything submitted and was then approved by a call of the manager, and whoever was paid claimed after that |
| QuestAuthority.QuestsAreTheManagers | server/fixtures/quest-proof-reward-vault.ts:48-63 | on every run every quest is open and has the terms of some call of the manager |
| QuestAuthority.DepositsAreReceived | server/fixtures/quest-proof-reward-vault.ts:42-45 | on every run the deposits are those of the deposit calls that fit the bucket |
| QuestAuthority.CreateIff | server/fixtures/quest-proof-reward-vault.ts:48-63 | in a reachable vault a quest is created exactly by the manager and within what is neither reserved nor, with the counter, owed; no other arithmetic stands in its way |
| QuestAuthority.ApproveIff | server/fixtures/quest-proof-reward-vault.ts:89-114 | in a reachable vault an approval goes through exactly for the manager, a submitted user and a quest with approvals left, and in the debiting variant with the reward in the bucket |
| QuestAuthority.ClaimIff | server/fixtures/quest-proof-reward-vault.ts:66-75 | in a reachable vault a claim goes through exactly when something is claimable, the bucket holds it and the transfer works |
| StakingVault.Vault.Receive | server/fixtures/quest-proof-reward-vault.ts:134-138 | a deposit credits the bucket and moves the index by the floored quotient when someone stakes |
| StakingVault.Vault.Settle | server/fixtures/quest-proof-reward-vault.ts:140-145 | settling books the floored accrual above the recorded debt and records the new debt |
| StakingVault.Vault.Stake | server/fixtures/quest-proof-reward-vault.ts:147-151 | staking settles, then adds the amount and leaves the debt as settled |
| StakingVault.Vault.ClaimRewards | server/fixtures/quest-proof-reward-vault.ts:153-161 | claiming settles, pays the pending amount out of the bucket, or reverts with the settlement undone |
| StakingSolvency.RunKeepsBooks | server/fixtures/quest-proof-reward-vault.ts:134-161 | on every run recorded debts stay at or below accruals and bucket plus payments equals deposits |
| StakingSolvency.IndexGrows | server/fixtures/quest-proof-reward-vault.ts:134-138 | the index never falls along a run |
| StakingSolvency.SettleNeverUnderflows | server/fixtures/quest-proof-reward-vault.ts:140-145 | on every run settling fails only by overflow |
| StakingSolvency.FloorsSumBelow | server/fixtures/quest-proof-reward-vault.ts:141 | flooring each user's share never creates value, for any number of users |
| StakingSolvency.BackedIsSolvent | server/fixtures/quest-proof-reward-vault.ts:134-161 | when total stake times index is covered by deposits, pending, unsettled and paid rewards together are |
| StakingSolvency.SolventClaimIff | server/fixtures/quest-proof-reward-vault.ts:153-161 | in a solvent vault the balance guard never refuses, and a claim pays exactly the entitlement |
| StakingSolvency.StepBackedIff | server/fixtures/quest-proof-reward-vault.ts:134-151 | a step keeps shares covered exactly when it is not a stake reaching for uncovered past rewards |
| StakingSolvency.RunBackedIff | server/fixtures/quest-proof-reward-vault.ts:134-161 | shares stay covered along a run exactly when no stake overreaches |
| StakingSolvency.EarlyStakersAreCovered | server/fixtures/quest-proof-reward-vault.ts:134-161 | if all stakes precede the first distribution, everything accrued is covered by deposits and every entitlement by the bucket |
| StakingSolvency.StakeSolventIff | server/fixtures/quest-proof-reward-vault.ts:147-151 | a stake adds to the liabilities exactly the newcomer's floored share of past rewards |
| StakingSolvency.LateStakerTakesAll | server/fixtures/quest-proof-reward-vault.ts:147-151 | for every distribution there is a run where a late staker is paid all of it and the early one nothing |
| StakingExact.DepositMovesIndex | server/fixtures/quest-proof-reward-vault.ts:134-138 | an accepted deposit moves the index by the largest d with total stake times d at most value times 1e18, and changes nothing but bucket, deposits and index |
| StakingExact.DepositIff | server/fixtures/quest-proof-reward-vault.ts:134-138 | on every run a deposit is refused exactly when bucket, product or index would not fit a word, the index moved by the largest d the deposit covers |
| StakingExact.StakeIff | server/fixtures/quest-proof-reward-vault.ts:147-151 | on every run, when a stake goes through, and that it moves one position and the total and nobody else's entitlement |
| StakingExact.ClaimIff | server/fixtures/quest-proof-reward-vault.ts:153-161 | on every run, when a claim goes through, and that it pays the caller's whole entitlement once and nobody else |
| StakingExact.LittleIsLost | server/fixtures/quest-proof-reward-vault.ts:134-161 | on every run what all users accrued falls short of the rewards deposited for them by at most one unit per staker and, in units of 1e18, one total stake per deposit |
| StakingExact.EarlyStakersGetAll | server/fixtures/quest-proof-reward-vault.ts:134-161 | with stakes before rewards it also never exceeds them |
| LedgerScan.ScanLedgerSolvency | server/money-flow.ts:272-331 | one finding per declared liability and crediting function meeting the stated condition, each backed by the table, and nothing else; in the order of the liabilities and of their first credits |
| LedgerScan.ScanLiability | server/money-flow.ts:279-330 | the same for one liability |
| LedgerScan.Inspect | server/money-flow.ts:283-329 | a finding exactly when the function neither debits a bucket nor credits a counter while money is released or allocated elsewhere; it names the first bucket, the released counters and the first such allocation |
| LedgerScan.RemedyClearsOnlyItsFunction | server/money-flow.ts:285-288 | adding a bucket debit or counter credit anywhere clears exactly its function and adds no finding |
| LedgerScan.CounterDebitNeverClears | server/money-flow.ts:300-306 | adding a counter debit removes no finding and touches no other function |
| MoneyFlow.RolesInTable | server/money-flow.ts:211-238 | the table's roles are those of the contract: spent and credited by receive(), or credited and paid out |
| MoneyFlow.WritesInTable | server/money-flow.ts:240-245 | a write is in the table exactly when some function makes it to a tracked variable |
| MoneyFlow.BalancesInTable | server/money-flow.ts:247 | the table holds exactly the free-balance expressions over buckets |
| MoneyFlow.LiabilitiesInTable | server/money-flow.ts:217-227 | the scanned liabilities are exactly the credited and paid-out mappings |
| MoneyFlow.BuiltTableDescribes | server/money-flow.ts:211-248 | all four together: the built table says what the extracted declarations, writes and balances say |
| LedgerTerms.ScanIs | server/money-flow.ts:211-331 | end to end: the scan of a contract's table reports a credit exactly when it is unsound in the contract's own writes, transfers and balance expressions |
| LedgerTerms.VariablesAre | server/money-flow.ts:229-238 | the table lists the scalars in order of declaration, each with its role, and then the mappings that owe money in theirs |
| LedgerTerms.WritesByUnit | server/money-flow.ts:240-245 | its writes come in the order of the code units that make them |
| LedgerTerms.BalancesByUnit | server/money-flow.ts:175-205 | and so do its free balances |
| LedgerVerdicts.BrokenIsReported | server/fixtures/quest-proof-reward-vault.ts:88-100 | on the broken contract the scan reports approveSubmission crediting the claimable mapping, and only that |
| LedgerVerdicts.RemediesScanClean | server/fixtures/quest-proof-reward-vault.ts:102-115 | it is silent on both repaired contracts |
| LedgerVerdicts.StakingScansClean | server/fixtures/quest-proof-reward-vault.ts:117-172 | it is silent on the staking contract |
| LedgerVerdicts.VerdictMatchesLedger | server/money-flow.ts:272-331 | on the quest contracts the scan is silent exactly when debts are covered by real cash on every run |
| RetryHistory.PruneKeepsLatest | server/codegen.ts:1839-1868 | pruning keeps the head, the latest draft and everything after it, at most one note, and no other draft |
| RetryHistory.PruneNotes | server/codegen.ts:1839-1868 | a list is pruned exactly when something stands between head and latest draft: to the head, a note with the number of drafts dropped and the failures recalled, and everything from that draft on |
| RetryHistory.RecalledIs | server/codegen.ts:1857-1861 | recalled are the entries of the four failure phases in order, all but the newest, at most the last eight of them |
| RetryHistory.PruneAfterDraft | server/codegen.ts:2479-2483 | a draft and its fix prompt prune to a list that starts with the head, ends with a user message and adds at most three |
| RetryHistory.PruneAfterPrompt | server/codegen.ts:2672-2683 | a fresh prompt after a short list stays within head length plus four |
| Pipeline.CodegenRun.CountBlocks | server/codegen.ts:2549-2578 | every blocking finding is counted once, and the pass is exhausted exactly when a rule reached four |
| Pipeline.CodegenRun.BuildDraft | server/codegen.ts:2511-2619 | compile, scan, read and rescue end in the verdict of the draft, with nothing read past a failed stage; source and verdict left behind are those of the last draft that compiled, the artifact that of the last one past the scanner; the fix log gets one entry of the phase of the failure or of the rescue |
| PipelineModel.PreparedIsFiled | server/codegen.ts:2394-2430 | preparing a suite keeps every suite and bytecode file the work of a draft of its name, and the reusable suite one written for its interface |
| PipelineModel.PreparedRun | server/codegen.ts:2394-2438 | the run started deploys the draft it judges exactly when its bytecode was read; its suite is its own exactly when regenerated, and was written for a draft of the same interface unless the bytecode is missing and the suite in use is another name's; without bytecode there is a run exactly when the kept suite matches and one is in use |
| PipelineModel.CertainIsKept | server/codegen.ts:2394-2451 | a draft that builds and passes under its own suite and under every earlier suite of its interface ends with passing tests |
| Pipeline.CodegenRun.PrepareSuite | server/codegen.ts:2394-2430 | the branches of the gate in front of the run: reuse with refreshed bytecode, regenerate, or run what is there |
| Pipeline.CodegenRun.RunIntegrationGate | server/codegen.ts:2394-2451 | the verdict is that of the prepared suite on the bytecode beside it; the run deploys the current draft exactly when its bytecode was read, then under a suite of its interface; a failed generation leaves the old verdict |
| Pipeline.CodegenRun.TestDraft | server/codegen.ts:2394-2451 | every testable draft is run, every run is recorded, and a passing one makes the tests passed |
| Pipeline.CodegenRun.TestFixStalled | server/codegen.ts:2318-2323 | each fork failure is counted once and stalls exactly at its third occurrence |
| Pipeline.CodegenRun.KeepFixing | server/codegen.ts:2622-2651 | the loop goes on only within both budgets and with fewer than two generation failures in a row |
| Pipeline.CodegenRun.RequestFix | server/codegen.ts:2526-2531 | the rejected draft stays in the conversation and a fix prompt is pending behind it |
| Pipeline.CodegenRun.JudgeDraft | server/codegen.ts:2511-2653 | a draft that builds and can be tested is run; the loop goes on exactly when its tests did not pass, no budget is spent and the tooling did not fail it; the failure counted and the entries of the fix log are stated exactly |
| Pipeline.CodegenRun.RejectDraft | server/codegen.ts:2565-2588 | a draft that does not build gets a fix prompt, unless a budget is spent, which only the main loop notes again |
| Pipeline.CodegenRun.MainPass | server/codegen.ts:2478-2654 | a pass that continues leaves every rule below four, every failure below three, at most one generation failure in a row, and a fix prompt behind its draft |
| Pipeline.CodegenRun.TestFixPass | server/codegen.ts:2661-2830 | the same for the test-fix loop, whose first pass may start above one generation failure and then does not add to it; its call follows the draft before it exactly when a fix prompt was pending |
| Pipeline.CodegenRun.TryRepair | server/codegen.ts:2986-3066 | a repair is accepted exactly when it builds, scans, fits and does not lose passing tests; its record says how far it got and whether a run of it passed |
| Pipeline.CodegenRun.RepairPass | server/codegen.ts:2871-3091 | one numbered record per repair; a rejected one restores the whole snapshot and critique, passing tests stay passing, the critic's outcome is recorded as it is; its call shows the draft of the pass before it |
| Pipeline.CodegenRun.MainLoop | server/codegen.ts:2478-2654 | at most 12 passes; it leaves a fix prompt only when they are used up; it stops early exactly for passing tests, a spent budget or a draft the tooling failed; every failing run is counted but one without permissions |
| Pipeline.CodegenRun.TestFixLoop | server/codegen.ts:2661-2830 | at most 8 passes, entered exactly under its guard, with the same reasons to stop; its first call follows the last draft exactly when the main loop left a fix prompt |
| Pipeline.CodegenRun.CriticRepairLoop | server/codegen.ts:2867-3091 | repairs are numbered 1..n within the budget; each answers a reviewed critique with a blocking or high finding, and such findings remain only when the budget is used up; each record says what its draft and its runs show; the draft kept is the last accepted one, and each call shows the draft to repair exactly when the repair before it was accepted or it is the first |
| Pipeline.CodegenRun.DraftAndTest | server/codegen.ts:2478-2830 | both drafting loops together: 12 and 8 passes, no earlier stop without passing tests, a spent budget or a draft the tooling failed, and none later; drafting stops at the first passing run, gives up only on a draft that compiled, and goes on to test fixes exactly from a passing draft with failing tests |
| Pipeline.CodegenRun.Finish | server/codegen.ts:2832-3155 | critic, repairs, final size check and result: a deployable result describes one draft, repairs are numbered, and what was given up on is what was counted |
| Pipeline.CodegenRun.Conclude | server/codegen.ts:3093-3155 | the final size check keeps passing tests deployable and the result coherent |
| Pipeline.CodegenRun.EnforceSizeLimit | server/codegen.ts:3093-3099 | an oversize artifact never leaves with a passing verdict unless the size rule was already reported; nothing else is changed |
| Pipeline.RunCodegenPipeline | server/codegen.ts:2294-3155 | on every run a deployable result has source, bytecode, verdict, passing test and critique of one draft under the size limit, tested under a suite of its interface if its bytecode was read; every testable draft was run, and the result is deployable exactly when some run passed; a reviewed critique with a blocking or high finding comes with all two or three repairs, there is a repair exactly when the last draft gets past compiler and scanner to such a critique, and each record says what its draft and its runs show; budgets, numbering and message bounds hold; each call shows the draft before it, but for the one characterised; auto-fix gives up exactly when a count reached its budget, never before the last draft; drafting stops at the first passing run; the result is that of the last draft or of the last accepted repair, with `ok` exactly if that one compiles, and source, verdict and artifact of the last draft up to it that compiled and got past the scanner; the total exceeds 20 exactly with more repairs than unused drafting passes; repair calls and exhaustion exactly as stated above |
| PipelineModel.RepairsAreDue | server/critic-repair.ts:59-62 | the two repair conditions, from the critiques the repairs answer |
| PipelineModel.StoppedIsSpent | server/codegen.ts:2478-2830 | with tooling that never fails a draft, the exact reasons to stop drafting leave only passing tests or spent passes |
| PipelineTerms.BuildIs | server/codegen.ts:2511-2619 | a draft builds exactly when it compiles, no finding blocks it, and its artifact or the via-IR one fits 24,576 bytes; the second is taken only when the first does not fit and it does |
| PipelineTerms.LastOnes | server/codegen.ts:2511-2600 | whose source, verdict and artifact a result holds: the last draft that compiled, and the last nothing blocked |
| PipelineTerms.StandingIs | server/codegen.ts:3093-3099 | the verdict the drafts leave fails exactly for a blocking finding, or for a size no finding reported |
| PipelineTerms.PreparedIs | server/codegen.ts:2394-2438 | when a suite is written anew, which files a gate leaves, which suite it keeps and which it runs, in terms of names, functions and what could be written |
| PipelineTerms.SuitesAre | server/codegen.ts:2370-2385 | a suite fits a draft exactly when it could be written, for the same name and the same functions |
| PipelineTerms.BlockedCount | server/codegen.ts:2549-2556 | the rules counted are the blocking findings of the drafts that compile, each once |
| PipelineTerms.GaveUpIs | server/codegen.ts:180-190 | auto-fix gives up exactly when four findings of one rule blocked drafts, or three drafts failed alike, permission failures of the main loop not counted |
| PipelineTerms.DeployableIs | server/codegen.ts:3155-3166 | what a deployable result stands for in what the tools answered about its draft |
| PipelineTerms.LastAcceptedIs | server/codegen.ts:3069-3091 | the draft kept is the last one after which the critic ran again |
| PipelineRuns.LostToOldSuite | server/codegen.ts:2394-2451 | a run of two passes whose second draft fails under the first draft's suite and would pass under its own |
| PipelineRuns.StaleBytecodePasses | server/codegen.ts:2394-2438 | a run of two passes whose passing test deployed the first draft's bytecode under the first draft's suite |
| PipelineRuns.FixWithoutDraft | server/codegen.ts:2624-2633 | a run whose first test-fix call does not show the draft it asks to fix |
| PipelineRuns.TwentyThreePasses | server/codegen.ts:176-179 | a run of 23 passes |
| PipelineRuns.SpentWithoutReport | server/codegen.ts:3145-3153 | a run of twelve passes without passing tests, whose last draft does not compile, that is not reported as exhausted |
| PipelineRuns.RepairShowsRejected | server/codegen.ts:2882-2929 | a run whose second repair asks to change the first draft and shows the rejected second one |
| PipelineRuns.GivesUpOnFirstDraft | server/codegen.ts:2565-2577 | a run that spends the budget of a rule on its first draft |
| PipelineRuns.FindingsArePassesIff | server/codegen.ts:180-187 | findings counted equal passes blocked exactly when no draft has two findings of the rule |
| RunSafety.StepDelivers | server/run-manager.ts:111-133 | every step keeps each active listener's log since joining equal to the buffer, and everyone else's a prefix of it |
| RunSafety.StepLifecycle | server/run-manager.ts:157-200 | the control point fixes the status, how often the generator ran and which events closed the run |
| RunSafety.StatusMovesForward | server/run-manager.ts:157-199 | status only moves from pending to running to completed or failed, and a closed buffer never grows |
| RunSafety.InsertIsKept | server/chat-store.ts:241-243 | a persist finishing late lands where its event was emitted |
| RunSafety.StepKeepsHistory | server/run-manager.ts:135-155 | each non-ephemeral event is in flight, persisted or lost, and the table lists exactly the persisted ones |
| RunSafety.RunKeepsSafe | server/run-manager.ts:111-200 | all of this holds along every interleaving |
| RunSafety.ActiveListenersSeeTheBuffer | server/run-manager.ts:111-133 | on every run an active listener received exactly the events 1, 2, 3, ... since it joined, without gap or duplicate |
| RunSafety.OneTerminalEventLast | server/run-manager.ts:290-436 | the generator starts at most once and a finished run has exactly one terminal event, the last, matching its status |
| RunSafety.HistoryIsTheBuffer | server/chat-store.ts:226-243 | with no persist in flight, the listed history is the non-ephemeral buffer minus lost events, in emission order |
| RunContents.BufferIsTold | server/run-manager.ts:128-436 | on every run the buffer is the start, then exactly one event for each generator event but the results, in order, with its own type and text, then the closing events: of the last result, else of the thrown, else of the last reported error, else of the default text |
| RunContents.ActiveIffSubscribed | server/run-manager.ts:111-126 | a listener is active exactly when the latest of its own steps subscribed it |
| RunContents.SilentOnceGone | server/run-manager.ts:111-133 | whoever left and does not return receives nothing more |
| RunContents.HistoryIsTold | server/chat-store.ts:226-243 | once every persist was answered the history is in emission order and holds exactly the events that are neither code deltas nor heartbeats and were stored, results without their source |
| RunContents.AwaitsAreAnswered | server/run-manager.ts:157-200 | the generator runs only after the persist of the start was answered, and a run with source completes only after that of its announcement |
| RunManager.MemoryChatStore.ListEvents | server/chat-store.ts:241-243 | filters one run and sorts by sequence number |
| RunManager.ListingIsAStableSort | server/chat-store.ts:241-243 | the listing is ordered, and events of one number keep their table order |
| RunManager.RegisteredRun.EmitStream | server/run-manager.ts:128-133 | emission numbers, buffers and delivers to every listener in one step |
| RunManager.RegisteredRun.Subscribe | server/run-manager.ts:111-126 | replay, join and, the first time, start, as one protocol step |
| RunManager.RegisteredRun.HandleCodegenEvent | server/run-manager.ts:202-288 | a generator event becomes exactly one run event of its own type and text, a result none; results and errors are remembered |
| RunManager.RegisteredRun.Settle | server/run-manager.ts:174-200 | a result wins over any error; otherwise a thrown error wins over a reported one |
| RunManager.RegisteredRun.Finish | server/run-manager.ts:403-436 | the closing events, with source announced before completion |
| RunManager.RegisteredRun.PersistDone | server/run-manager.ts:135-150 | a successful persist appends the trimmed event, a failed one is dropped |
| RunManager.Manager.Register | server/run-manager.ts:82-99 | registering adds a pending run once and leaves the others |
| RunManager.Manager.Subscribe | server/run-manager.ts:111-113 | a run unknown to this process is refused |
| SolidityText.PrefixDecides | server/solidity-parse.ts:14 | text up to the end of a header match decides every earlier match |
| FunctionBodies.FindAt | server/solidity-parse.ts:12-33 | reading returns the body of the first listed chunk of that name |
| FunctionBodies.ReplaceAt | server/codegen-patches.ts:10-23 | replacing exchanges the body after the first matching header and nothing else |
| FunctionBodies.PutGet | server/codegen-patches.ts:10-23 | reading after replacing by a balanced body returns it |
| FunctionBodies.GetPutIff | server/codegen-patches.ts:10-23 | replacing by what was read is the identity, unless the text ends at the header's brace |
| FunctionBodies.PutPut | server/codegen-patches.ts:10-23 | the second of two replacements wins |
| SourceEditing.SameTargetIff | server/solidity-parse.ts:14-28 | reading and replacing look at the same declaration exactly when no earlier header swallows it |
| SourceEditing.OneChunkChanges | server/solidity-parse.ts:12-29 | replacing a body in which no header starts by another such body leaves every other listed function its header and body |
| SourceEditing.ReadingAndReplacingDisagree | server/solidity-parse.ts:14 | a text on which replacing edits a function that reading does not list |
| NestedFunctions.ListedChunks | server/solidity-parse.ts:12-29 | the list is that of the functions at the offsets the scan stops at |
| NestedFunctions.TopLevelIff | server/solidity-parse.ts:12-29 | all listed functions are top-level exactly when no header starts inside the body of a listed one |
| NestedFunctions.NestedIsListed | server/solidity-parse.ts:12-29 | a function inside another is listed beside it |
| SourceLoops.WalkBody | server/solidity-parse.ts:18-24 | the counting loop stops one past the closing brace |
| SourceLoops.ExtractFunctionChunks | server/solidity-parse.ts:12-29 | the regex loop lists exactly the chunks |
| SourceLoops.ReplaceBody | server/codegen-patches.ts:10-23 | the patcher's loop replaces as specified |
| SourcePatches.ReadDeclarations | server/money-flow.ts:74-89 | the loop collects exactly the text at depth one |
| SourcePatches.DeclarationsKeptIff | server/money-flow.ts:74-89 | a replacement keeps the declaration text exactly when both bodies show the same text at depth one, which inside a contract they always do |
| SourcePatches.PatchIsIdempotent | server/codegen-patches.ts:96-114 | on any text where reading and replacing agree, one body patch whose result its own test recognises does nothing the second time |
| SourcePatches.GuardPatchIsIdempotent | server/codegen-patches.ts:103-111 | so does every guard chosen from the body that its own test recognises |
| SourcePatches.ResetPatchIsIdempotent | server/codegen-patches.ts:97-100 | and every text appended to a body that its own test recognises |
| ReceiveBody.ReadReceiveBody | server/money-flow.ts:92-103 | the loop returns the body after the first receive() match, or nothing |
| ReceiveBody.ReceiveKeptIff | server/money-flow.ts:92-103 | replacing one body by another, where no head of receive() starts in either, leaves the scanned receive() body unchanged exactly when it does not enclose the replaced one or nothing changes |
| ReceiveBody.BodilessHeaderExposesReceive | server/codegen-patches.ts:11-22 | a text on which patching a function rewrites receive() |
| PlainText.OccursIff | server/codegen-patches.ts:37-38 | a test of words with optional white space between them succeeds exactly where they stand so in the text |
| PlainText.StartsIff | server/codegen-patches.ts:42-65 | a pattern matches exactly the first characters of a text that are its words, with white space where it asks for it |
| PlainReading.HeaderIff | server/solidity-parse.ts:14 | a header is matched exactly where `function`, a name, parentheses and the first brace behind them stand |
| PlainReading.BodyIsNested | server/solidity-parse.ts:18-26 | the body read is the text with its braces nested up to the one that closes it |
| PlainReading.FirstListed | server/solidity-parse.ts:12-29 | the first function listed is that of the first header in the text, and listing goes on right behind that header |
| PlainReading.ReadFirst | server/solidity-parse.ts:31-33 | reading takes the first listed function of the name |
| PlainReading.ReplacedIs | server/codegen-patches.ts:10-23 | replacing exchanges the nested text behind the first header of the name, and of a body never closed keeps the last character only |
| PlainReading.ReplacedNowhere | server/codegen-patches.ts:10-13 | without such a header it changes nothing |
| PlainReading.DeclarationTextIs | server/money-flow.ts:74-89 | a character is declaration text exactly when it is no brace and one more brace is opened than closed in front of it |
| PlainReading.ReceiveIff | server/money-flow.ts:93 | a head of receive() is matched exactly where its words and parentheses stand up to a brace |
| PlainReading.FirstReceive | server/money-flow.ts:92-103 | the body of receive() is the one behind its first head |
| DisclosurePatch.FirstDescriptionMoves | server/codegen-patches.ts:74-77 | after the edit the first description is the same one, its closing quote moved behind the inserted text |
| DisclosurePatch.SchemaAfterEdit | server/solidity-parse.ts:36-48 | an edit before the schema function only moves it and creates no other header of that name |
| DisclosurePatch.FiresAgainIff | server/codegen-patches.ts:70-73 | after it fired on any text, the patch fires again exactly when it edited outside the schema body and the body read afterwards still needs a disclosure |
| DisclosurePatch.SameLottery | server/codegen-patches.ts:70 | inserting the disclosure at a quote changes neither test for a lottery |
| DisclosurePatch.HeaderEditKeepsBody | server/solidity-parse.ts:36-48 | an edit in a schema header whose parameters hold no brace leaves the body read as it was |
| DisclosurePatch.DiscloseIdempotentIff | server/codegen-patches.ts:69-78 | on every text the disclosure patch is idempotent exactly when it does not fire, finds no description, edits one in the schema body, or edits the schema header so that the body read afterwards needs no disclosure |
| DisclosurePatch.DisclosedTwice | server/codegen-patches.ts:69-78 | a lottery with its description outside the schema function, to which the disclosure is added twice |
| SourceParts.ChunksOfRender | server/solidity-parse.ts:12-29 | the functions listed in well-formed source are its parts with their headers and bodies |
| SourceParts.ReplaceInRender | server/codegen-patches.ts:10-23 | replacing a body in well-formed source exchanges it in the first part of that name |
| SourceTests.FoundInRender | server/codegen-patches.ts:37-38 | a whole-text test without braces succeeds exactly when it succeeds in a part |
| SourceTests.FunctionTest | server/codegen-patches.ts:37 | the test for a function by name succeeds exactly when a part declares it |
| SourceEdits.InsertInRender | server/codegen-patches.ts:42-48 | inserting at the first match of the text is inserting in the first part that has one |
| EnterModifier.ModifyRender | server/codegen-patches.ts:62-66 | adding the modifier rewrites the first header of enter that lacks it and nothing else |
| EnterModifier.NewHeaderOk | server/codegen-patches.ts:65 | the rewritten header is again the header of enter, now with the modifier |
| CommonPatches.CapInRender | server/codegen-patches.ts:36-59 | the entrant cap as an insertion and a body patch on the parts |
| CommonPatches.CommonInRender | server/codegen-patches.ts:89-114 | on well-formed source the whole sequence is the sequence of steps on its parts, and its result is well-formed |
| PatchTests.ChecksAre | server/codegen-patches.ts:103-111 | a body that casts its count and bounds it nowhere gets the guard on the snapshot exactly when it mentions it, and otherwise the one on `n`, in front of its first word; any other body stays |
| PatchTests.CapsAre | server/codegen-patches.ts:50-57 | the same for the cap of `enter` |
| PatchTests.ResetsAre | server/codegen-patches.ts:96-101 | and for the fee reset behind the last word |
| PatchPlaces.InsertionIs | server/codegen-patches.ts:42-77 | an insertion goes to the first place of its kind: behind the array of entrants, or before the closing quote of a description |
| PatchPlaces.AddingIs | server/codegen-patches.ts:65 | the modifier exchanges the first head of `enter` that only white space separates from `external` and no modifier follows |
| PatchSequence.SaysIff | server/codegen-patches.ts:73 | a schema discloses exactly when it names an AI provider, oracle or selection nearby, or Flap AI, in upper or lower case |
| PatchSequence.SchemaIs | server/solidity-parse.ts:36-48 | the schema's text is the nested text behind the first header of its function |
| PatchSequence.SequenceIs | server/codegen-patches.ts:36-114 | on any text the sequence is these six steps in this order, each with its tests, its place and its text written out |
| PatchReadback.GuardsReadBack | server/codegen-patches.ts:96-111 | after the sequence, well-formed source reads back with the guards of the two draw functions and the fee reset as stated, and every other function as the disclosure left it |
| PatchReadback.BodiesReadBack | server/codegen-patches.ts:89-114 | and so from the original text, `enter` with its cap, for bodies in which nothing is declared or described |
| PatchHeaders.HeadersReadBack | server/codegen-patches.ts:62-66 | and with its names and headers, but for the first open header of `enter` when the capped text needs the modifier |
| PatchSettling.CapSettles | server/codegen-patches.ts:36-59 | after the entrant cap there is nothing left to cap |
| PatchSettling.CapStays | server/codegen-patches.ts:89-114 | the later patches bring it nothing to do |
| PatchSettling.CapStaysModified | server/codegen-patches.ts:62-66 | neither does the modifier |
| PatchIdempotence.CommonSettles | server/codegen-patches.ts:89-114 | after the sequence no patch but the disclosure has anything to do |
| PatchIdempotence.CommonIdempotentIff | server/codegen-patches.ts:89-114 | applying the sequence again only discloses, and changes nothing exactly when disclosing twice is disclosing once on the text the disclosure was applied to |
| PatchIdempotence.CommonIdempotentWhen | server/codegen-patches.ts:69-114 | which is when it does not fire there, finds no description, or edits one the schema test reads |
| PatchIdempotence.PatchedTwice | server/codegen-patches.ts:89-114 | well-formed source to which every application of the sequence adds the disclosure |
| ReceiveHeads.ReadsWhole | server/money-flow.ts:92-103 | the first whole receive() of a text is the one read, whatever follows it |
| ReceiveInsertion.InsertedReceive | server/money-flow.ts:92-103 | inserting text without braces and heads makes the body read longer by that text if the place is inside it, and otherwise leaves it and only moves its header |
| ReceiveKept.ReceiveIsKeptIff | server/codegen-patches.ts:89-114 | the sequence leaves the body of a receive() outside functions unchanged exactly when neither the cap declaration nor the disclosure is inserted into it |
| ReceiveEdited.ReceiveIsRewritten | server/codegen-patches.ts:36-48 | well-formed source into whose receive() the cap is inserted |
| ReceiveKept.NoReceiveAppears | server/codegen-patches.ts:89-114 | it brings no receive() to source without one |
| NonceStore.Store.PrunePendingNonces | server/auth.ts:51-60 | expired nonces go, then the oldest until one slot is free |
| NonceStore.Store.IssueNonce | server/auth.ts:68-77 | pruning, then a nonce that expires five minutes later |
| NonceStore.Store.VerifySignIn | server/auth.ts:95-114 | the nonce is consumed whatever the outcome; success needs it pending, unexpired, for that wallet, and a valid signature |
| NonceStore.EvictionDropsEarliest | server/auth.ts:51-60 | below the cap no live nonce is dropped; at the cap those that expire first are |
| NonceStore.EveryRunIsSound | server/auth.ts:51-114 | at most 10,000 pending, ordered by expiry; each nonce reaches a signature check at most once, for its wallet, never expired |
| NonceStore.FreshNonceSurvives | server/auth.ts:51-77 | an unused, unexpired nonce survives up to 9,999 later ones |
| NonceStore.FreshNonceIsChecked | server/auth.ts:95-114 | so its wallet's first sign-in reaches the signature check exactly when it is in time |
| NonceTerms.IssueIs | server/auth.ts:51-77 | on every run issuing keeps, in order, exactly the unexpired nonces that fewer than 9,999 unexpired ones follow, and adds the new one for five minutes |
| NonceTerms.VerifyIs | server/auth.ts:95-104 | on every run a sign-in consumes its nonce and no other whatever comes of it, and is checked exactly when it was pending for that wallet and in time |
| NonceTerms.DrawnAgain | server/auth.ts:72-75 | a nonce drawn twice takes the place of the pending one |
| RetryingStream.StreamChunks | server/ai-client.ts:325-345 | the consumer sees the chunks and end of one attempt; earlier attempts yielded nothing and were retryable, at most five attempts, and the exact backoff for each number of them |
| RetryingStream.BackoffBound | server/ai-client.ts:236-237 | the total backoff after each number of retries, 44 s after four |
| DesignDefaults.GenerateDesignQuestions | server/design-questions.ts:57-165 | the questions are pushed in order |
| DesignDefaults.QuestionsAreTheOpenOnes | server/design-questions.ts:57-165 | a question is asked exactly when its decision is open |
| DesignDefaults.DesignQuestionGate | server/design-questions.ts:176-186 | the gate lets generation proceed exactly when no critical decision is open, otherwise only as the user consented |
| DesignDefaults.ApplyConservativeLifecycleDefaults | server/design-questions.ts:195-281 | the field-by-field update computes the specified defaults and the list of decisions made |
| DesignDefaults.ChangesAreReported | server/design-questions.ts:195-281 | a lifecycle choice is reported exactly when the defaults changed it, and changed payout rules are reported |
| DesignDefaults.DecidedOnce | server/design-questions.ts:195-281 | a second application reports only a missing deadline, a missing payout rule and eligibility |
| DesignDefaults.OnlyTwoStayOpen | server/design-questions.ts:195-280 | afterwards only eligibility, when the prompt leaves it open, and reward amount, when there is no payout rule, are open |
| DesignDefaults.DefaultsAreIdempotent | server/design-questions.ts:195-280 | applying the defaults twice is applying them once |
| DesignDefaults.GateAfterDefaults | server/design-questions.ts:176-186 | the gate passes a defaulted mechanic exactly when those two are settled |
| DesignTerms.QuestionsAre | server/design-questions.ts:57-165 | the nine questions in order, when each is asked, and that the last three are not critical |
| DesignTerms.DecisionsAre | server/design-questions.ts:195-281 | the nine decisions in order and when each is reported |
| DesignTerms.ChoicesAre | server/design-questions.ts:206-240 | the default of each open choice, and that a choice made stays |
| DesignTerms.ExitsAre | server/design-questions.ts:220-232 | the texts of the two default paths, each also listed among the exits |
| DesignTerms.RulesAre | server/design-questions.ts:247-266 | every payout rule is the manager's exactly when no amount was decided |
| DesignTerms.RisksAre | server/design-questions.ts:241-243 | the risks kept are, in order, those not about an open decision |
| DesignTerms.ViewsAre | server/design-questions.ts:268-277 | what must be visible is, in order of first mention, what was asked for and the four views |
| UiSections.ParseVaultUiSections | server/ui-gen.ts:304-333 | the line loop parses as specified |
| UiSections.SplitJoin | server/ui-gen.ts:312 | splitting joined lines returns them |
| UiSections.LayoutIsRecovered | server/ui-gen.ts:304-333 | parsing a laid-out text returns its sections, whatever precedes the first marker or follows the end |
| UiSections.AnyOrderIsRecovered | server/ui-gen.ts:304-333 | three sections in any order come back trimmed as the package exactly when none is empty |
| UiTerms.ScanIs | server/ui-gen.ts:304-327 | after any lines the scan holds for each section the lines behind its last marker up to the next marker or end |
| UiTerms.ParsedIs | server/ui-gen.ts:304-333 | for any text the parser returns a package exactly when all three sections are given and none is blank, and then their contents without the white space around them |
| UiTerms.SplitIs | server/ui-gen.ts:312 | joining the lines of any text gives it back, and no line holds a line break |

## Left out

- Language-model calls, prompt texts, compiler, forge, file system, HTTP, Supabase and signatures: oracles or parameters.
- The regex scanners (`scanSafety`, `scanVaultLogic`, mechanic completeness): an arbitrary list of findings per draft.
- The regular expressions that extract scalars, mappings, writes and balances from Solidity text: `MoneyFlow` starts from what they found.
- `specAudit`: it is not rerun after an accepted repair, so it takes part in no coherence statement.
- Explanations, journeys, simulation reports, compile error texts, the via-IR flag and the list of previously failed rules: carried along by the pipeline, deciding nothing that is modelled.
- The fix log in the result: the contracts of the stages say what each adds to it; the audit's entry is left out with the audit.
- PatchReadback.BodiesReadBack: a body that declares an array of addresses or opens a description may take the cap declaration or the disclosure as well; `PatchReadback.GuardsReadBack` and `PatchSequence.SequenceIs` cover it.
- Exceptions escaping the pipeline, and the custom UI pass after it.
- MoneyFlow.BuiltTableDescribes: starts from the extracted declarations; finding them in the text is the regular expressions above.
- MoneyFlow.WritesInTable: membership only; the order of the units is in `LedgerTerms.WritesByUnit`, that of the writes inside a unit and their number are not stated.
- SourcePatches.ResetPatchIsIdempotent: one patch alone; its two tests on the whole text are in `CommonPatches.ResetFee` and PatchIdempotence.CommonIdempotentIff.
- PatchIdempotence.CommonIdempotentIff: on well-formed source as described above; a declaration without a body or a function inside another is not well-formed, and there the single-patch results hold.
- ReceiveKept.ReceiveIsKeptIff: for a receive() in the text outside functions; one inside another function, or a body never closed, is not treated.
- Characters outside the basic plane count once in the disclosure test, where the original counts their two code units.
- The bytecode read for a suite and the bytecode reported are the same file at the same moment: the model reads it once.
- Unicode white space in `\s` and `trim`: blank, tab, newline and carriage return only.
- Guardian withdrawals of the injected base, token transfers in `stake`, quest deadlines and closing, view functions: outside the fixture's ledger.
- Listeners that call back into the run manager, the order among listeners, and generators that emit after their promise settled.
- Artifacts, run and message rows written when a run finishes: only the event table is modelled.
- Session tokens, usage accounting, Supabase store, the stale-run event of the chat routes.
- The wording of design questions and decisions, and the patterns that read prompt and risks: parameters.
