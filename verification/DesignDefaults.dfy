/** Open design questions of a mechanic, and the conservative defaults chosen on the user's behalf. */
module DesignDefaults {
  import opened Wrappers
  import opened SolidityText

  datatype AssignmentModel = SingleAssignee | MultiAssignee | OpenPool | AssignmentUnspecified | NotApplicable

  datatype Choice = Yes | No | Unspecified

  datatype CompletionAuthority = ManagerCompletes | OtherAuthority(kind: nat) | AuthorityUnspecified

  datatype ReservationPoint = OnApproval | OtherPoint(kind: nat) | PointUnspecified | PointNotApplicable

  datatype DistributionMode = FixedPerUser | ManagerAssignedAmount | ProRataSnapshot | OtherMode(kind: nat)

  datatype PayoutRule = PayoutRule(
    distributionMode: DistributionMode, reservedOnApproval: bool, claimAmountSource: string, winnerTakesAll: bool,
    perUserAccountingRequired: bool, rest: nat)

  datatype Lifecycle = Lifecycle(
    resourceType: string, assignmentModel: AssignmentModel, maxAssignees: nat, requiresSubmission: Choice,
    completionAuthority: CompletionAuthority, timeoutOrExpiry: string, abandonPath: string, cancelPath: string,
    reservationPoint: ReservationPoint, stuckStateRisks: seq<string>, userExitPaths: seq<string>,
    managerExitPaths: seq<string>, stateVisibility: seq<string>)

  datatype Spec = Spec(lifecycle: Option<Lifecycle>, payoutRules: seq<PayoutRule>)

  /** What the pattern tests find in the prompt and in a recorded risk. */
  datatype Reading = Reading(decidesEligibility: bool, namesHolders: bool, undecidedRisk: string -> bool)

  datatype QuestionId = AssignmentQuestion | RewardAmount | Eligibility | ProofSubmission | Abandon | Cancel | Deadline
                      | RewardReservation | MultiTasking

  datatype Question = Question(id: QuestionId, critical: bool)

  /** A choice made on the user's behalf, as reported with the result. */
  datatype Choosing = OneAssignee | ProofRequired | ManagerReviews | AbandonChosen | CancelChosen | ReservedOnApproval
                    | NoDeadline | AmountByManager | HoldersOnly

  datatype Consent = NoConsent | ClosestDraft | SpecOnlyConsent

  datatype Decision = Proceed | Ask | ProceedConservative | SpecOnly

  predicate Blank(t: string) {
    forall c :: c in t ==> IsSpace(c)
  }

  predicate Decides(r: PayoutRule) {
    !Blank(r.claimAmountSource) || r.distributionMode == FixedPerUser
    || r.distributionMode == ManagerAssignedAmount || r.distributionMode == ProRataSnapshot
  }

  predicate PayoutAmountDecided(rules: seq<PayoutRule>) {
    exists i :: 0 <= i < |rules| && Decides(rules[i])
  }

  /** The mechanic has a discrete, assignable resource. */
  predicate Discrete(spec: Spec) {
    && spec.lifecycle.Some? && spec.lifecycle.value.resourceType != ""
    && spec.lifecycle.value.assignmentModel != NotApplicable
  }

  /** Which questions are open. */
  predicate Open(reading: Reading, spec: Spec, id: QuestionId) {
    Discrete(spec) &&
    var lc := spec.lifecycle.value;
    match id
    case AssignmentQuestion => lc.assignmentModel == AssignmentUnspecified
    case RewardAmount => !PayoutAmountDecided(spec.payoutRules)
    case Eligibility => !reading.decidesEligibility
    case ProofSubmission => lc.requiresSubmission == Unspecified
    case Abandon => lc.abandonPath == ""
    case Cancel => lc.cancelPath == ""
    case Deadline => lc.timeoutOrExpiry == ""
    case RewardReservation => lc.reservationPoint == PointUnspecified
    case MultiTasking => lc.assignmentModel == AssignmentUnspecified || lc.assignmentModel == MultiAssignee
  }

  predicate Critical(id: QuestionId) {
    id != Deadline && id != RewardReservation && id != MultiTasking
  }

  function Asked(reading: Reading, spec: Spec, id: QuestionId): seq<Question> {
    if Open(reading, spec, id) then [Question(id, Critical(id))] else []
  }

  function Questions(reading: Reading, spec: Spec): seq<Question> {
    Asked(reading, spec, AssignmentQuestion) + Asked(reading, spec, RewardAmount)
    + Asked(reading, spec, Eligibility) + Asked(reading, spec, ProofSubmission) + Asked(reading, spec, Abandon)
    + Asked(reading, spec, Cancel) + Asked(reading, spec, Deadline) + Asked(reading, spec, RewardReservation)
    + Asked(reading, spec, MultiTasking)
  }

  lemma QuestionsAreTheOpenOnes(reading: Reading, spec: Spec, q: Question)
    ensures q in Questions(reading, spec) <==> Open(reading, spec, q.id) && q.critical == Critical(q.id)
  {
    hide Open, Critical;
    forall id: QuestionId
      ensures q in Asked(reading, spec, id) <==> q.id == id && Open(reading, spec, id) && q.critical == Critical(id)
    {
    }
    match q.id
    case AssignmentQuestion => case RewardAmount => case Eligibility => case ProofSubmission => case Abandon =>
    case Cancel => case Deadline => case RewardReservation => case MultiTasking =>
  }

  function Push(questions: seq<Question>, open: bool, id: QuestionId): seq<Question> {
    if open then questions + [Question(id, Critical(id))] else questions
  }

  lemma PushIsAsked(reading: Reading, spec: Spec, questions: seq<Question>, id: QuestionId)
    ensures Push(questions, Open(reading, spec, id), id) == questions + Asked(reading, spec, id)
  {
    hide Open;
  }

  method GenerateDesignQuestions(reading: Reading, spec: Spec) returns (questions: seq<Question>)
    ensures questions == Questions(reading, spec)
  {
    hide Push, Asked, PayoutAmountDecided, Critical;
    if !Discrete(spec) {
      NothingAsked(reading, spec);
      return [];
    }
    var lc := spec.lifecycle.value;
    questions := [];
    assert questions + Asked(reading, spec, AssignmentQuestion) == Asked(reading, spec, AssignmentQuestion);
    PushIsAsked(reading, spec, questions, AssignmentQuestion);
    questions := Push(questions, lc.assignmentModel == AssignmentUnspecified, AssignmentQuestion);
    PushIsAsked(reading, spec, questions, RewardAmount);
    questions := Push(questions, !PayoutAmountDecided(spec.payoutRules), RewardAmount);
    PushIsAsked(reading, spec, questions, Eligibility);
    questions := Push(questions, !reading.decidesEligibility, Eligibility);
    PushIsAsked(reading, spec, questions, ProofSubmission);
    questions := Push(questions, lc.requiresSubmission == Unspecified, ProofSubmission);
    PushIsAsked(reading, spec, questions, Abandon);
    questions := Push(questions, lc.abandonPath == "", Abandon);
    PushIsAsked(reading, spec, questions, Cancel);
    questions := Push(questions, lc.cancelPath == "", Cancel);
    PushIsAsked(reading, spec, questions, Deadline);
    questions := Push(questions, lc.timeoutOrExpiry == "", Deadline);
    PushIsAsked(reading, spec, questions, RewardReservation);
    questions := Push(questions, lc.reservationPoint == PointUnspecified, RewardReservation);
    PushIsAsked(reading, spec, questions, MultiTasking);
    questions := Push(questions, lc.assignmentModel == AssignmentUnspecified
                                 || lc.assignmentModel == MultiAssignee, MultiTasking);
  }

  lemma NothingAsked(reading: Reading, spec: Spec)
    requires !Discrete(spec)
    ensures Questions(reading, spec) == []
  {
  }

  /** Open critical questions stop generation unless the user chose how to go on. */
  function DesignQuestionGate(reading: Reading, spec: Spec, consent: Consent): (d: Decision)
    ensures d == Proceed <==> forall id :: Critical(id) ==> !Open(reading, spec, id)
    ensures d == ProceedConservative ==> consent == ClosestDraft
    ensures d == SpecOnly ==> consent == SpecOnlyConsent
  {
    CriticalListed(reading, spec);
    if forall q :: q in Questions(reading, spec) ==> !q.critical then Proceed
    else
      match consent
      case NoConsent => Ask
      case ClosestDraft => ProceedConservative
      case SpecOnlyConsent => SpecOnly
  }

  lemma CriticalListed(reading: Reading, spec: Spec)
    ensures (exists q :: q in Questions(reading, spec) && q.critical)
            <==> exists id :: Critical(id) && Open(reading, spec, id)
  {
    hide Open, Critical, Questions;
    forall q | q in Questions(reading, spec) && q.critical
      ensures Critical(q.id) && Open(reading, spec, q.id)
    {
      QuestionsAreTheOpenOnes(reading, spec, q);
    }
    forall id | Critical(id) && Open(reading, spec, id)
      ensures Question(id, true) in Questions(reading, spec)
    {
      QuestionsAreTheOpenOnes(reading, spec, Question(id, true));
    }
  }

  // ---- Conservative defaults ----

  function Dedupe(items: seq<string>): seq<string> {
    if items == [] then []
    else
      var rest, last := Dedupe(items[..|items| - 1]), items[|items| - 1];
      if last in rest then rest else rest + [last]
  }

  function Undecided(risks: seq<string>, undecided: string -> bool): seq<string> {
    if risks == [] then []
    else (if undecided(risks[0]) then [] else [risks[0]]) + Undecided(risks[1..], undecided)
  }

  function Views(resource: string): seq<string> {
    ["a count view and a per-id getter for each " + resource,
     "a per-user view of the user's current assignment/status",
     "a per-user view of the claimable amount",
     "a view of the reward funding bucket"]
  }

  function AbandonPath(resource: string): string {
    "assignee can abandon the " + resource + " any time before approval, clearing their assignment"
  }

  function CancelPath(resource: string): string {
    "manager can cancel an open or expired " + resource + "; cancellation must not trap any assigned user"
  }

  function AmountSource(resource: string): string {
    "the per-" + resource
    + " reward amount set by the manager when posting, reserved into claimable[user] at approval"
  }

  function WithDefaults(reading: Reading, lc: Lifecycle): Lifecycle {
    Lifecycle(
      lc.resourceType,
      if lc.assignmentModel == AssignmentUnspecified then SingleAssignee else lc.assignmentModel,
      if lc.assignmentModel == AssignmentUnspecified then 1 else lc.maxAssignees,
      if lc.requiresSubmission == Unspecified then Yes else lc.requiresSubmission,
      if lc.completionAuthority == AuthorityUnspecified then ManagerCompletes else lc.completionAuthority,
      lc.timeoutOrExpiry,
      if lc.abandonPath == "" then AbandonPath(lc.resourceType) else lc.abandonPath,
      if lc.cancelPath == "" then CancelPath(lc.resourceType) else lc.cancelPath,
      if lc.reservationPoint == PointUnspecified || lc.reservationPoint == PointNotApplicable then OnApproval
      else lc.reservationPoint,
      Undecided(lc.stuckStateRisks, reading.undecidedRisk),
      if lc.abandonPath == "" then lc.userExitPaths + [AbandonPath(lc.resourceType)] else lc.userExitPaths,
      if lc.cancelPath == "" then lc.managerExitPaths + [CancelPath(lc.resourceType)] else lc.managerExitPaths,
      Dedupe(lc.stateVisibility + Views(lc.resourceType)))
  }

  function AssignAmount(rule: PayoutRule, resource: string): PayoutRule {
    if !Blank(rule.claimAmountSource) then rule
    else rule.(distributionMode := ManagerAssignedAmount, reservedOnApproval := true,
               claimAmountSource := AmountSource(resource), winnerTakesAll := false,
               perUserAccountingRequired := true)
  }

  function Defaults(reading: Reading, spec: Spec): Spec {
    if !Discrete(spec) then spec
    else
      var lc := spec.lifecycle.value;
      Spec(Some(WithDefaults(reading, lc)),
           if PayoutAmountDecided(spec.payoutRules) then spec.payoutRules
           else seq(|spec.payoutRules|,
                    i requires 0 <= i < |spec.payoutRules| => AssignAmount(spec.payoutRules[i], lc.resourceType)))
  }

  /** What a choice is made about is open. */
  predicate Chooses(reading: Reading, spec: Spec, choosing: Choosing) {
    Discrete(spec) &&
    var lc := spec.lifecycle.value;
    match choosing
    case OneAssignee => lc.assignmentModel == AssignmentUnspecified
    case ProofRequired => lc.requiresSubmission == Unspecified
    case ManagerReviews => lc.completionAuthority == AuthorityUnspecified
    case AbandonChosen => lc.abandonPath == ""
    case CancelChosen => lc.cancelPath == ""
    case ReservedOnApproval => lc.reservationPoint == PointUnspecified || lc.reservationPoint == PointNotApplicable
    case NoDeadline => lc.timeoutOrExpiry == ""
    case AmountByManager => !PayoutAmountDecided(spec.payoutRules)
    case HoldersOnly => !reading.decidesEligibility || reading.namesHolders
  }

  function Chosen(reading: Reading, spec: Spec, choosing: Choosing): seq<Choosing> {
    if Chooses(reading, spec, choosing) then [choosing] else []
  }

  /** The choices reported, in their order. */
  function Decisions(reading: Reading, spec: Spec): seq<Choosing> {
    WorkDecisions(reading, spec) + PayDecisions(reading, spec)
  }

  function WorkDecisions(reading: Reading, spec: Spec): seq<Choosing> {
    Chosen(reading, spec, OneAssignee) + Chosen(reading, spec, ProofRequired) + Chosen(reading, spec, ManagerReviews)
    + Chosen(reading, spec, AbandonChosen) + Chosen(reading, spec, CancelChosen)
  }

  function PayDecisions(reading: Reading, spec: Spec): seq<Choosing> {
    Chosen(reading, spec, ReservedOnApproval) + Chosen(reading, spec, NoDeadline)
    + Chosen(reading, spec, AmountByManager) + Chosen(reading, spec, HoldersOnly)
  }

  lemma InChosen(reading: Reading, spec: Spec, c: Choosing, choosing: Choosing)
    ensures choosing in Chosen(reading, spec, c) <==> choosing == c && Chooses(reading, spec, choosing)
  {
    hide Chooses;
  }

  lemma DecisionsAreTheChoices(reading: Reading, spec: Spec, choosing: Choosing)
    ensures choosing in Decisions(reading, spec) <==> Chooses(reading, spec, choosing)
  {
    hide Chooses, Chosen;
    forall c
      ensures choosing in Chosen(reading, spec, c) <==> choosing == c && Chooses(reading, spec, choosing)
    {
      InChosen(reading, spec, c, choosing);
    }
    match choosing
    case OneAssignee => case ProofRequired => case ManagerReviews => case AbandonChosen => case CancelChosen =>
    case ReservedOnApproval => case NoDeadline => case AmountByManager => case HoldersOnly =>
  }

  function Record(decisions: seq<Choosing>, open: bool, choosing: Choosing): seq<Choosing> {
    if open then decisions + [choosing] else decisions
  }

  lemma RecordIsChosen(reading: Reading, spec: Spec, decisions: seq<Choosing>, choosing: Choosing)
    ensures Record(decisions, Chooses(reading, spec, choosing), choosing) == decisions + Chosen(reading, spec, choosing)
  {
    hide Chooses;
  }

  /** The choices about the work and its exits, as they are recorded along the way. */
  method RecordWork(reading: Reading, spec: Spec) returns (decisions: seq<Choosing>)
    requires Discrete(spec)
    ensures decisions == WorkDecisions(reading, spec)
  {
    hide Record, Chosen;
    var lc := spec.lifecycle.value;
    decisions := [];
    assert decisions + Chosen(reading, spec, OneAssignee) == Chosen(reading, spec, OneAssignee);
    RecordIsChosen(reading, spec, decisions, OneAssignee);
    decisions := Record(decisions, lc.assignmentModel == AssignmentUnspecified, OneAssignee);
    RecordIsChosen(reading, spec, decisions, ProofRequired);
    decisions := Record(decisions, lc.requiresSubmission == Unspecified, ProofRequired);
    RecordIsChosen(reading, spec, decisions, ManagerReviews);
    decisions := Record(decisions, lc.completionAuthority == AuthorityUnspecified, ManagerReviews);
    RecordIsChosen(reading, spec, decisions, AbandonChosen);
    decisions := Record(decisions, lc.abandonPath == "", AbandonChosen);
    RecordIsChosen(reading, spec, decisions, CancelChosen);
    decisions := Record(decisions, lc.cancelPath == "", CancelChosen);
  }

  /** All choices: none depends on a default filled in before. */
  method RecordDecisions(reading: Reading, spec: Spec) returns (decisions: seq<Choosing>)
    ensures decisions == Decisions(reading, spec)
  {
    hide Record, Chosen, PayoutAmountDecided, WorkDecisions;
    if !Discrete(spec) {
      NothingChosen(reading, spec);
      return [];
    }
    var lc := spec.lifecycle.value;
    decisions := RecordWork(reading, spec);
    RecordIsChosen(reading, spec, decisions, ReservedOnApproval);
    decisions := Record(decisions, lc.reservationPoint == PointUnspecified || lc.reservationPoint == PointNotApplicable,
                        ReservedOnApproval);
    RecordIsChosen(reading, spec, decisions, NoDeadline);
    decisions := Record(decisions, lc.timeoutOrExpiry == "", NoDeadline);
    RecordIsChosen(reading, spec, decisions, AmountByManager);
    decisions := Record(decisions, !PayoutAmountDecided(spec.payoutRules), AmountByManager);
    RecordIsChosen(reading, spec, decisions, HoldersOnly);
    decisions := Record(decisions, !reading.decidesEligibility || reading.namesHolders, HoldersOnly);
  }

  lemma NothingChosen(reading: Reading, spec: Spec)
    requires !Discrete(spec)
    ensures Decisions(reading, spec) == []
  {
  }

  /** Field by field on a copy of the lifecycle, as the source does. */
  method ApplyConservativeLifecycleDefaults(reading: Reading, spec: Spec)
    returns (applied: Spec, decisions: seq<Choosing>)
    ensures applied == Defaults(reading, spec) && decisions == Decisions(reading, spec)
  {
    hide AbandonPath, CancelPath, Dedupe, Undecided, Views, AmountSource, Blank, PayoutAmountDecided, AssignAmount,
         Decisions;
    decisions := RecordDecisions(reading, spec);
    if !Discrete(spec) {
      applied := spec;
      return;
    }
    var next := spec.lifecycle.value;
    var r := next.resourceType;
    if next.assignmentModel == AssignmentUnspecified {
      next := next.(assignmentModel := SingleAssignee, maxAssignees := 1);
    }
    if next.requiresSubmission == Unspecified {
      next := next.(requiresSubmission := Yes);
    }
    if next.completionAuthority == AuthorityUnspecified {
      next := next.(completionAuthority := ManagerCompletes);
    }
    if next.abandonPath == "" {
      next := next.(abandonPath := AbandonPath(r), userExitPaths := next.userExitPaths + [AbandonPath(r)]);
    }
    if next.cancelPath == "" {
      next := next.(cancelPath := CancelPath(r), managerExitPaths := next.managerExitPaths + [CancelPath(r)]);
    }
    if next.reservationPoint == PointUnspecified || next.reservationPoint == PointNotApplicable {
      next := next.(reservationPoint := OnApproval);
    }
    next := next.(stuckStateRisks := Undecided(next.stuckStateRisks, reading.undecidedRisk));
    var rules := spec.payoutRules;
    if !PayoutAmountDecided(rules) {
      rules := seq(|rules|, i requires 0 <= i < |rules| => AssignAmount(rules[i], r));
    }
    next := next.(stateVisibility := Dedupe(next.stateVisibility + Views(r)));
    applied := Spec(Some(next), rules);
  }

  /** No default is silent: every choice of the specification that changed is reported, and the others are not. */
  lemma ChangesAreReported(reading: Reading, spec: Spec)
    requires Discrete(spec)
    ensures var lc, next := spec.lifecycle.value, Defaults(reading, spec).lifecycle.value;
            var decisions := Decisions(reading, spec);
            && (next.assignmentModel != lc.assignmentModel <==> OneAssignee in decisions)
            && (next.requiresSubmission != lc.requiresSubmission <==> ProofRequired in decisions)
            && (next.completionAuthority != lc.completionAuthority <==> ManagerReviews in decisions)
            && (next.abandonPath != lc.abandonPath <==> AbandonChosen in decisions)
            && (next.cancelPath != lc.cancelPath <==> CancelChosen in decisions)
            && (next.reservationPoint != lc.reservationPoint <==> ReservedOnApproval in decisions)
            && (Defaults(reading, spec).payoutRules != spec.payoutRules ==> AmountByManager in decisions)
  {
    hide Decisions, PayoutAmountDecided, AmountSource, AbandonPath, CancelPath, Dedupe, Undecided, Views, AssignAmount;
    AmountSourceIsText(spec.lifecycle.value.resourceType);
    forall choosing
      ensures choosing in Decisions(reading, spec) <==> Chooses(reading, spec, choosing)
    {
      DecisionsAreTheChoices(reading, spec, choosing);
    }
  }

  /** A second application reports only what no default settles. */
  lemma DecidedOnce(reading: Reading, spec: Spec, choosing: Choosing)
    requires Discrete(spec)
    ensures choosing in Decisions(reading, Defaults(reading, spec))
            <==> (choosing == NoDeadline && spec.lifecycle.value.timeoutOrExpiry == "")
                 || (choosing == AmountByManager && spec.payoutRules == [])
                 || (choosing == HoldersOnly && (!reading.decidesEligibility || reading.namesHolders))
  {
    hide Decisions, PayoutAmountDecided, AmountSource, AbandonPath, CancelPath, Dedupe, Undecided, Views, AssignAmount;
    DecisionsAreTheChoices(reading, Defaults(reading, spec), choosing);
    AmountSourceIsText(spec.lifecycle.value.resourceType);
    AmountDecidedIff(reading, spec);
  }

  // ---- What is still open afterwards, and idempotence ----

  lemma AmountSourceIsText(resource: string)
    ensures !Blank(AmountSource(resource)) && AbandonPath(resource) != "" && CancelPath(resource) != ""
  {
    assert AmountSource(resource)[0] == 't' && !IsSpace('t');
  }

  lemma AmountDecidedIff(reading: Reading, spec: Spec)
    requires Discrete(spec)
    ensures PayoutAmountDecided(Defaults(reading, spec).payoutRules) <==> spec.payoutRules != []
  {
    hide WithDefaults, AmountSource, Blank;
    var rules := Defaults(reading, spec).payoutRules;
    if spec.payoutRules != [] && !PayoutAmountDecided(spec.payoutRules) {
      assert !Decides(spec.payoutRules[0]);
      assert Decides(rules[0]);
    }
  }

  /**
   * After the defaults the only critical questions that can be open are eligibility, exactly when the prompt
   * leaves it open, and the reward amount, exactly when there is no payout rule.
   */
  lemma OnlyTwoStayOpen(reading: Reading, spec: Spec, id: QuestionId)
    requires Critical(id)
    ensures Open(reading, Defaults(reading, spec), id)
            <==> Discrete(spec) && ((id == Eligibility && !reading.decidesEligibility)
                                    || (id == RewardAmount && spec.payoutRules == []))
  {
    hide PayoutAmountDecided, AmountSource, AbandonPath, CancelPath, Dedupe, Undecided;
    if Discrete(spec) {
      AmountDecidedIff(reading, spec);
      AmountSourceIsText(spec.lifecycle.value.resourceType);
    }
  }

  lemma {:induction false} UndecidedTwice(risks: seq<string>, undecided: string -> bool)
    ensures Undecided(Undecided(risks, undecided), undecided) == Undecided(risks, undecided)
  {
    if risks != [] {
      var rest := Undecided(risks[1..], undecided);
      UndecidedTwice(risks[1..], undecided);
      if !undecided(risks[0]) {
        assert ([risks[0]] + rest)[1..] == rest;
      } else {
        assert [] + rest == rest;
      }
    }
  }

  lemma {:induction false} DedupeKeeps(items: seq<string>)
    ensures forall x :: x in items <==> x in Dedupe(items)
    ensures Dedupe(Dedupe(items)) == Dedupe(items)
  {
    if items != [] {
      var rest, last := items[..|items| - 1], items[|items| - 1];
      DedupeKeeps(rest);
      assert items == rest + [last];
      var kept := Dedupe(rest);
      if last !in kept {
        assert (kept + [last])[..|kept|] == kept;
      }
    }
  }

  lemma {:induction false} DedupeAbsorbs(items: seq<string>, more: seq<string>)
    requires Dedupe(items) == items && forall x :: x in more ==> x in items
    ensures Dedupe(items + more) == items
  {
    if more == [] {
      assert items + more == items;
    } else {
      assert (items + more)[..|items + more| - 1] == items + more[..|more| - 1];
      DedupeAbsorbs(items, more[..|more| - 1]);
    }
  }

  lemma LifecycleTwice(reading: Reading, lc: Lifecycle)
    ensures WithDefaults(reading, WithDefaults(reading, lc)) == WithDefaults(reading, lc)
  {
    hide AbandonPath, CancelPath, Dedupe, Undecided, Views, AmountSource;
    AmountSourceIsText(lc.resourceType);
    UndecidedTwice(lc.stuckStateRisks, reading.undecidedRisk);
    var all := lc.stateVisibility + Views(lc.resourceType);
    DedupeKeeps(all);
    assert forall x :: x in Views(lc.resourceType) ==> x in all;
    DedupeAbsorbs(Dedupe(all), Views(lc.resourceType));
  }

  /** Applying the defaults twice is applying them once. */
  lemma DefaultsAreIdempotent(reading: Reading, spec: Spec)
    ensures Defaults(reading, Defaults(reading, spec)) == Defaults(reading, spec)
  {
    hide PayoutAmountDecided, AmountSource;
    if Discrete(spec) {
      LifecycleTwice(reading, spec.lifecycle.value);
      AmountDecidedIff(reading, spec);
      hide WithDefaults;
    }
  }

  /** With conservative consent, the gate passes the second time exactly when those two are settled. */
  lemma GateAfterDefaults(reading: Reading, spec: Spec, consent: Consent)
    ensures DesignQuestionGate(reading, Defaults(reading, spec), consent) == Proceed
            <==> !Discrete(spec) || (reading.decidesEligibility && spec.payoutRules != [])
  {
    hide Open, Defaults, DesignQuestionGate;
    forall id: QuestionId | Critical(id)
      ensures Open(reading, Defaults(reading, spec), id)
              <==> Discrete(spec) && ((id == Eligibility && !reading.decidesEligibility)
                                      || (id == RewardAmount && spec.payoutRules == []))
    {
      OnlyTwoStayOpen(reading, spec, id);
    }
    assert Critical(Eligibility) && Critical(RewardAmount);
  }
}
