/** The questions, decisions and defaults of a mechanic written out. */
module DesignTerms {
  import opened Wrappers
  import opened SolidityText
  import opened DesignDefaults

  /** An amount is decided by its source, if that is more than white space, or by the way it is distributed. */
  ghost predicate Settled(rules: seq<PayoutRule>) {
    exists r :: r in rules && (Written(r.claimAmountSource) || r.distributionMode == FixedPerUser
                               || r.distributionMode == ManagerAssignedAmount || r.distributionMode == ProRataSnapshot)
  }

  ghost predicate Written(t: string) {
    exists i :: 0 <= i < |t| && t[i] != ' ' && t[i] != '\t' && t[i] != '\n' && t[i] != '\r'
  }

  lemma WrittenIs(t: string)
    ensures Blank(t) <==> !Written(t)
  {
    if !Blank(t) {
      var c :| c in t && !IsSpace(c);
      var i :| 0 <= i < |t| && t[i] == c;
    }
    if Written(t) {
      var i :| 0 <= i < |t| && t[i] != ' ' && t[i] != '\t' && t[i] != '\n' && t[i] != '\r';
      assert t[i] in t && !IsSpace(t[i]);
    }
  }

  lemma SettledIs(rules: seq<PayoutRule>)
    ensures PayoutAmountDecided(rules) <==> Settled(rules)
  {
    hide Blank, Written;
    forall r | r in rules
      ensures Blank(r.claimAmountSource) <==> !Written(r.claimAmountSource)
    {
      WrittenIs(r.claimAmountSource);
    }
    if PayoutAmountDecided(rules) {
      var i :| 0 <= i < |rules| && Decides(rules[i]);
      assert rules[i] in rules;
    }
    if Settled(rules) {
      var r :| r in rules && (Written(r.claimAmountSource) || r.distributionMode == FixedPerUser
                              || r.distributionMode == ManagerAssignedAmount || r.distributionMode == ProRataSnapshot);
      var i :| 0 <= i < |rules| && rules[i] == r;
      assert Decides(rules[i]);
    }
  }

  // ---- Questions ----

  function When(open: bool, id: QuestionId, critical: bool): seq<Question> {
    if open then [Question(id, critical)] else []
  }

  ghost predicate Assignable(spec: Spec) {
    && spec.lifecycle.Some? && spec.lifecycle.value.resourceType != ""
    && !spec.lifecycle.value.assignmentModel.NotApplicable?
  }

  /** The nine questions in their order; the last three are not critical. */
  lemma QuestionsAre(reading: Reading, spec: Spec)
    ensures !Assignable(spec) ==> Questions(reading, spec) == []
    ensures Assignable(spec) ==>
              var lc := spec.lifecycle.value;
              Questions(reading, spec)
              == When(lc.assignmentModel.AssignmentUnspecified?, AssignmentQuestion, true)
                 + When(!Settled(spec.payoutRules), RewardAmount, true)
                 + When(!reading.decidesEligibility, Eligibility, true)
                 + When(lc.requiresSubmission.Unspecified?, ProofSubmission, true)
                 + When(|lc.abandonPath| == 0, Abandon, true) + When(|lc.cancelPath| == 0, Cancel, true)
                 + When(|lc.timeoutOrExpiry| == 0, Deadline, false)
                 + When(lc.reservationPoint.PointUnspecified?, RewardReservation, false)
                 + When(lc.assignmentModel.AssignmentUnspecified? || lc.assignmentModel.MultiAssignee?, MultiTasking,
                        false)
  {
    hide PayoutAmountDecided, Settled;
    SettledIs(spec.payoutRules);
  }

  /** With a critical question open, the user is asked unless the consent says how to go on. */
  lemma GateIs(reading: Reading, spec: Spec, consent: Consent)
    ensures DesignQuestionGate(reading, spec, consent)
            == if forall q :: q in Questions(reading, spec) ==> !q.critical then Proceed
               else if consent.ClosestDraft? then ProceedConservative
               else if consent.SpecOnlyConsent? then SpecOnly else Ask
  {
    hide Questions;
  }

  // ---- Decisions ----

  function Note(made: bool, choosing: Choosing): seq<Choosing> {
    if made then [choosing] else []
  }

  lemma DecisionsAre(reading: Reading, spec: Spec)
    ensures !Assignable(spec) ==> Decisions(reading, spec) == []
    ensures Assignable(spec) ==>
              var lc := spec.lifecycle.value;
              Decisions(reading, spec)
              == (Note(lc.assignmentModel.AssignmentUnspecified?, OneAssignee)
                  + Note(lc.requiresSubmission.Unspecified?, ProofRequired)
                  + Note(lc.completionAuthority.AuthorityUnspecified?, ManagerReviews)
                  + Note(|lc.abandonPath| == 0, AbandonChosen) + Note(|lc.cancelPath| == 0, CancelChosen))
                 + (Note(lc.reservationPoint.PointUnspecified? || lc.reservationPoint.PointNotApplicable?,
                         ReservedOnApproval)
                    + Note(|lc.timeoutOrExpiry| == 0, NoDeadline) + Note(!Settled(spec.payoutRules), AmountByManager)
                    + Note(!reading.decidesEligibility || reading.namesHolders, HoldersOnly))
  {
    hide PayoutAmountDecided, Settled;
    SettledIs(spec.payoutRules);
  }

  // ---- Defaults ----

  const ABANDON := "assignee can abandon the "
  const ABANDON_END := " any time before approval, clearing their assignment"
  const CANCEL := "manager can cancel an open or expired "
  const CANCEL_END := "; cancellation must not trap any assigned user"
  const AMOUNT := "the per-"
  const AMOUNT_END := " reward amount set by the manager when posting, reserved into claimable[user] at approval"

  lemma TextsAre(r: string)
    ensures AbandonPath(r) == ABANDON + r + ABANDON_END && CancelPath(r) == CANCEL + r + CANCEL_END
    ensures AmountSource(r) == AMOUNT + r + AMOUNT_END
  {
  }

  /** Each open choice gets its one default; what was chosen stays. */
  lemma ChoicesAre(reading: Reading, spec: Spec)
    requires Assignable(spec)
    ensures Defaults(reading, spec).lifecycle.Some?
    ensures var lc, next := spec.lifecycle.value, Defaults(reading, spec).lifecycle.value;
            && next.resourceType == lc.resourceType && next.timeoutOrExpiry == lc.timeoutOrExpiry
            && (lc.assignmentModel.AssignmentUnspecified? ==>
                  next.assignmentModel == SingleAssignee && next.maxAssignees == 1)
            && (!lc.assignmentModel.AssignmentUnspecified? ==>
                  next.assignmentModel == lc.assignmentModel && next.maxAssignees == lc.maxAssignees)
            && next.requiresSubmission == (if lc.requiresSubmission.Unspecified? then Yes else lc.requiresSubmission)
            && next.completionAuthority
               == (if lc.completionAuthority.AuthorityUnspecified? then ManagerCompletes else lc.completionAuthority)
            && next.reservationPoint
               == (if lc.reservationPoint.PointUnspecified? || lc.reservationPoint.PointNotApplicable? then OnApproval
                   else lc.reservationPoint)
  {
  }

  /** A path out for the user and one for the manager, each with its text and listed among the exits. */
  lemma ExitsAre(reading: Reading, spec: Spec)
    requires Assignable(spec)
    ensures Defaults(reading, spec).lifecycle.Some?
    ensures var lc, next := spec.lifecycle.value, Defaults(reading, spec).lifecycle.value;
            var abandon, cancel := ABANDON + lc.resourceType + ABANDON_END, CANCEL + lc.resourceType + CANCEL_END;
            && next.abandonPath == (if |lc.abandonPath| == 0 then abandon else lc.abandonPath)
            && next.userExitPaths == lc.userExitPaths + (if |lc.abandonPath| == 0 then [abandon] else [])
            && next.cancelPath == (if |lc.cancelPath| == 0 then cancel else lc.cancelPath)
            && next.managerExitPaths == lc.managerExitPaths + (if |lc.cancelPath| == 0 then [cancel] else [])
  {
    hide AbandonPath, CancelPath;
    TextsAre(spec.lifecycle.value.resourceType);
  }

  /** If no amount is decided, the manager sets it in every rule; otherwise the rules stay. */
  lemma RulesAre(reading: Reading, spec: Spec)
    requires Assignable(spec)
    ensures var rules, next := spec.payoutRules, Defaults(reading, spec).payoutRules;
            && (Settled(rules) ==> next == rules)
            && (!Settled(rules) ==>
                  && |next| == |rules|
                  && forall i :: 0 <= i < |rules| ==>
                       next[i] == rules[i].(
                         distributionMode := ManagerAssignedAmount, reservedOnApproval := true,
                         claimAmountSource := AMOUNT + spec.lifecycle.value.resourceType + AMOUNT_END,
                         winnerTakesAll := false, perUserAccountingRequired := true))
  {
    hide PayoutAmountDecided, Settled, AmountSource, WithDefaults;
    SettledIs(spec.payoutRules);
    TextsAre(spec.lifecycle.value.resourceType);
    if !Settled(spec.payoutRules) {
      NoneDecides(spec.payoutRules);
    }
  }

  lemma NoneDecides(rules: seq<PayoutRule>)
    requires !PayoutAmountDecided(rules)
    ensures forall i :: 0 <= i < |rules| ==> Blank(rules[i].claimAmountSource)
  {
    hide Blank;
    assert forall i :: 0 <= i < |rules| ==> !Decides(rules[i]);
  }

  ghost predicate Increasing(places: seq<nat>) {
    forall i, j :: 0 <= i < j < |places| ==> places[i] < places[j]
  }

  ghost predicate Selected(all: seq<string>, kept: seq<string>, places: seq<nat>) {
    && |places| == |kept| && Increasing(places)
    && forall k :: 0 <= k < |places| ==> places[k] < |all| && kept[k] == all[places[k]]
  }

  function Later(places: seq<nat>): (r: seq<nat>)
    ensures |r| == |places| && forall i :: 0 <= i < |r| ==> r[i] == places[i] + 1
  {
    seq(|places|, i requires 0 <= i < |places| => places[i] + 1)
  }

  lemma LaterHas(places: seq<nat>, k: nat)
    ensures k + 1 in Later(places) <==> k in places
    ensures 0 !in Later(places)
  {
    if k in places {
      var i :| 0 <= i < |places| && places[i] == k;
      assert Later(places)[i] == k + 1;
    }
  }

  lemma SelectedBehind(first: string, all: seq<string>, kept: seq<string>, places: seq<nat>)
    requires Selected(all, kept, places)
    ensures Selected([first] + all, kept, Later(places))
    ensures Selected([first] + all, [first] + kept, [0] + Later(places))
  {
    hide Later;
  }

  lemma {:induction false} UndecidedPlaces(risks: seq<string>, undecided: string -> bool) returns (places: seq<nat>)
    ensures Selected(risks, Undecided(risks, undecided), places)
    ensures forall i :: 0 <= i < |risks| ==> (i in places <==> !undecided(risks[i]))
  {
    hide Selected, Later;
    if risks == [] {
      places := [];
      NoneSelected();
    } else {
      var rest := UndecidedPlaces(risks[1..], undecided);
      places := if undecided(risks[0]) then Later(rest) else [0] + Later(rest);
      var kept := Undecided(risks[1..], undecided);
      SelectedBehind(risks[0], risks[1..], kept, rest);
      assert [risks[0]] + risks[1..] == risks && [] + kept == kept;
      forall i | 0 <= i < |risks|
        ensures i in places <==> !undecided(risks[i])
      {
        LaterHas(rest, if i > 0 then i - 1 else 0);
        if i > 0 {
          assert risks[1..][i - 1] == risks[i];
        }
      }
    }
  }

  lemma NoneSelected()
    ensures Selected([], [], [])
  {
  }

  /** The recorded risks that are not about an open decision, in their order. */
  lemma RisksAre(reading: Reading, spec: Spec) returns (places: seq<nat>)
    requires Assignable(spec)
    ensures Defaults(reading, spec).lifecycle.Some?
    ensures var risks, next := spec.lifecycle.value.stuckStateRisks, Defaults(reading, spec).lifecycle.value;
            && Selected(risks, next.stuckStateRisks, places)
            && forall i :: 0 <= i < |risks| ==> (i in places <==> !reading.undecidedRisk(risks[i]))
  {
    places := UndecidedPlaces(spec.lifecycle.value.stuckStateRisks, reading.undecidedRisk);
  }

  /** The first occurrences in a list, in their order. */
  lemma {:induction false} FirstPlaces(items: seq<string>) returns (places: seq<nat>)
    ensures Selected(items, Dedupe(items), places)
    ensures forall i :: 0 <= i < |items| ==> (i in places <==> items[i] !in items[..i])
  {
    hide Increasing;
    if items == [] {
      places := [];
      NoneIncreasing();
    } else {
      var front, last := items[..|items| - 1], items[|items| - 1];
      assert items == front + [last];
      var rest := FirstPlaces(front);
      DedupeKeeps(front);
      places := if last in Dedupe(front) then rest else rest + [|front|];
      OneMorePlace(front, Dedupe(front), rest, last);
      forall i | 0 <= i < |items|
        ensures i in places <==> items[i] !in items[..i]
      {
        assert i < |front| ==> items[..i] == front[..i];
        assert items[..|front|] == front;
      }
    }
  }

  lemma NoneIncreasing()
    ensures Increasing([])
  {
  }

  lemma OneMorePlace(front: seq<string>, kept: seq<string>, places: seq<nat>, last: string)
    requires Selected(front, kept, places)
    ensures Selected(front + [last], kept, places) && Selected(front + [last], kept + [last], places + [|front|])
  {
    assert (front + [last])[|front|] == last;
  }

  /** What must be visible: what was asked for and the four views, each once. */
  lemma ViewsAre(reading: Reading, spec: Spec) returns (places: seq<nat>)
    requires Assignable(spec)
    ensures Defaults(reading, spec).lifecycle.Some?
    ensures var lc, next := spec.lifecycle.value, Defaults(reading, spec).lifecycle.value;
            var all := lc.stateVisibility + ["a count view and a per-id getter for each " + lc.resourceType,
                                             "a per-user view of the user's current assignment/status",
                                             "a per-user view of the claimable amount",
                                             "a view of the reward funding bucket"];
            && Selected(all, next.stateVisibility, places)
            && forall i :: 0 <= i < |all| ==> (i in places <==> all[i] !in all[..i])
  {
    hide Selected;
    var lc := spec.lifecycle.value;
    places := FirstPlaces(lc.stateVisibility + Views(lc.resourceType));
  }

  /** A mechanic without an assignable resource stays as it is. */
  lemma NothingToDefault(reading: Reading, spec: Spec)
    requires !Assignable(spec)
    ensures Defaults(reading, spec) == spec
  {
  }
}
