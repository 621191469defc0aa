/** What a retry resends to the model: the seed head, the latest draft, and a note about dropped drafts. */
module RetryHistory {
  import opened Wrappers

  datatype Role = System | User | Assistant

  /** Phases of the fix log; only the last four describe failures worth repeating. */
  datatype Phase = GeneratingTests | Auditing | CompileFix | SafetyFix | TestFix | CriticRepair

  datatype FixEntry = FixEntry(phase: Phase, attempt: nat)

  /** A prompt, the draft a model call returned, or the note that replaces dropped drafts. */
  datatype Text = Prompt(id: nat) | Draft(version: nat) | Note(dropped: nat, failures: seq<FixEntry>)

  datatype Message = Message(role: Role, text: Text)

  predicate DescribesFailure(e: FixEntry) {
    e.phase == CompileFix || e.phase == SafetyFix || e.phase == TestFix || e.phase == CriticRepair
  }

  function Failures(fixLog: seq<FixEntry>): seq<FixEntry> {
    if fixLog == [] then []
    else (if DescribesFailure(fixLog[0]) then [fixLog[0]] else []) + Failures(fixLog[1..])
  }

  /** All but the newest failure, at most eight. */
  function Recalled(fixLog: seq<FixEntry>): (r: seq<FixEntry>)
    ensures |r| <= 8
  {
    var older := Failures(fixLog);
    var kept := if older == [] then [] else older[..|older| - 1];
    if |kept| <= 8 then kept else kept[|kept| - 8..]
  }

  function Drafts(tail: seq<Message>): nat {
    if tail == [] then 0
    else Drafts(tail[..|tail| - 1]) + (if tail[|tail| - 1].role == Assistant then 1 else 0)
  }

  /** The backward scan for the latest assistant message. */
  function LastDraft(tail: seq<Message>): (r: Option<nat>)
    ensures r.Some? ==> r.value < |tail| && tail[r.value].role == Assistant
    ensures r.Some? ==> forall k :: r.value < k < |tail| ==> tail[k].role != Assistant
    ensures r.None? ==> forall k :: 0 <= k < |tail| ==> tail[k].role != Assistant
  {
    if tail == [] then None
    else if tail[|tail| - 1].role == Assistant then Some(|tail| - 1)
    else LastDraft(tail[..|tail| - 1])
  }

  function PruneRetryHistory(messages: seq<Message>, headLength: nat, fixLog: seq<FixEntry>): seq<Message>
    requires headLength <= |messages|
  {
    var head, tail := messages[..headLength], messages[headLength..];
    var last := LastDraft(tail);
    if last.None? || last.value == 0 then messages
    else head + [Message(User, Note(Drafts(tail[..last.value]), Recalled(fixLog)))] + tail[last.value..]
  }

  /**
   * The head is untouched, the latest draft and everything after it survive intact, and no other draft
   * does: the result is the head, at most one note, and that suffix.
   */
  lemma PruneKeepsLatest(messages: seq<Message>, headLength: nat, fixLog: seq<FixEntry>)
    requires headLength <= |messages|
    ensures var pruned := PruneRetryHistory(messages, headLength, fixLog);
            var last := LastDraft(messages[headLength..]);
            && headLength <= |pruned| && pruned[..headLength] == messages[..headLength]
            && (last.None? ==> pruned == messages)
            && (last.Some? ==>
                  var latest := messages[headLength + last.value..];
                  && |latest| <= |pruned| - headLength <= |latest| + 1
                  && pruned[|pruned| - |latest|..] == latest
                  && Drafts(pruned[headLength..]) == 1)
  {
    hide Drafts, Recalled, LastDraft;
    var head, tail := messages[..headLength], messages[headLength..];
    var last := LastDraft(tail);
    if last.Some? {
      var latest := tail[last.value..];
      OneDraft(latest);
      assert messages[headLength + last.value..] == latest;
      if last.value == 0 {
        assert latest == tail;
      } else {
        var note := Message(User, Note(Drafts(tail[..last.value]), Recalled(fixLog)));
        NoteThenLatest(head, note, latest);
        assert PruneRetryHistory(messages, headLength, fixLog) == head + [note] + latest;
      }
    }
  }

  lemma NoteThenLatest(head: seq<Message>, note: Message, latest: seq<Message>)
    requires note.role == User
    ensures var pruned := head + [note] + latest;
            && pruned[..|head|] == head
            && pruned[|pruned| - |latest|..] == latest
            && Drafts(pruned[|head|..]) == Drafts(latest)
  {
    var pruned := head + [note] + latest;
    assert pruned[|head|..] == [note] + latest;
    assert [note][..0] == [];
    assert Drafts([note]) == 0;
    DraftsAppend([note], latest);
  }

  lemma {:induction false} OneDraft(latest: seq<Message>)
    requires latest != [] && latest[0].role == Assistant
    requires forall k :: 0 < k < |latest| ==> latest[k].role != Assistant
    ensures Drafts(latest) == 1
  {
    if |latest| > 1 {
      OneDraft(latest[..|latest| - 1]);
    } else {
      assert latest[..0] == [];
    }
  }

  lemma {:induction false} DraftsAppend(a: seq<Message>, b: seq<Message>)
    ensures Drafts(a + b) == Drafts(a) + Drafts(b)
    decreases |b|
  {
    if b == [] {
      assert a + b == a;
    } else {
      assert (a + b)[..|a + b| - 1] == a + b[..|b| - 1];
      DraftsAppend(a, b[..|b| - 1]);
    }
  }

  // ---- The note ----

  predicate RecordsFailure(e: FixEntry) {
    e.phase != GeneratingTests && e.phase != Auditing
  }

  ghost predicate Increasing(places: seq<nat>) {
    forall i, j :: 0 <= i < j < |places| ==> places[i] < places[j]
  }

  ghost predicate FailureAt(fixLog: seq<FixEntry>, place: nat, e: FixEntry) {
    place < |fixLog| && fixLog[place] == e && RecordsFailure(e)
  }

  /** The entries are those at these places, in order, and all of failures. */
  ghost predicate Placed(fixLog: seq<FixEntry>, places: seq<nat>, entries: seq<FixEntry>) {
    && |places| == |entries| && Increasing(places)
    && forall i :: 0 <= i < |places| ==> FailureAt(fixLog, places[i], entries[i])
  }

  /** No place behind this one holds a failure. */
  ghost predicate Newest(fixLog: seq<FixEntry>, k: nat) {
    forall newer :: k < newer < |fixLog| ==> !RecordsFailure(fixLog[newer])
  }

  /**
   * The failures recalled are at most eight, and the newest is not among them. Another is missing only if eight
   * newer ones are there.
   */
  ghost predicate Recalls(fixLog: seq<FixEntry>, places: seq<nat>, recalled: seq<FixEntry>) {
    && Placed(fixLog, places, recalled) && |recalled| <= 8
    && (forall i :: 0 <= i < |places| ==> !Newest(fixLog, places[i]))
    && (forall k :: 0 <= k < |fixLog| && RecordsFailure(fixLog[k]) && !Newest(fixLog, k) ==>
                      k in places || (|places| == 8 && k < places[0]))
  }

  ghost predicate AllPlaced(fixLog: seq<FixEntry>, places: seq<nat>) {
    forall k :: 0 <= k < |fixLog| && RecordsFailure(fixLog[k]) ==> k in places
  }

  function Later(places: seq<nat>): (r: seq<nat>)
    ensures |r| == |places| && forall i :: 0 <= i < |r| ==> r[i] == places[i] + 1
  {
    if places == [] then [] else [places[0] + 1] + Later(places[1..])
  }

  lemma {:induction false} LaterHas(places: seq<nat>, k: nat)
    requires k in places
    ensures k + 1 in Later(places)
  {
    if places[0] != k {
      LaterHas(places[1..], k);
    }
  }

  function Places(fixLog: seq<FixEntry>): seq<nat> {
    if fixLog == [] then []
    else (if DescribesFailure(fixLog[0]) then [0] else []) + Later(Places(fixLog[1..]))
  }

  lemma {:induction false} FailuresPlaced(fixLog: seq<FixEntry>)
    ensures Placed(fixLog, Places(fixLog), Failures(fixLog))
  {
    hide Increasing, FailureAt, Placed;
    if fixLog == [] {
      NoneIncreasing();
    } else {
      FailuresPlaced(fixLog[1..]);
      var rest, entries := Places(fixLog[1..]), Failures(fixLog[1..]);
      PlacedLater(fixLog, rest, entries);
      if DescribesFailure(fixLog[0]) {
        PlacedFront(fixLog, Later(rest), entries);
      } else {
        assert Places(fixLog) == Later(rest) && Failures(fixLog) == entries;
      }
    }
  }

  lemma PlacedLater(fixLog: seq<FixEntry>, places: seq<nat>, entries: seq<FixEntry>)
    requires fixLog != [] && Placed(fixLog[1..], places, entries)
    ensures Placed(fixLog, Later(places), entries) && Increasing([0] + Later(places))
  {
    hide Increasing, FailureAt;
    LaterIncreasing(places);
    forall i | 0 <= i < |places|
      ensures FailureAt(fixLog, Later(places)[i], entries[i])
    {
      FailureBehind(fixLog, places[i], entries[i]);
    }
  }

  lemma PlacedFront(fixLog: seq<FixEntry>, later: seq<nat>, entries: seq<FixEntry>)
    requires fixLog != [] && DescribesFailure(fixLog[0]) && Placed(fixLog, later, entries) && Increasing([0] + later)
    ensures Placed(fixLog, [0] + later, [fixLog[0]] + entries)
  {
    hide Increasing, FailureAt;
    FirstFailure(fixLog);
  }

  lemma NoneIncreasing()
    ensures Placed([], [], [])
  {
  }

  lemma LaterIncreasing(places: seq<nat>)
    requires Increasing(places)
    ensures Increasing(Later(places)) && Increasing([0] + Later(places))
  {
    assert forall i :: 0 < i <= |places| ==> ([0] + Later(places))[i] == places[i - 1] + 1;
  }

  lemma FailureBehind(fixLog: seq<FixEntry>, place: nat, e: FixEntry)
    requires fixLog != [] && FailureAt(fixLog[1..], place, e)
    ensures FailureAt(fixLog, place + 1, e)
  {
  }

  lemma FirstFailure(fixLog: seq<FixEntry>)
    requires fixLog != [] && DescribesFailure(fixLog[0])
    ensures FailureAt(fixLog, 0, fixLog[0])
  {
  }

  lemma {:induction false} FailuresFound(fixLog: seq<FixEntry>)
    ensures AllPlaced(fixLog, Places(fixLog))
  {
    if fixLog != [] {
      FailuresFound(fixLog[1..]);
      forall k | 0 <= k < |fixLog| && RecordsFailure(fixLog[k])
        ensures k in Places(fixLog)
      {
        if k > 0 {
          assert fixLog[1..][k - 1] == fixLog[k];
          LaterHas(Places(fixLog[1..]), k - 1);
        }
      }
    }
  }

  lemma LastIsNewest(fixLog: seq<FixEntry>, places: seq<nat>, entries: seq<FixEntry>)
    requires Placed(fixLog, places, entries) && AllPlaced(fixLog, places) && places != []
    ensures Newest(fixLog, places[|places| - 1])
    ensures forall i :: 0 <= i < |places| - 1 ==> !Newest(fixLog, places[i])
  {
    var last := places[|places| - 1];
    forall newer | last < newer < |fixLog|
      ensures !RecordsFailure(fixLog[newer])
    {
    }
    assert RecordsFailure(fixLog[last]);
  }

  lemma SlicePlaced(fixLog: seq<FixEntry>, places: seq<nat>, entries: seq<FixEntry>, from: nat, n: nat)
    requires Placed(fixLog, places, entries) && from <= n <= |places|
    ensures Placed(fixLog, places[from..n], entries[from..n])
  {
    hide FailureAt;
  }

  lemma FoundInSlice(places: seq<nat>, from: nat, k: nat)
    requires Increasing(places) && from < |places| && k in places && k != places[|places| - 1]
    ensures k in places[from..|places| - 1] || (from > 0 && k < places[from])
  {
    var i :| 0 <= i < |places| && places[i] == k;
    if i >= from {
      assert places[from..|places| - 1][i - from] == k;
    }
  }

  lemma RecalledSlice(fixLog: seq<FixEntry>, n: nat, from: nat)
    requires n + 1 == |Failures(fixLog)| && from == if n <= 8 then 0 else n - 8
    ensures Recalled(fixLog) == Failures(fixLog)[from..n]
  {
    hide Failures;
  }

  /** Every failure but the newest is in the slice, or older than it. */
  lemma SliceIsComplete(fixLog: seq<FixEntry>, all: seq<nat>, from: nat)
    requires Increasing(all) && AllPlaced(fixLog, all) && from < |all| && Newest(fixLog, all[|all| - 1])
    ensures forall k :: 0 <= k < |fixLog| && RecordsFailure(fixLog[k]) && !Newest(fixLog, k) ==>
                          k in all[from..|all| - 1] || (from > 0 && k < all[from])
  {
    hide Newest, RecordsFailure, Increasing;
    forall k: nat | k < |fixLog| && RecordsFailure(fixLog[k]) && !Newest(fixLog, k)
      ensures k in all[from..|all| - 1] || (from > 0 && k < all[from])
    {
      FoundInSlice(all, from, k);
    }
  }

  /** All but the newest failure, and of those the last eight. */
  lemma RecalledIs(fixLog: seq<FixEntry>) returns (places: seq<nat>)
    ensures Recalls(fixLog, places, Recalled(fixLog))
  {
    hide Failures, Places, Newest, RecordsFailure, FailureAt, Placed, Increasing, AllPlaced, Recalled;
    var all := Places(fixLog);
    FailuresPlaced(fixLog);
    FailuresFound(fixLog);
    PlacedIs(fixLog, all, Failures(fixLog));
    if all == [] {
      places := [];
      NoneRecalled(fixLog);
    } else {
      LastIsNewest(fixLog, all, Failures(fixLog));
      var n := |all| - 1;
      var from := if n <= 8 then 0 else n - 8;
      places := all[from..n];
      RecalledSlice(fixLog, n, from);
      SlicePlaced(fixLog, all, Failures(fixLog), from, n);
      SliceIsComplete(fixLog, all, from);
    }
  }

  lemma PlacedIs(fixLog: seq<FixEntry>, places: seq<nat>, entries: seq<FixEntry>)
    requires Placed(fixLog, places, entries)
    ensures |places| == |entries| && Increasing(places)
  {
  }

  lemma NoneRecalled(fixLog: seq<FixEntry>)
    requires AllPlaced(fixLog, []) && Failures(fixLog) == []
    ensures Recalls(fixLog, [], Recalled(fixLog))
  {
    hide Failures, Newest;
  }

  function Answers(tail: seq<Message>): set<int> {
    set k | 0 <= k < |tail| && tail[k].role == Assistant
  }

  lemma {:induction false} DraftsAreAnswers(tail: seq<Message>)
    ensures Drafts(tail) == |Answers(tail)|
  {
    hide Answers;
    if tail == [] {
      NoAnswers();
    } else {
      DraftsAreAnswers(tail[..|tail| - 1]);
      LastAnswer(tail);
    }
  }

  lemma NoAnswers()
    ensures Answers([]) == {}
  {
  }

  lemma LastAnswer(tail: seq<Message>)
    requires tail != []
    ensures var before, last := Answers(tail[..|tail| - 1]), |tail| - 1;
            last !in before && Answers(tail) == if tail[last].role == Assistant then before + {last} else before
  {
  }

  /**
   * With `n` messages between the head and the latest draft, the list is pruned exactly when n > 0: to the head,
   * a note that says how many of those were drafts and recalls the failures, and everything from that draft on.
   */
  lemma PruneNotes(head: seq<Message>, dropped: seq<Message>, latest: seq<Message>, fixLog: seq<FixEntry>)
    returns (places: seq<nat>, recalled: seq<FixEntry>)
    requires latest != [] && latest[0].role == Assistant
    requires forall k :: 0 < k < |latest| ==> latest[k].role != Assistant
    ensures Recalls(fixLog, places, recalled)
    ensures PruneRetryHistory(head + dropped + latest, |head|, fixLog)
            == if dropped == [] then head + latest
               else head + [Message(User, Note(|Answers(dropped)|, recalled))]
                    + latest
  {
    hide Failures, Recalled, Drafts, LastDraft, Recalls;
    places := RecalledIs(fixLog);
    recalled := Recalled(fixLog);
    DraftsAreAnswers(dropped);
    var all := head + dropped + latest;
    var tail := dropped + latest;
    assert all[..|head|] == head && all[|head|..] == tail;
    LatestIs(dropped, latest);
    assert tail[..|dropped|] == dropped && tail[|dropped|..] == latest;
  }

  lemma LatestIs(dropped: seq<Message>, latest: seq<Message>)
    requires latest != [] && latest[0].role == Assistant
    requires forall k :: 0 < k < |latest| ==> latest[k].role != Assistant
    ensures LastDraft(dropped + latest) == Some(|dropped|)
  {
    hide LastDraft;
    var tail := dropped + latest;
    assert tail[|dropped|] == latest[0];
    assert forall k :: |dropped| < k < |tail| ==> tail[k] == latest[k - |dropped|];
  }

  /** Without a draft behind the head nothing is pruned. */
  lemma NoDraftNoNote(head: seq<Message>, tail: seq<Message>, fixLog: seq<FixEntry>)
    requires forall m :: m in tail ==> m.role != Assistant
    ensures PruneRetryHistory(head + tail, |head|, fixLog) == head + tail
  {
    hide Recalled, Drafts, LastDraft;
    assert (head + tail)[|head|..] == tail;
  }

  /** What the pipeline hands to a model call. */
  ghost predicate Callable(messages: seq<Message>, head: seq<Message>) {
    head <= messages && |messages| <= |head| + 4 && messages != [] && messages[|messages| - 1].role == User
  }

  /** The call shows the model the draft of the given pass, followed by a prompt. */
  ghost predicate Follows(call: seq<Message>, version: nat) {
    |call| >= 2 && call[|call| - 2] == Message(Assistant, Draft(version)) && call[|call| - 1].role == User
  }

  /** After a draft and its fix prompt, pruning leaves at most the note, the draft and the prompt. */
  lemma PruneAfterDraft(messages: seq<Message>, head: seq<Message>, fixLog: seq<FixEntry>, fix: Message)
    requires head <= messages && |messages| > |head| && messages[|messages| - 1].role == Assistant && fix.role == User
    ensures var pruned := PruneRetryHistory(messages + [fix], |head|, fixLog);
            && Callable(pruned, head) && 2 <= |pruned| <= |head| + 3
            && pruned[|pruned| - 2..] == [messages[|messages| - 1], fix]
  {
    hide PruneRetryHistory, LastDraft, Drafts;
    var all := messages + [fix];
    PruneKeepsLatest(all, |head|, fixLog);
    var tail := all[|head|..];
    assert tail[|tail| - 2] == messages[|messages| - 1] && tail[|tail| - 1] == fix;
    SecondLastDraft(tail);
    assert all[..|head|] == head;
    assert all[|head| + (|tail| - 2)..] == [messages[|messages| - 1], fix];
    LatestAtEnd(PruneRetryHistory(all, |head|, fixLog), head, [messages[|messages| - 1], fix]);
  }

  lemma SecondLastDraft(tail: seq<Message>)
    requires |tail| >= 2 && tail[|tail| - 2].role == Assistant && tail[|tail| - 1].role == User
    ensures LastDraft(tail) == Some(|tail| - 2)
  {
  }

  lemma LatestAtEnd(pruned: seq<Message>, head: seq<Message>, latest: seq<Message>)
    requires |head| <= |pruned| && pruned[..|head|] == head && |latest| == 2 && latest[1].role == User
    requires 2 <= |pruned| - |head| <= 3 && pruned[|pruned| - 2..] == latest
    ensures Callable(pruned, head)
  {
    assert pruned[|pruned| - 1] == latest[1];
  }

  /** A prompt after at most three messages is still within the bound. */
  lemma PruneAfterPrompt(messages: seq<Message>, head: seq<Message>, fixLog: seq<FixEntry>, fix: Message)
    requires head <= messages && |messages| <= |head| + 3 && fix.role == User
    ensures Callable(PruneRetryHistory(messages + [fix], |head|, fixLog), head)
  {
    var all := messages + [fix];
    PruneKeepsLatest(all, |head|, fixLog);
    assert all[..|head|] == head;
    var last := LastDraft(all[|head|..]);
    if last.Some? && last.value > 0 {
      var latest := all[|head| + last.value..];
      assert latest[|latest| - 1] == fix;
    }
  }

  /** A prompt behind a prompt follows no draft, pruned or not. */
  lemma PromptAfterPrompt(messages: seq<Message>, head: seq<Message>, fixLog: seq<FixEntry>, fix: Message, version: nat)
    requires head <= messages && messages != [] && messages[|messages| - 1].role == User && fix.role == User
    ensures !Follows(PruneRetryHistory(messages + [fix], |head|, fixLog), version)
  {
    var all := messages + [fix];
    assert all[..|head|] == head;
    var last := LastDraft(all[|head|..]);
    if last.Some? && last.value > 0 {
      var latest := all[|head| + last.value..];
      assert latest == all[|head|..][last.value..];
      assert latest[|latest| - 2] == messages[|messages| - 1];
    }
  }
}
