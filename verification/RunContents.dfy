/** What a run says: which events its buffer and its stored history hold, read off the steps alone. */
module RunContents {
  import opened Wrappers
  import opened RunProtocol
  import opened RunSafety

  /** An event without its number. */
  datatype Entry = Entry(eventType: EventType, payload: Payload)

  function Entries(buffer: seq<Event>): seq<Entry> {
    seq(|buffer|, i requires 0 <= i < |buffer| => Entry(buffer[i].eventType, buffer[i].payload))
  }

  // ---- Read off the steps ----

  predicate Subscribed(steps: seq<Step>) {
    exists step :: step in steps && step.Subscribe?
  }

  /** The events the generator causes, one for each of its own but the result. */
  function Progress(steps: seq<Step>): seq<Entry> {
    if steps == [] then []
    else
      Progress(steps[..|steps| - 1]) +
      match steps[|steps| - 1]
      case Generate(Note(t, text)) => [Entry(t, Plain(text))]
      case Generate(Delta(text)) => [Entry(CodeDelta, Plain(text))]
      case Generate(ErrorNote(text)) => [Entry(Status, Plain(text))]
      case _ => []
  }

  function LastResult(steps: seq<Step>): Option<Outcome> {
    if steps == [] then None
    else
      match steps[|steps| - 1]
      case Generate(ResultNote(outcome)) => Some(outcome)
      case _ => LastResult(steps[..|steps| - 1])
  }

  function LastError(steps: seq<Step>): Option<Text> {
    if steps == [] then None
    else
      match steps[|steps| - 1]
      case Generate(ErrorNote(text)) => Some(text)
      case _ => LastError(steps[..|steps| - 1])
  }

  /** What the generator's promise settled with, once it has. */
  function Thrown(steps: seq<Step>): Option<Option<Text>> {
    if steps == [] then None
    else
      match steps[|steps| - 1]
      case Settle(thrown) => Some(thrown)
      case _ => Thrown(steps[..|steps| - 1])
  }

  function Finishes(steps: seq<Step>): nat {
    if steps == [] then 0 else Finishes(steps[..|steps| - 1]) + (if steps[|steps| - 1].Finish? then 1 else 0)
  }

  /** A result wins over a thrown error, which wins over a reported one; 0 stands for the default text. */
  function Closing(steps: seq<Step>): seq<Entry> {
    var result, thrown, reported := LastResult(steps), Thrown(steps), LastError(steps);
    if thrown.None? then []
    else if result.Some? then
      (if result.value.source.Some? then [Entry(CodeComplete, Plain(result.value.id))] else [])
      + [Entry(RunCompleted, FullResult(result.value))]
    else if thrown.value.Some? then [Entry(RunFailed, Plain(thrown.value.value))]
    else if reported.Some? then [Entry(RunFailed, Plain(reported.value))]
    else [Entry(RunFailed, Plain(0))]
  }

  /** Started, then the generator's events in order, then as much of the closing events as was finished. */
  function Told(steps: seq<Step>): seq<Entry> {
    (if Subscribed(steps) then [Entry(RunStarted, Plain(0))] else []) + Progress(steps)
    + (if Finishes(steps) <= |Closing(steps)| then Closing(steps)[..Finishes(steps)] else Closing(steps))
  }

  /** The latest of the listener's own steps subscribes it. */
  function Listening(steps: seq<Step>, l: Listener): bool {
    if steps == [] then false
    else
      match steps[|steps| - 1]
      case Subscribe(m) => m == l || Listening(steps[..|steps| - 1], l)
      case Unsubscribe(m) => m != l && Listening(steps[..|steps| - 1], l)
      case _ => Listening(steps[..|steps| - 1], l)
  }

  predicate Answered(steps: seq<Step>, n: nat) {
    PersistDone(n, true) in steps || PersistDone(n, false) in steps
  }

  // ---- The state says what the steps say ----

  /** Nothing the generator does has happened. */
  predicate Untold(steps: seq<Step>) {
    Progress(steps) == [] && LastResult(steps).None? && LastError(steps).None? && Thrown(steps).None?
    && Finishes(steps) == 0
  }

  ghost predicate Phased(steps: seq<Step>, phase: Phase) {
    match phase
    case Idle => !Subscribed(steps) && Untold(steps)
    case Announced => Subscribed(steps) && Untold(steps)
    case Generating(result, failure) =>
      Subscribed(steps) && Thrown(steps).None? && Finishes(steps) == 0
      && result == LastResult(steps) && failure == LastError(steps)
    case Finishing(outcome) =>
      Subscribed(steps) && Thrown(steps).Some? && Finishes(steps) == 0 && LastResult(steps) == Some(outcome)
    case Sealing(outcome) =>
      Subscribed(steps) && Thrown(steps).Some? && Finishes(steps) == 1 && LastResult(steps) == Some(outcome)
      && outcome.source.Some?
    case Failing(error) =>
      Subscribed(steps) && Thrown(steps).Some? && Finishes(steps) == 0
      && Closing(steps) == [Entry(RunFailed, Plain(error))]
    case Done => Subscribed(steps) && Thrown(steps).Some? && Finishes(steps) == |Closing(steps)|
  }

  function StatusOf(steps: seq<Step>): RunStatus {
    if !Subscribed(steps) then Pending
    else if Thrown(steps).None? then Running
    else if LastResult(steps).Some? then Completed else Failed
  }

  ghost predicate Tells(steps: seq<Step>, s: State) {
    && Numbered(s) && s.status == StatusOf(steps)
    && Entries(s.buffer) == Told(steps) && s.started == Subscribed(steps) && Phased(steps, s.phase)
    && (forall l :: l in s.listeners <==> Listening(steps, l))
    && (forall n :: n in s.persisted <==> PersistDone(n, true) in steps)
    && (forall n :: n in s.lost <==> PersistDone(n, false) in steps)
  }

  lemma OneMoreStep(steps: seq<Step>, step: Step)
    ensures var more := steps + [step];
            && Progress(more) == Progress(steps) + (match step
                                                    case Generate(Note(t, text)) => [Entry(t, Plain(text))]
                                                    case Generate(Delta(text)) => [Entry(CodeDelta, Plain(text))]
                                                    case Generate(ErrorNote(text)) => [Entry(Status, Plain(text))]
                                                    case _ => [])
            && (Subscribed(more) <==> Subscribed(steps) || step.Subscribe?)
            && LastResult(more) == (if step.Generate? && step.event.ResultNote? then Some(step.event.outcome)
                                    else LastResult(steps))
            && LastError(more) == (if step.Generate? && step.event.ErrorNote? then Some(step.event.text)
                                   else LastError(steps))
            && Thrown(more) == (if step.Settle? then Some(step.thrown) else Thrown(steps))
            && Finishes(more) == Finishes(steps) + (if step.Finish? then 1 else 0)
  {
    var more := steps + [step];
    assert more[..|steps|] == steps && more[|steps|] == step;
    assert forall x :: x in more <==> x in steps || x == step;
  }

  lemma OneMoreListens(steps: seq<Step>, step: Step, l: Listener)
    ensures Listening(steps + [step], l) <==>
            if step == Subscribe(l) then true else if step == Unsubscribe(l) then false else Listening(steps, l)
  {
    var more := steps + [step];
    assert more[..|steps|] == steps && more[|steps|] == step;
  }

  lemma EntriesAppend(buffer: seq<Event>, e: Event)
    ensures Entries(buffer + [e]) == Entries(buffer) + [Entry(e.eventType, e.payload)]
  {
  }

  lemma StepListens(steps: seq<Step>, s: State, step: Step)
    requires Enabled(s, step) && forall l :: l in s.listeners <==> Listening(steps, l)
    ensures forall l :: l in Apply(s, step).listeners <==> Listening(steps + [step], l)
  {
    hide Deliver, Listening;
    forall l
      ensures l in Apply(s, step).listeners <==> Listening(steps + [step], l)
    {
      OneMoreListens(steps, step, l);
    }
  }

  lemma StepAnswers(steps: seq<Step>, s: State, step: Step)
    requires Enabled(s, step)
    requires forall n :: n in s.persisted <==> PersistDone(n, true) in steps
    requires forall n :: n in s.lost <==> PersistDone(n, false) in steps
    ensures var t := Apply(s, step);
            && (forall n :: n in t.persisted <==> PersistDone(n, true) in steps + [step])
            && (forall n :: n in t.lost <==> PersistDone(n, false) in steps + [step])
  {
    hide Deliver;
    assert forall x :: x in steps + [step] <==> x in steps || x == step;
  }

  lemma StepStatus(steps: seq<Step>, s: State, step: Step)
    requires Enabled(s, step) && Phased(steps, s.phase) && s.started == Subscribed(steps)
    requires s.status == StatusOf(steps)
    ensures Apply(s, step).status == StatusOf(steps + [step])
  {
    hide Deliver, Progress, LastResult, LastError, Thrown, Finishes, Subscribed;
    OneMoreStep(steps, step);
  }

  lemma StepNumbers(s: State, step: Step)
    requires Enabled(s, step) && Numbered(s)
    ensures Numbered(Apply(s, step))
  {
    hide Deliver;
  }

  /** The part of the state that the steps tell about. */
  lemma StepTells(steps: seq<Step>, s: State, step: Step)
    requires Enabled(s, step) && Tells(steps, s)
    ensures Tells(steps + [step], Apply(s, step))
  {
    hide Listening, Apply, Enabled, Phased, Told, Entries, Subscribed, StatusOf, Numbered;
    StepStatus(steps, s, step);
    StepNumbers(s, step);
    StepListens(steps, s, step);
    StepAnswers(steps, s, step);
    StepPhases(steps, s, step);
    StepBuffers(steps, s, step);
  }

  lemma StepPhases(steps: seq<Step>, s: State, step: Step)
    requires Enabled(s, step) && Phased(steps, s.phase) && s.started == Subscribed(steps)
    ensures Phased(steps + [step], Apply(s, step).phase) && Apply(s, step).started == Subscribed(steps + [step])
  {
    hide Deliver, Progress, LastResult, LastError, Thrown, Finishes, Subscribed;
    OneMoreStep(steps, step);
  }

  lemma StepBuffers(steps: seq<Step>, s: State, step: Step)
    requires Enabled(s, step) && Phased(steps, s.phase) && s.started == Subscribed(steps)
    requires Entries(s.buffer) == Told(steps)
    ensures Entries(Apply(s, step).buffer) == Told(steps + [step])
  {
    hide Apply, Enabled, Phased, Told, Entries, Subscribed;
    if step.Finish? {
      FinishBuffers(steps, s, step);
    } else if step.Generate? {
      EventBuffers(steps, s, step);
    } else {
      OtherBuffers(steps, s, step);
    }
  }

  lemma FinishBuffers(steps: seq<Step>, s: State, step: Step)
    requires step.Finish?
    requires Enabled(s, step) && Phased(steps, s.phase) && s.started == Subscribed(steps)
    requires Entries(s.buffer) == Told(steps)
    ensures Entries(Apply(s, step).buffer) == Told(steps + [step])
  {
    hide Deliver, Progress, LastResult, LastError, Thrown, Finishes, Subscribed, Entries;
    OneMoreStep(steps, step);
    var t := Apply(s, step);
    if t.buffer != s.buffer {
      var e := t.buffer[|s.buffer|];
      assert t.buffer == s.buffer + [e];
      EntriesAppend(s.buffer, e);
    }
  }

  lemma EventBuffers(steps: seq<Step>, s: State, step: Step)
    requires step.Generate?
    requires Enabled(s, step) && Phased(steps, s.phase) && s.started == Subscribed(steps)
    requires Entries(s.buffer) == Told(steps)
    ensures Entries(Apply(s, step).buffer) == Told(steps + [step])
  {
    hide Deliver, Progress, LastResult, LastError, Thrown, Finishes, Subscribed, Entries;
    OneMoreStep(steps, step);
    var t := Apply(s, step);
    if t.buffer != s.buffer {
      var e := t.buffer[|s.buffer|];
      assert t.buffer == s.buffer + [e];
      EntriesAppend(s.buffer, e);
    }
  }

  lemma OtherBuffers(steps: seq<Step>, s: State, step: Step)
    requires !step.Finish? && !step.Generate?
    requires Enabled(s, step) && Phased(steps, s.phase) && s.started == Subscribed(steps)
    requires Entries(s.buffer) == Told(steps)
    ensures Entries(Apply(s, step).buffer) == Told(steps + [step])
  {
    hide Deliver, Progress, LastResult, LastError, Thrown, Finishes, Subscribed, Entries;
    OneMoreStep(steps, step);
    var t := Apply(s, step);
    if t.buffer != s.buffer {
      var e := t.buffer[|s.buffer|];
      assert t.buffer == s.buffer + [e];
      EntriesAppend(s.buffer, e);
    }
  }

  lemma {:induction false} RunTells(done: seq<Step>, s: State, steps: seq<Step>, t: State)
    requires Tells(done, s) && Run(s, steps, t)
    ensures Tells(done + steps, t)
    decreases |steps|
  {
    hide Tells, Apply, Enabled;
    if steps == [] {
      assert done + steps == done;
    } else {
      StepTells(done, s, steps[0]);
      assert done + [steps[0]] + steps[1..] == done + steps;
      RunTells(done + [steps[0]], Apply(s, steps[0]), steps[1..], t);
    }
  }

  lemma InitialTells(runId: RunId, events: seq<StoredEvent>)
    ensures Tells([], Initial(runId, events))
  {
  }

  /**
   * On every run the buffer holds the start, then exactly one event for each generator event among the steps but the
   * results, in order and with its own type and text, then the closing events, numbered one by one.
   */
  lemma BufferIsTold(runId: RunId, events: seq<StoredEvent>, steps: seq<Step>, t: State)
    requires Run(Initial(runId, events), steps, t)
    ensures |t.buffer| == |Told(steps)|
    ensures forall i :: 0 <= i < |t.buffer| ==>
                          t.buffer[i] == Event(Told(steps)[i].eventType, i + 1, Told(steps)[i].payload)
    ensures t.status == if !Subscribed(steps) then Pending else if Thrown(steps).None? then Running
                        else if LastResult(steps).Some? then Completed else Failed
  {
    hide Told, Subscribed, Progress, Run;
    InitialTells(runId, events);
    RunTells([], Initial(runId, events), steps, t);
    assert [] + steps == steps;
    assert forall i :: 0 <= i < |t.buffer| ==>
                         Entries(t.buffer)[i] == Entry(t.buffer[i].eventType, t.buffer[i].payload);
  }

  // ---- Who listens ----

  /** A listener is active exactly when the latest of its own steps subscribed it. */
  lemma ActiveIffSubscribed(runId: RunId, events: seq<StoredEvent>, steps: seq<Step>, t: State, l: Listener)
    requires Run(Initial(runId, events), steps, t)
    ensures l in t.listeners <==> Listening(steps, l)
  {
    hide Told, Progress, Run, Listening;
    InitialTells(runId, events);
    RunTells([], Initial(runId, events), steps, t);
    assert [] + steps == steps;
  }

  /** Without subscribing again, whoever left receives nothing more. */
  lemma {:induction false} SilentOnceGone(s: State, steps: seq<Step>, t: State, l: Listener)
    requires Run(s, steps, t) && l !in s.listeners && Subscribe(l) !in steps
    ensures l !in t.listeners && Inbox(t.inbox, l) == Inbox(s.inbox, l)
    decreases |steps|
  {
    if steps != [] {
      StepIsSilent(s, steps[0], l);
      assert forall x :: x in steps[1..] ==> x in steps;
      hide Apply, Enabled, Inbox;
      SilentOnceGone(Apply(s, steps[0]), steps[1..], t, l);
    }
  }

  lemma StepIsSilent(s: State, step: Step, l: Listener)
    requires Enabled(s, step) && l !in s.listeners && step != Subscribe(l)
    ensures l !in Apply(s, step).listeners && Inbox(Apply(s, step).inbox, l) == Inbox(s.inbox, l)
  {
  }

  // ---- The stored history ----

  /** What the table keeps of an event: everything but the source of a result. */
  predicate Stores(stored: Event, e: Event) {
    stored.eventType == e.eventType && stored.sequence == e.sequence
    && match e.payload
       case FullResult(outcome) => stored.payload == TrimmedResult(outcome.id)
       case _ => stored.payload == e.payload
  }

  lemma {:induction false} KeptStores(buffer: seq<Event>, persisted: set<nat>, stored: Event)
    requires forall i :: 0 <= i < |buffer| ==> buffer[i].sequence == i + 1
    ensures stored in Kept(buffer, persisted)
            <==> exists n: nat :: 0 < n <= |buffer| && n in persisted && Stores(stored, buffer[n - 1])
  {
    if buffer != [] {
      var rest, last := buffer[..|buffer| - 1], buffer[|buffer| - 1];
      KeptStores(rest, persisted, stored);
      assert stored in Kept(buffer, persisted)
             <==> stored in Kept(rest, persisted) || (last.sequence in persisted && stored == Persistable(last));
      assert Stores(stored, last) <==> stored == Persistable(last);
      if exists n: nat :: 0 < n <= |buffer| && n in persisted && Stores(stored, buffer[n - 1]) {
        var n: nat :| 0 < n <= |buffer| && n in persisted && Stores(stored, buffer[n - 1]);
        assert n < |buffer| ==> rest[n - 1] == buffer[n - 1];
      }
      if exists n: nat :: 0 < n <= |rest| && n in persisted && Stores(stored, rest[n - 1]) {
        var n: nat :| 0 < n <= |rest| && n in persisted && Stores(stored, rest[n - 1]);
        assert rest[n - 1] == buffer[n - 1];
      }
    }
  }

  /**
   * Once every persist was answered, the history listed for the run is in emission order and holds exactly the events
   * that are neither code deltas nor heartbeats and whose persist succeeded, results without their source.
   */
  lemma HistoryIsTold(runId: RunId, events: seq<StoredEvent>, steps: seq<Step>, t: State, stored: Event)
    requires forall e :: e in events ==> e.runId != runId
    requires Run(Initial(runId, events), steps, t) && t.inFlight == {}
    ensures Ordered(Listed(t.events, t.runId))
    ensures stored in Listed(t.events, t.runId)
            <==> exists n: nat :: && 0 < n <= |t.buffer| && PersistDone(n, true) in steps
                                  && Stores(stored, t.buffer[n - 1])
    ensures forall n: nat :: 0 < n <= |t.buffer| ==>
                               (Answered(steps, n)
                                <==> t.buffer[n - 1].eventType != CodeDelta && t.buffer[n - 1].eventType != Heartbeat)
  {
    hide Told, Progress, Run, Listening, Delivered, Lifecycle, Kept, Listed, Stores, Ordered;
    InitialTells(runId, events);
    RunTells([], Initial(runId, events), steps, t);
    assert [] + steps == steps;
    HistoryIsTheBuffer(runId, events, steps, t);
    InitialIsSafe(runId, events);
    RunKeepsSafe(Initial(runId, events), steps, t);
    KeptStores(t.buffer, t.persisted, stored);
  }

  // ---- What is waited for ----

  /** The start is answered before the generator runs, and the announced source before the run completes. */
  ghost predicate Awaited(s: State) {
    && (s.generatorStarts > 0 ==> 1 !in s.inFlight && s.buffer != [])
    && (s.phase.Done? && s.buffer != [] && Announces(s.buffer[|s.buffer| - 1]) ==> |s.buffer| - 1 !in s.inFlight)
  }

  /** The completion of a run whose result has source. */
  predicate Announces(e: Event) {
    e.eventType == RunCompleted && e.payload.FullResult? && e.payload.outcome.source.Some?
  }

  lemma StepAwaits(s: State, step: Step)
    requires Enabled(s, step) && Awaited(s) && Numbered(s) && Lifecycle(s)
    ensures Awaited(Apply(s, step))
  {
    hide Deliver, Open;
    var t := Apply(s, step);
    if step.Finish? {
      assert t.buffer[..|s.buffer|] == s.buffer;
    }
  }

  lemma {:induction false} RunAwaits(s: State, steps: seq<Step>, t: State)
    requires Run(s, steps, t) && Awaited(s) && Numbered(s) && Lifecycle(s)
    ensures Awaited(t) && Numbered(t)
    decreases |steps|
  {
    hide Awaited, Numbered, Lifecycle, Enabled, Apply;
    if steps != [] {
      StepAwaits(s, steps[0]);
      StepNumbers(s, steps[0]);
      StepLifecycle(s, steps[0]);
      RunAwaits(Apply(s, steps[0]), steps[1..], t);
    }
  }

  /**
   * The generator runs only after the persist of the start was answered, and a run with source completes only after
   * the persist of its announcement was.
   */
  lemma AwaitsAreAnswered(runId: RunId, events: seq<StoredEvent>, steps: seq<Step>, t: State)
    requires forall e :: e in events ==> e.runId != runId
    requires Run(Initial(runId, events), steps, t)
    ensures StartGenerator in steps ==> Answered(steps, 1)
    ensures t.buffer != [] && Announces(t.buffer[|t.buffer| - 1]) ==> Answered(steps, |t.buffer| - 1)
  {
    hide Tells, Run, Delivered, History;
    InitialTells(runId, events);
    RunTells([], Initial(runId, events), steps, t);
    assert [] + steps == steps;
    InitialIsSafe(runId, events);
    RunKeepsSafe(Initial(runId, events), steps, t);
    assert Awaited(Initial(runId, events)) && Numbered(Initial(runId, events)) && Lifecycle(Initial(runId, events));
    RunAwaits(Initial(runId, events), steps, t);
    if StartGenerator in steps {
      GeneratorStarted(Initial(runId, events), steps, t);
      IsAnswered(steps, t, 1);
    }
    if t.buffer != [] && Announces(t.buffer[|t.buffer| - 1]) {
      AnnouncedBefore(t);
      IsAnswered(steps, t, |t.buffer| - 1);
    }
  }

  lemma IsAnswered(steps: seq<Step>, t: State, n: nat)
    requires Tells(steps, t) && History(t) && Persists(t.buffer, n) && n !in t.inFlight
    ensures Answered(steps, n)
  {
    hide Listed, Kept, Told, Phased, Entries, StatusOf, Listening;
    assert n in t.inFlight + t.persisted + t.lost;
  }

  lemma AnnouncedBefore(t: State)
    requires Lifecycle(t) && t.buffer != [] && Announces(t.buffer[|t.buffer| - 1])
    ensures t.phase.Done? && |t.buffer| > 1 && t.buffer[|t.buffer| - 2].eventType == CodeComplete
  {
    assert Terminal(t.buffer[|t.buffer| - 1]);
  }

  lemma {:induction false} GeneratorStarted(s: State, steps: seq<Step>, t: State)
    requires Run(s, steps, t) && (StartGenerator in steps || s.generatorStarts > 0)
    ensures t.generatorStarts > 0
    decreases |steps|
  {
    if steps != [] {
      StartsStay(s, steps[0]);
      hide Apply, Enabled;
      GeneratorStarted(Apply(s, steps[0]), steps[1..], t);
    }
  }

  lemma StartsStay(s: State, step: Step)
    requires Enabled(s, step)
    ensures Apply(s, step).generatorStarts == s.generatorStarts + (if step.StartGenerator? then 1 else 0)
  {
    hide Deliver;
  }
}
