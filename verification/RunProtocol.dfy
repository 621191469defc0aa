/**
 * The protocol of one generation run: a producer, subscribers that come and go, a replay buffer, and persists
 * that finish in any order or fail. Emission is one atomic step; everything between two awaits of the run
 * manager is a step too.
 */
module RunProtocol {
  import opened Wrappers

  type RunId = nat
  type Listener = nat
  type Text = nat

  /** `Progress` stands for every other persisted event the generator can cause. */
  datatype EventType = RunStarted | Status | CodeDelta | Heartbeat | Progress(kind: nat) | CodeComplete
                     | RunCompleted | RunFailed

  datatype Outcome = Outcome(id: nat, source: Option<nat>)

  /** The live `run_completed` payload is the full result; the persisted one drops the source. */
  datatype Payload = Plain(text: Text) | FullResult(outcome: Outcome) | TrimmedResult(id: nat)

  datatype Event = Event(eventType: EventType, sequence: nat, payload: Payload)

  datatype RunStatus = Pending | Running | Completed | Failed

  datatype StoredEvent = StoredEvent(runId: RunId, event: Event)

  /** Where `execute` stands. */
  datatype Phase = Idle | Announced | Generating(result: Option<Outcome>, failure: Option<Text>)
                 | Finishing(outcome: Outcome) | Sealing(outcome: Outcome) | Failing(error: Text) | Done

  datatype GeneratorEvent = Note(eventType: EventType, text: Text) | Delta(text: Text) | ErrorNote(text: Text)
                          | ResultNote(outcome: Outcome)

  /** A run, the inbox of every listener, and the event table it shares with other runs. */
  datatype State = State(
    runId: RunId, phase: Phase, status: RunStatus, sequence: nat, buffer: seq<Event>, listeners: set<Listener>,
    started: bool, inbox: map<Listener, seq<Event>>, joined: map<Listener, nat>, generatorStarts: nat,
    events: seq<StoredEvent>, inFlight: set<nat>, persisted: set<nat>, lost: set<nat>)

  datatype Step = Subscribe(listener: Listener) | Unsubscribe(listener: Listener) | StartGenerator
                | Generate(event: GeneratorEvent) | Settle(thrown: Option<Text>) | Finish
                | PersistDone(sequence: nat, ok: bool) | Foreign(stored: StoredEvent)

  const NO_RESULT: Text := 0

  predicate Ephemeral(t: EventType) {
    t == CodeDelta || t == Heartbeat
  }

  predicate Terminal(e: Event) {
    e.eventType == RunCompleted || e.eventType == RunFailed
  }

  function Persistable(e: Event): Event {
    if e.payload.FullResult? then e.(payload := TrimmedResult(e.payload.outcome.id)) else e
  }

  function Inbox(inbox: map<Listener, seq<Event>>, l: Listener): seq<Event> {
    if l in inbox then inbox[l] else []
  }

  function Deliver(inbox: map<Listener, seq<Event>>, listeners: set<Listener>, e: Event): map<Listener, seq<Event>> {
    map l | l in inbox.Keys + listeners :: if l in listeners then Inbox(inbox, l) + [e] else inbox[l]
  }

  // ---- Steps ----

  function Emit(s: State, t: EventType, payload: Payload): State {
    var e := Event(t, s.sequence + 1, payload);
    s.(sequence := s.sequence + 1, buffer := s.buffer + [e], inbox := Deliver(s.inbox, s.listeners, e),
       inFlight := if Ephemeral(t) then s.inFlight else s.inFlight + {s.sequence + 1})
  }

  /** The run manager awaits the persist of `run_started` and of `code_complete` before it goes on. */
  predicate Enabled(s: State, step: Step) {
    match step
    case Subscribe(_) => true
    case Unsubscribe(_) => true
    case StartGenerator => s.phase.Announced? && 1 !in s.inFlight
    case Generate(e) =>
      s.phase.Generating? && (e.Note? ==> e.eventType == Status || e.eventType.Progress?)
    case Settle(_) => s.phase.Generating?
    case Finish =>
      s.phase.Finishing? || s.phase.Failing? || (s.phase.Sealing? && s.sequence !in s.inFlight)
    case PersistDone(n, _) => n in s.inFlight && 0 < n <= |s.buffer|
    case Foreign(e) => e.runId != s.runId
  }

  function Join(s: State, l: Listener): State {
    s.(inbox := s.inbox[l := Inbox(s.inbox, l) + s.buffer], joined := s.joined[l := |Inbox(s.inbox, l)|],
       listeners := s.listeners + {l})
  }

  function Begin(s: State): State {
    Emit(s.(started := true, status := Running, phase := Announced), RunStarted, Plain(0))
  }

  function HandleGenerated(s: State, e: GeneratorEvent): State
    requires s.phase.Generating?
  {
    match e
    case Note(t, text) => Emit(s, t, Plain(text))
    case Delta(text) => Emit(s, CodeDelta, Plain(text))
    case ErrorNote(text) => Emit(s.(phase := s.phase.(failure := Some(text))), Status, Plain(text))
    case ResultNote(outcome) => s.(phase := s.phase.(result := Some(outcome)))
  }

  function HandleSettled(s: State, thrown: Option<Text>): State
    requires s.phase.Generating?
  {
    if s.phase.result.Some? then s.(status := Completed, phase := Finishing(s.phase.result.value))
    else s.(status := Failed, phase := Failing(thrown.GetOr(s.phase.failure.GetOr(NO_RESULT))))
  }

  function HandleFinish(s: State): State
    requires s.phase.Finishing? || s.phase.Failing? || s.phase.Sealing?
  {
    match s.phase
    case Failing(error) => Emit(s.(phase := Done), RunFailed, Plain(error))
    case Finishing(outcome) =>
      if outcome.source.Some? then Emit(s.(phase := Sealing(outcome)), CodeComplete, Plain(outcome.id))
      else Emit(s.(phase := Done), RunCompleted, FullResult(outcome))
    case Sealing(outcome) => Emit(s.(phase := Done), RunCompleted, FullResult(outcome))
  }

  function HandlePersisted(s: State, n: nat, ok: bool): State
    requires 0 < n <= |s.buffer|
  {
    var t := s.(inFlight := s.inFlight - {n});
    if ok then
      t.(events := s.events + [StoredEvent(s.runId, Persistable(s.buffer[n - 1]))], persisted := s.persisted + {n})
    else t.(lost := s.lost + {n})
  }

  function Apply(s: State, step: Step): State
    requires Enabled(s, step)
  {
    match step
    case Subscribe(l) => if s.started then Join(s, l) else Begin(Join(s, l))
    case Unsubscribe(l) => s.(listeners := s.listeners - {l})
    case StartGenerator => s.(phase := Generating(None, None), generatorStarts := s.generatorStarts + 1)
    case Generate(e) => HandleGenerated(s, e)
    case Settle(thrown) => HandleSettled(s, thrown)
    case Finish => HandleFinish(s)
    case PersistDone(n, ok) => HandlePersisted(s, n, ok)
    case Foreign(e) => s.(events := s.events + [e])
  }

  function Initial(runId: RunId, events: seq<StoredEvent>): State {
    State(runId, Idle, Pending, 0, [], {}, false, map[], map[], 0, events, {}, {}, {})
  }

  ghost predicate Run(s: State, steps: seq<Step>, t: State)
    decreases |steps|
  {
    if steps == [] then s == t
    else Enabled(s, steps[0]) && Run(Apply(s, steps[0]), steps[1..], t)
  }

  // ---- Listing the event table ----

  function Insert(sorted: seq<Event>, e: Event): seq<Event> {
    if sorted == [] || sorted[|sorted| - 1].sequence <= e.sequence then sorted + [e]
    else Insert(sorted[..|sorted| - 1], e) + [sorted[|sorted| - 1]]
  }

  /** The events of one run, stably sorted by sequence number. */
  function Listed(events: seq<StoredEvent>, runId: RunId): seq<Event> {
    if events == [] then []
    else
      var rest, last := Listed(events[..|events| - 1], runId), events[|events| - 1];
      if last.runId == runId then Insert(rest, last.event) else rest
  }

  /** The persisted part of a buffer, in emission order. */
  function Kept(buffer: seq<Event>, persisted: set<nat>): seq<Event> {
    if buffer == [] then []
    else
      var last := buffer[|buffer| - 1];
      Kept(buffer[..|buffer| - 1], persisted) + (if last.sequence in persisted then [Persistable(last)] else [])
  }
}
