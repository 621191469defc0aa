/** What every interleaving of a run keeps: delivery, numbering, lifecycle, and the persisted history. */
module RunSafety {
  import opened Wrappers
  import opened RunProtocol

  // ---- Numbering and delivery ----

  ghost predicate Numbered(s: State) {
    s.sequence == |s.buffer| && forall i :: 0 <= i < |s.buffer| ==> s.buffer[i].sequence == i + 1
  }

  /** What a listener received since it last joined. */
  function SinceJoin(s: State, l: Listener): seq<Event>
    requires l in s.joined && s.joined[l] <= |Inbox(s.inbox, l)|
  {
    Inbox(s.inbox, l)[s.joined[l]..]
  }

  /** Everyone who ever joined saw a prefix of the buffer since; those still listening saw all of it. */
  ghost predicate Delivered(s: State) {
    && s.listeners <= s.joined.Keys
    && (forall l :: l in s.joined ==> s.joined[l] <= |Inbox(s.inbox, l)| && SinceJoin(s, l) <= s.buffer)
    && (forall l :: l in s.listeners ==> SinceJoin(s, l) == s.buffer)
  }

  lemma EmitDelivers(s: State, t: EventType, payload: Payload)
    requires Delivered(s) && Numbered(s)
    ensures Delivered(Emit(s, t, payload)) && Numbered(Emit(s, t, payload))
  {
    var u := Emit(s, t, payload);
    var e := Event(t, s.sequence + 1, payload);
    forall l | l in u.joined
      ensures u.joined[l] <= |Inbox(u.inbox, l)| && SinceJoin(u, l) <= u.buffer
      ensures l in u.listeners ==> SinceJoin(u, l) == u.buffer
    {
      assert SinceJoin(s, l) <= s.buffer;
      if l in s.listeners {
        assert Inbox(u.inbox, l) == Inbox(s.inbox, l) + [e];
        assert SinceJoin(u, l) == SinceJoin(s, l) + [e];
      } else {
        assert Inbox(u.inbox, l) == Inbox(s.inbox, l);
      }
    }
  }

  lemma JoinDelivers(s: State, l: Listener)
    requires Delivered(s)
    ensures Delivered(Join(s, l))
  {
    var u := Join(s, l);
    assert SinceJoin(u, l) == s.buffer;
    forall k | k in u.joined
      ensures u.joined[k] <= |Inbox(u.inbox, k)| && SinceJoin(u, k) <= u.buffer
      ensures k in u.listeners ==> SinceJoin(u, k) == u.buffer
    {
      if k != l {
        assert Inbox(u.inbox, k) == Inbox(s.inbox, k) && u.joined[k] == s.joined[k];
        assert SinceJoin(s, k) <= s.buffer;
      }
    }
  }

  lemma StepDelivers(s: State, step: Step)
    requires Enabled(s, step) && Delivered(s) && Numbered(s)
    ensures Delivered(Apply(s, step)) && Numbered(Apply(s, step))
  {
    hide Emit, Delivered, Numbered;
    match step
    case Subscribe(l) =>
      JoinDelivers(s, l);
      var u := Join(s, l);
      assert Numbered(u) by { SameBuffer(s, u); }
      if !s.started {
        var v := u.(started := true, status := Running, phase := Announced);
        SameDelivery(u, v);
        EmitDelivers(v, RunStarted, Plain(0));
      }
    case Unsubscribe(l) => FewerListeners(s, Apply(s, step));
    case StartGenerator => SameDelivery(s, Apply(s, step));
    case Generate(e) => GenerateDelivers(s, e);
    case Settle(_) => SameDelivery(s, Apply(s, step));
    case Finish => FinishDelivers(s);
    case PersistDone(_, _) => SameDelivery(s, Apply(s, step));
    case Foreign(_) => SameDelivery(s, Apply(s, step));
  }

  lemma SameBuffer(s: State, u: State)
    requires Numbered(s) && u.sequence == s.sequence && u.buffer == s.buffer
    ensures Numbered(u)
  {
  }

  lemma SameDelivery(s: State, u: State)
    requires Delivered(s) && Numbered(s)
    requires u.sequence == s.sequence && u.buffer == s.buffer && u.listeners == s.listeners
    requires u.inbox == s.inbox && u.joined == s.joined
    ensures Delivered(u) && Numbered(u)
  {
    assert forall l :: l in s.joined ==> SinceJoin(u, l) == SinceJoin(s, l);
  }

  lemma FewerListeners(s: State, u: State)
    requires Delivered(s) && Numbered(s)
    requires u == s.(listeners := u.listeners) && u.listeners <= s.listeners
    ensures Delivered(u) && Numbered(u)
  {
    assert forall l :: l in s.joined ==> SinceJoin(u, l) == SinceJoin(s, l);
  }

  lemma GenerateDelivers(s: State, e: GeneratorEvent)
    requires s.phase.Generating? && Delivered(s) && Numbered(s)
    ensures Delivered(HandleGenerated(s, e)) && Numbered(HandleGenerated(s, e))
  {
    hide Emit, Delivered, Numbered;
    match e
    case Note(t, text) => EmitDelivers(s, t, Plain(text));
    case Delta(text) => EmitDelivers(s, CodeDelta, Plain(text));
    case ErrorNote(text) =>
      var u := s.(phase := s.phase.(failure := Some(text)));
      SameDelivery(s, u);
      EmitDelivers(u, Status, Plain(text));
    case ResultNote(_) => SameDelivery(s, HandleGenerated(s, e));
  }

  lemma FinishDelivers(s: State)
    requires Enabled(s, Finish) && Delivered(s) && Numbered(s)
    ensures Delivered(HandleFinish(s)) && Numbered(HandleFinish(s))
  {
    hide Emit, Delivered, Numbered;
    var done := s.(phase := Done);
    SameDelivery(s, done);
    match s.phase
    case Failing(error) => EmitDelivers(done, RunFailed, Plain(error));
    case Finishing(o) =>
      var sealing := s.(phase := Sealing(o));
      SameDelivery(s, sealing);
      EmitDelivers(sealing, CodeComplete, Plain(o.id));
      EmitDelivers(done, RunCompleted, FullResult(o));
    case Sealing(o) => EmitDelivers(done, RunCompleted, FullResult(o));
  }

  // ---- Lifecycle ----

  ghost predicate Open(buffer: seq<Event>) {
    forall i :: 0 <= i < |buffer| ==> !Terminal(buffer[i])
  }

  /** The control point determines the status, how often the generator ran, and what was announced. */
  ghost predicate Lifecycle(s: State) {
    && (s.started <==> !s.phase.Idle?)
    && (s.started <==> s.buffer != [])
    && (s.started ==> s.buffer[0].eventType == RunStarted)
    && s.generatorStarts == (if s.phase.Idle? || s.phase.Announced? then 0 else 1)
    && match s.phase
       case Idle => s.status == Pending
       case Announced => s.status == Running && |s.buffer| == 1
       case Generating(_, _) => s.status == Running && Open(s.buffer)
       case Finishing(_) => s.status == Completed && Open(s.buffer)
       case Sealing(o) => s.status == Completed && Open(s.buffer) && o.source.Some?
                          && s.buffer[|s.buffer| - 1].eventType == CodeComplete
       case Failing(_) => s.status == Failed && Open(s.buffer)
       case Done => s.buffer != [] && Open(s.buffer[..|s.buffer| - 1]) && ClosedBy(s.status, s.buffer)
  }

  /** The last event is the one terminal event, it matches the status, and a source is announced before it. */
  ghost predicate ClosedBy(status: RunStatus, buffer: seq<Event>)
    requires buffer != []
  {
    var last := buffer[|buffer| - 1];
    match status
    case Failed => last.eventType == RunFailed
    case Completed => last.eventType == RunCompleted && last.payload.FullResult?
                      && (last.payload.outcome.source.Some? ==>
                            |buffer| > 1 && buffer[|buffer| - 2].eventType == CodeComplete)
    case _ => false
  }

  lemma StepLifecycle(s: State, step: Step)
    requires Enabled(s, step) && Lifecycle(s)
    ensures Lifecycle(Apply(s, step))
  {
    if step.Finish? {
      FinishLifecycle(s);
    } else if step.Generate? {
      GenerateLifecycle(s, step.event);
    } else if s.phase.Done? {
      assert Apply(s, step).buffer == s.buffer;
    }
  }

  lemma GenerateLifecycle(s: State, e: GeneratorEvent)
    requires Enabled(s, Generate(e)) && Lifecycle(s)
    ensures Lifecycle(HandleGenerated(s, e))
  {
    hide Deliver;
    var t := HandleGenerated(s, e);
    assert Open(t.buffer);
  }

  lemma FinishLifecycle(s: State)
    requires Enabled(s, Finish) && Lifecycle(s)
    ensures Lifecycle(HandleFinish(s))
  {
    hide Deliver;
    match s.phase
    case Failing(_) => ClosingEvent(s, RunFailed);
    case Sealing(_) => ClosingEvent(s, RunCompleted);
    case Finishing(o) =>
      if o.source.Some? {
        SealingEvent(s);
      } else {
        ClosingEvent(s, RunCompleted);
      }
  }

  lemma ClosingEvent(s: State, t: EventType)
    requires Enabled(s, Finish) && Lifecycle(s)
    requires t == (if s.phase.Failing? then RunFailed else RunCompleted)
    requires s.phase.Finishing? ==> s.phase.outcome.source.None?
    ensures Lifecycle(HandleFinish(s))
  {
    hide Lifecycle, HandleFinish, Enabled;
    var e := FinishEmits(s, t);
    ClosedBehind(s, HandleFinish(s), e);
  }

  /** The closing event and nothing else is added. */
  lemma FinishEmits(s: State, t: EventType) returns (e: Event)
    requires Enabled(s, Finish) && t == (if s.phase.Failing? then RunFailed else RunCompleted)
    requires s.phase.Finishing? ==> s.phase.outcome.source.None?
    ensures e.eventType == t
    ensures !s.phase.Failing? ==> (s.phase.Finishing? || s.phase.Sealing?) && e.payload == FullResult(s.phase.outcome)
    ensures var u := HandleFinish(s);
            && u.buffer == s.buffer + [e] && u.phase == Done && u.status == s.status
            && u.started == s.started && u.generatorStarts == s.generatorStarts
  {
    hide Deliver, Open;
    e := Event(t, s.sequence + 1, if s.phase.Failing? then Plain(s.phase.error) else FullResult(s.phase.outcome));
  }

  lemma ClosedBehind(s: State, u: State, e: Event)
    requires Lifecycle(s) && (s.phase.Failing? || s.phase.Finishing? || s.phase.Sealing?)
    requires e.eventType == (if s.phase.Failing? then RunFailed else RunCompleted)
    requires !s.phase.Failing? ==> e.payload == FullResult(s.phase.outcome)
    requires s.phase.Finishing? ==> s.phase.outcome.source.None?
    requires u.buffer == s.buffer + [e] && u.phase == Done && u.status == s.status
    requires u.started == s.started && u.generatorStarts == s.generatorStarts
    ensures Lifecycle(u)
  {
    hide Open;
    assert u.buffer[..|s.buffer|] == s.buffer;
  }

  lemma SealingEvent(s: State)
    requires s.phase.Finishing? && s.phase.outcome.source.Some? && Lifecycle(s)
    ensures Lifecycle(HandleFinish(s))
  {
    hide Deliver;
    assert HandleFinish(s).buffer[..|s.buffer|] == s.buffer;
  }

  /** The status only moves from pending to running and from running to completed or failed. */
  lemma StatusMovesForward(s: State, step: Step)
    requires Enabled(s, step) && Lifecycle(s)
    ensures var t := Apply(s, step);
            || t.status == s.status
            || (s.status == Pending && t.status == Running)
            || (s.status == Running && (t.status == Completed || t.status == Failed))
    ensures s.buffer <= Apply(s, step).buffer
    ensures s.phase.Done? ==> Apply(s, step).buffer == s.buffer
  {
    hide Deliver;
  }

  // ---- Persistence ----

  ghost predicate Ordered(events: seq<Event>) {
    forall i, j :: 0 <= i < j < |events| ==> events[i].sequence < events[j].sequence
  }

  /** Inserting a freshly persisted event puts it where it was emitted. */
  lemma {:induction false} InsertIsKept(buffer: seq<Event>, persisted: set<nat>, n: nat)
    requires forall i :: 0 <= i < |buffer| ==> buffer[i].sequence == i + 1
    requires 0 < n <= |buffer| && n !in persisted
    ensures Insert(Kept(buffer, persisted), Persistable(buffer[n - 1])) == Kept(buffer, persisted + {n})
  {
    var rest, last := buffer[..|buffer| - 1], buffer[|buffer| - 1];
    if n == |buffer| {
      KeptIgnores(rest, persisted, n);
      KeptBounded(rest, persisted);
    } else {
      assert rest[n - 1] == buffer[n - 1];
      InsertIsKept(rest, persisted, n);
      assert last.sequence in persisted + {n} <==> last.sequence in persisted;
      var kept := Kept(rest, persisted);
      if last.sequence in persisted {
        assert (kept + [Persistable(last)])[..|kept|] == kept;
      } else {
        assert Kept(buffer, persisted) == kept;
      }
    }
  }

  lemma {:induction false} KeptIgnores(buffer: seq<Event>, persisted: set<nat>, n: nat)
    requires forall i :: 0 <= i < |buffer| ==> buffer[i].sequence != n
    ensures Kept(buffer, persisted + {n}) == Kept(buffer, persisted)
  {
    if buffer != [] {
      KeptIgnores(buffer[..|buffer| - 1], persisted, n);
    }
  }

  lemma {:induction false} KeptBounded(buffer: seq<Event>, persisted: set<nat>)
    requires forall i :: 0 <= i < |buffer| ==> buffer[i].sequence == i + 1
    ensures forall i :: 0 <= i < |Kept(buffer, persisted)| ==> Kept(buffer, persisted)[i].sequence <= |buffer|
  {
    if buffer != [] {
      KeptBounded(buffer[..|buffer| - 1], persisted);
    }
  }

  predicate Persists(buffer: seq<Event>, n: nat) {
    0 < n <= |buffer| && !Ephemeral(buffer[n - 1].eventType)
  }

  /** Each non-ephemeral event is in flight, persisted or lost, and the table lists exactly the persisted ones. */
  ghost predicate History(s: State) {
    && s.inFlight !! s.persisted && s.inFlight !! s.lost && s.persisted !! s.lost
    && (forall n :: n in s.inFlight + s.persisted + s.lost <==> Persists(s.buffer, n))
    && Listed(s.events, s.runId) == Kept(s.buffer, s.persisted)
  }

  lemma EmitKeepsHistory(s: State, t: EventType, payload: Payload)
    requires History(s) && Numbered(s)
    ensures History(Emit(s, t, payload))
  {
    hide Listed, Deliver;
    var u := Emit(s, t, payload);
    assert u.buffer[..|s.buffer|] == s.buffer;
    assert !Persists(s.buffer, u.sequence);
    forall n
      ensures n in u.inFlight + u.persisted + u.lost <==> Persists(u.buffer, n)
    {
      assert n in s.inFlight + s.persisted + s.lost <==> Persists(s.buffer, n);
    }
  }

  lemma PersistKeepsHistory(s: State, n: nat, ok: bool)
    requires History(s) && Numbered(s) && Enabled(s, PersistDone(n, ok))
    ensures History(HandlePersisted(s, n, ok))
  {
    hide Insert, Kept;
    var u := HandlePersisted(s, n, ok);
    assert n !in s.persisted && n !in s.lost;
    forall m
      ensures m in u.inFlight + u.persisted + u.lost <==> Persists(u.buffer, m)
    {
      assert m in s.inFlight + s.persisted + s.lost <==> Persists(s.buffer, m);
    }
    if ok {
      assert u.events[..|s.events|] == s.events;
      InsertIsKept(s.buffer, s.persisted, n);
    }
  }

  lemma SameHistory(s: State, u: State)
    requires History(s)
    requires u.runId == s.runId && u.buffer == s.buffer && u.events == s.events
    requires u.inFlight == s.inFlight && u.persisted == s.persisted && u.lost == s.lost
    ensures History(u)
  {
  }

  lemma ForeignKeepsHistory(s: State, e: StoredEvent)
    requires History(s) && e.runId != s.runId
    ensures History(s.(events := s.events + [e]))
  {
    hide Insert, Kept;
    assert (s.events + [e])[..|s.events|] == s.events;
  }

  lemma StepKeepsHistory(s: State, step: Step)
    requires Enabled(s, step) && History(s) && Numbered(s)
    ensures History(Apply(s, step))
  {
    hide Emit, History;
    match step
    case Subscribe(l) =>
      var u := Join(s, l);
      SameHistory(s, u);
      if !s.started {
        var v := u.(started := true, status := Running, phase := Announced);
        SameHistory(u, v);
        SameBuffer(s, v);
        EmitKeepsHistory(v, RunStarted, Plain(0));
      }
    case Generate(e) => GenerateKeepsHistory(s, e);
    case Finish => FinishKeepsHistory(s);
    case PersistDone(n, ok) => PersistKeepsHistory(s, n, ok);
    case Foreign(e) => ForeignKeepsHistory(s, e);
    case _ => SameHistory(s, Apply(s, step));
  }

  lemma GenerateKeepsHistory(s: State, e: GeneratorEvent)
    requires s.phase.Generating? && History(s) && Numbered(s)
    ensures History(HandleGenerated(s, e))
  {
    hide Emit, History;
    match e
    case Note(t, text) => EmitKeepsHistory(s, t, Plain(text));
    case Delta(text) => EmitKeepsHistory(s, CodeDelta, Plain(text));
    case ErrorNote(text) =>
      var u := s.(phase := s.phase.(failure := Some(text)));
      SameHistory(s, u);
      SameBuffer(s, u);
      EmitKeepsHistory(u, Status, Plain(text));
    case ResultNote(_) => SameHistory(s, HandleGenerated(s, e));
  }

  lemma FinishKeepsHistory(s: State)
    requires Enabled(s, Finish) && History(s) && Numbered(s)
    ensures History(HandleFinish(s))
  {
    hide Emit, History, Numbered;
    var done := s.(phase := Done);
    SameHistory(s, done);
    SameBuffer(s, done);
    match s.phase
    case Failing(error) => EmitKeepsHistory(done, RunFailed, Plain(error));
    case Finishing(o) =>
      var sealing := s.(phase := Sealing(o));
      SameHistory(s, sealing);
      SameBuffer(s, sealing);
      EmitKeepsHistory(sealing, CodeComplete, Plain(o.id));
      EmitKeepsHistory(done, RunCompleted, FullResult(o));
    case Sealing(o) => EmitKeepsHistory(done, RunCompleted, FullResult(o));
  }

  // ---- Every run ----

  ghost predicate Safe(s: State) {
    Numbered(s) && Delivered(s) && Lifecycle(s) && History(s)
  }

  lemma {:induction false} RunKeepsSafe(s: State, steps: seq<Step>, t: State)
    requires Safe(s) && Run(s, steps, t)
    ensures Safe(t)
    decreases |steps|
  {
    hide Numbered, Delivered, Lifecycle, History, Apply, Enabled;
    if steps != [] {
      StepDelivers(s, steps[0]);
      StepLifecycle(s, steps[0]);
      StepKeepsHistory(s, steps[0]);
      RunKeepsSafe(Apply(s, steps[0]), steps[1..], t);
    }
  }

  lemma {:induction false} NothingListed(events: seq<StoredEvent>, runId: RunId)
    requires forall e :: e in events ==> e.runId != runId
    ensures Listed(events, runId) == []
  {
    if events != [] {
      NothingListed(events[..|events| - 1], runId);
    }
  }

  lemma InitialIsSafe(runId: RunId, events: seq<StoredEvent>)
    requires forall e :: e in events ==> e.runId != runId
    ensures Safe(Initial(runId, events))
  {
    NothingListed(events, runId);
  }

  /** In every interleaving, an active listener has received exactly the numbered buffer since it joined. */
  lemma ActiveListenersSeeTheBuffer(runId: RunId, events: seq<StoredEvent>, steps: seq<Step>, t: State, l: Listener)
    requires forall e :: e in events ==> e.runId != runId
    requires Run(Initial(runId, events), steps, t) && l in t.listeners
    ensures l in t.joined && t.joined[l] <= |Inbox(t.inbox, l)|
    ensures SinceJoin(t, l) == t.buffer
    ensures forall i :: 0 <= i < |t.buffer| ==> SinceJoin(t, l)[i].sequence == i + 1
  {
    InitialIsSafe(runId, events);
    RunKeepsSafe(Initial(runId, events), steps, t);
  }

  /** The generator starts at most once; a finished run has one terminal event, the last, matching its status. */
  lemma OneTerminalEventLast(runId: RunId, events: seq<StoredEvent>, steps: seq<Step>, t: State)
    requires forall e :: e in events ==> e.runId != runId
    requires Run(Initial(runId, events), steps, t)
    ensures t.generatorStarts <= 1
    ensures forall i :: 0 <= i < |t.buffer| && Terminal(t.buffer[i]) ==> i == |t.buffer| - 1 && t.phase.Done?
    ensures t.phase.Done? ==> t.buffer != [] && Terminal(t.buffer[|t.buffer| - 1]) && ClosedBy(t.status, t.buffer)
  {
    hide Delivered, History, Numbered;
    InitialIsSafe(runId, events);
    RunKeepsSafe(Initial(runId, events), steps, t);
    hide Lifecycle, Run;
    if t.phase.Done? {
      DoneIsClosed(t);
    } else {
      NotDoneIsOpen(t);
    }
  }

  lemma NotDoneIsOpen(t: State)
    requires Lifecycle(t) && !t.phase.Done?
    ensures t.generatorStarts <= 1 && forall i :: 0 <= i < |t.buffer| ==> !Terminal(t.buffer[i])
  {
  }

  lemma DoneIsClosed(t: State)
    requires Lifecycle(t) && t.phase.Done?
    ensures t.generatorStarts <= 1 && t.buffer != [] && ClosedBy(t.status, t.buffer)
    ensures Terminal(t.buffer[|t.buffer| - 1])
    ensures forall i :: 0 <= i < |t.buffer| - 1 ==> !Terminal(t.buffer[i])
  {
    OpenPrefix(t.buffer);
  }

  lemma OpenPrefix(buffer: seq<Event>)
    requires buffer != [] && Open(buffer[..|buffer| - 1])
    ensures forall i :: 0 <= i < |buffer| - 1 ==> !Terminal(buffer[i])
  {
    assert forall i :: 0 <= i < |buffer| - 1 ==> buffer[..|buffer| - 1][i] == buffer[i];
  }

  /** Once no persist is in flight, the table lists exactly the non-ephemeral events that were not lost, in order. */
  lemma HistoryIsTheBuffer(runId: RunId, events: seq<StoredEvent>, steps: seq<Step>, t: State)
    requires forall e :: e in events ==> e.runId != runId
    requires Run(Initial(runId, events), steps, t) && t.inFlight == {}
    ensures forall n :: n in t.persisted <==> Persists(t.buffer, n) && n !in t.lost
    ensures Listed(t.events, t.runId) == Kept(t.buffer, t.persisted) && Ordered(Listed(t.events, t.runId))
  {
    hide Delivered, Lifecycle;
    InitialIsSafe(runId, events);
    RunKeepsSafe(Initial(runId, events), steps, t);
    KeptOrdered(t.buffer, t.persisted);
    forall n
      ensures n in t.persisted <==> Persists(t.buffer, n) && n !in t.lost
    {
      assert n in t.inFlight + t.persisted + t.lost <==> Persists(t.buffer, n);
    }
  }

  lemma {:induction false} KeptOrdered(buffer: seq<Event>, persisted: set<nat>)
    requires forall i :: 0 <= i < |buffer| ==> buffer[i].sequence == i + 1
    ensures Ordered(Kept(buffer, persisted))
  {
    if buffer != [] {
      KeptOrdered(buffer[..|buffer| - 1], persisted);
      KeptBounded(buffer[..|buffer| - 1], persisted);
    }
  }
}
