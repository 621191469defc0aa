/** The run manager and the in-memory chat store, proved against the run protocol step by step. */
module RunManager {
  import opened Wrappers
  import opened RunProtocol

  // ---- Chat store ----

  class MemoryChatStore {
    var events: seq<StoredEvent>

    constructor ()
      ensures events == []
    {
      events := [];
    }

    method AppendEvent(runId: RunId, e: Event)
      modifies this
      ensures events == old(events) + [StoredEvent(runId, e)]
    {
      events := events + [StoredEvent(runId, e)];
    }

    /** Filter the table by run and sort by sequence number, keeping the order of equal numbers. */
    method ListEvents(runId: RunId) returns (listed: seq<Event>)
      ensures listed == Listed(events, runId)
    {
      listed := [];
      for i := 0 to |events|
        invariant listed == Listed(events[..i], runId)
      {
        assert events[..i + 1][..i] == events[..i];
        if events[i].runId == runId {
          listed := Inserted(listed, events[i].event);
        }
      }
      assert events[..|events|] == events;
    }

    /** Shift larger events up by one and place the new one before them. */
    static method Inserted(sorted: seq<Event>, e: Event) returns (longer: seq<Event>)
      ensures longer == Insert(sorted, e)
    {
      hide Insert;
      var i := |sorted|;
      assert sorted[..i] == sorted && sorted[i..] == [];
      while i > 0 && sorted[i - 1].sequence > e.sequence
        invariant 0 <= i <= |sorted|
        invariant Insert(sorted, e) == Insert(sorted[..i], e) + sorted[i..]
      {
        InsertBelow(sorted[..i], e);
        assert sorted[..i][..i - 1] == sorted[..i - 1];
        assert [sorted[i - 1]] + sorted[i..] == sorted[i - 1..];
        i := i - 1;
      }
      InsertLast(sorted[..i], e);
      longer := sorted[..i] + [e] + sorted[i..];
    }
  }

  lemma InsertBelow(sorted: seq<Event>, e: Event)
    requires sorted != [] && sorted[|sorted| - 1].sequence > e.sequence
    ensures Insert(sorted, e) == Insert(sorted[..|sorted| - 1], e) + [sorted[|sorted| - 1]]
  {
  }

  lemma InsertLast(sorted: seq<Event>, e: Event)
    requires sorted == [] || sorted[|sorted| - 1].sequence <= e.sequence
    ensures Insert(sorted, e) == sorted + [e]
  {
  }

  /** The events of one run in table order. */
  function OfRun(events: seq<StoredEvent>, runId: RunId): seq<Event> {
    if events == [] then []
    else
      var last := events[|events| - 1];
      OfRun(events[..|events| - 1], runId) + (if last.runId == runId then [last.event] else [])
  }

  ghost predicate Sorted(events: seq<Event>) {
    forall i, j :: 0 <= i < j < |events| ==> events[i].sequence <= events[j].sequence
  }

  function WithSequence(events: seq<Event>, n: nat): seq<Event> {
    if events == [] then []
    else
      var last := events[|events| - 1];
      WithSequence(events[..|events| - 1], n) + (if last.sequence == n then [last] else [])
  }

  /** Listing is a stable sort: ordered by number, and events of one number keep their table order. */
  lemma {:induction false} ListingIsAStableSort(events: seq<StoredEvent>, runId: RunId, n: nat)
    ensures Sorted(Listed(events, runId))
    ensures WithSequence(Listed(events, runId), n) == WithSequence(OfRun(events, runId), n)
  {
    hide Insert;
    if events != [] {
      var rest, last := events[..|events| - 1], events[|events| - 1];
      ListingIsAStableSort(rest, runId, n);
      if last.runId == runId {
        InsertSorts(Listed(rest, runId), last.event);
        InsertKeepsOrder(Listed(rest, runId), last.event, n);
        WithOneMore(OfRun(rest, runId), last.event, n);
      } else {
        assert OfRun(events, runId) == OfRun(rest, runId);
      }
    }
  }

  lemma WithOneMore(events: seq<Event>, e: Event, n: nat)
    ensures WithSequence(events + [e], n) == WithSequence(events, n) + (if e.sequence == n then [e] else [])
  {
    assert (events + [e])[..|events|] == events;
  }

  lemma {:induction false} InsertSorts(sorted: seq<Event>, e: Event)
    requires Sorted(sorted)
    ensures Sorted(Insert(sorted, e))
    ensures forall x :: x in Insert(sorted, e) ==> x == e || x in sorted
  {
    if sorted != [] && sorted[|sorted| - 1].sequence > e.sequence {
      var rest, last := sorted[..|sorted| - 1], sorted[|sorted| - 1];
      InsertSorts(rest, e);
      forall x | x in Insert(rest, e)
        ensures x.sequence <= last.sequence
      {
        if x != e {
          var i :| 0 <= i < |rest| && rest[i] == x;
        }
      }
      assert forall i :: 0 <= i < |Insert(rest, e)| ==> Insert(rest, e)[i] in Insert(rest, e);
    }
  }

  lemma {:induction false} InsertKeepsOrder(sorted: seq<Event>, e: Event, n: nat)
    requires Sorted(sorted)
    ensures WithSequence(Insert(sorted, e), n) == WithSequence(sorted, n) + (if e.sequence == n then [e] else [])
  {
    if sorted == [] || sorted[|sorted| - 1].sequence <= e.sequence {
      WithOneMore(sorted, e, n);
    } else {
      var rest, last := sorted[..|sorted| - 1], sorted[|sorted| - 1];
      InsertKeepsOrder(rest, e, n);
      WithOneMore(Insert(rest, e), last, n);
      if e.sequence == n {
        assert last.sequence != n;
      }
    }
  }

  // ---- Delivery ----

  lemma DeliverOneMore(inbox: map<Listener, seq<Event>>, some: set<Listener>, l: Listener, e: Event)
    requires l !in some
    ensures var partial := Deliver(inbox, some, e);
            partial[l := Inbox(partial, l) + [e]] == Deliver(inbox, some + {l}, e)
  {
    var partial := Deliver(inbox, some, e);
    assert Inbox(partial, l) == Inbox(inbox, l);
  }

  class RegisteredRun {
    const runId: RunId
    const store: MemoryChatStore

    var status: RunStatus
    var sequence: nat
    var buffer: seq<Event>
    var listeners: set<Listener>
    var started: bool
    /** What each listener callback was handed. */
    var inbox: map<Listener, seq<Event>>
    /** The local state of `execute`. */
    var phase: Phase

    ghost var joined: map<Listener, nat>
    ghost var generatorStarts: nat
    ghost var inFlight: set<nat>
    ghost var persisted: set<nat>
    ghost var lost: set<nat>

    ghost function Model(): State
      reads this, store
    {
      State(runId, phase, status, sequence, buffer, listeners, started, inbox, joined, generatorStarts,
            store.events, inFlight, persisted, lost)
    }

    constructor (runId: RunId, store: MemoryChatStore)
      ensures this.runId == runId && this.store == store
      ensures Model() == Initial(runId, store.events)
    {
      this.runId, this.store := runId, store;
      status, sequence, buffer, listeners, started := Pending, 0, [], {}, false;
      inbox, phase := map[], Idle;
      joined, generatorStarts, inFlight, persisted, lost := map[], 0, {}, {}, {};
    }

    /** Call every listener with the event. */
    method DeliverAll(e: Event)
      modifies `inbox
      ensures inbox == Deliver(old(inbox), listeners, e)
    {
      var todo := listeners;
      while todo != {}
        modifies `inbox
        invariant todo <= listeners
        invariant inbox == Deliver(old(inbox), listeners - todo, e)
        decreases |todo|
      {
        var l :| l in todo;
        DeliverOneMore(old(inbox), listeners - todo, l, e);
        inbox := inbox[l := Inbox(inbox, l) + [e]];
        assert listeners - (todo - {l}) == listeners - todo + {l};
        todo := todo - {l};
      }
      assert listeners - todo == listeners;
    }

    /** Number the event, buffer it, and hand it to every listener. Its persist is now in flight. */
    method EmitStream(t: EventType, payload: Payload)
      modifies `sequence, `buffer, `inbox, `inFlight
      ensures Model() == Emit(old(Model()), t, payload)
    {
      hide Deliver;
      sequence := sequence + 1;
      var e := Event(t, sequence, payload);
      buffer := buffer + [e];
      DeliverAll(e);
      if !Ephemeral(t) {
        inFlight := inFlight + {sequence};
      }
    }

    /** Hand the buffered events to one listener. */
    method Replay(l: Listener)
      modifies `inbox
      ensures inbox == old(inbox)[l := Inbox(old(inbox), l) + buffer]
    {
      inbox := inbox[l := Inbox(inbox, l)];
      assert Inbox(inbox, l) + buffer[..0] == Inbox(old(inbox), l);
      for i := 0 to |buffer|
        modifies `inbox
        invariant inbox == old(inbox)[l := Inbox(old(inbox), l) + buffer[..i]]
      {
        ghost var before := Inbox(old(inbox), l);
        assert before + buffer[..i + 1] == before + buffer[..i] + [buffer[i]];
        inbox := inbox[l := Inbox(inbox, l) + [buffer[i]]];
      }
      assert buffer[..|buffer|] == buffer;
    }

    /** The first events of a run, up to its first await. */
    method Start()
      modifies `status, `sequence, `buffer, `started, `inbox, `phase, `inFlight
      ensures Model() == Begin(old(Model()))
    {
      hide Emit, Deliver;
      started, status, phase := true, Running, Announced;
      EmitStream(RunStarted, Plain(0));
    }

    /** Replay the buffer, add the listener, and start the run on the first subscription. */
    method Subscribe(l: Listener)
      modifies `status, `sequence, `buffer, `listeners, `started, `inbox, `phase, `joined, `inFlight
      ensures Model() == Apply(old(Model()), RunProtocol.Subscribe(l))
    {
      hide Begin, HandleGenerated, HandleFinish, HandlePersisted, HandleSettled;
      joined := joined[l := |Inbox(inbox, l)|];
      Replay(l);
      listeners := listeners + {l};
      assert Model() == Join(old(Model()), l);
      if !started {
        Start();
      }
    }

    method Unsubscribe(l: Listener)
      modifies `listeners
      ensures Model() == Apply(old(Model()), RunProtocol.Unsubscribe(l))
    {
      listeners := listeners - {l};
    }

    method StartGenerator()
      requires Enabled(Model(), RunProtocol.StartGenerator)
      modifies `phase, `generatorStarts
      ensures Model() == Apply(old(Model()), RunProtocol.StartGenerator)
    {
      phase, generatorStarts := Generating(None, None), generatorStarts + 1;
    }

    /** Turn one generator event into at most one run event. */
    method HandleCodegenEvent(e: GeneratorEvent)
      requires Enabled(Model(), Generate(e))
      modifies `sequence, `buffer, `inbox, `inFlight, `phase
      ensures Model() == Apply(old(Model()), Generate(e))
    {
      hide Emit, Deliver;
      match e
      case Note(t, text) => EmitStream(t, Plain(text));
      case Delta(text) => EmitStream(CodeDelta, Plain(text));
      case ErrorNote(text) =>
        phase := phase.(failure := Some(text));
        EmitStream(Status, Plain(text));
      case ResultNote(outcome) => phase := phase.(result := Some(outcome));
    }

    /** The generator's promise settled, perhaps by throwing: a result wins over any error. */
    method Settle(thrown: Option<Text>)
      requires Enabled(Model(), RunProtocol.Settle(thrown))
      modifies `status, `phase
      ensures Model() == Apply(old(Model()), RunProtocol.Settle(thrown))
    {
      if phase.result.Some? {
        status, phase := Completed, Finishing(phase.result.value);
      } else {
        status, phase := Failed, Failing(thrown.GetOr(phase.failure.GetOr(NO_RESULT)));
      }
    }

    /** The next closing event: `code_complete` when there is source, then the terminal one. */
    method Finish()
      requires Enabled(Model(), RunProtocol.Finish)
      modifies `sequence, `buffer, `inbox, `inFlight, `phase
      ensures Model() == Apply(old(Model()), RunProtocol.Finish)
    {
      hide Emit, Deliver;
      match phase
      case Failing(error) =>
        phase := Done;
        EmitStream(RunFailed, Plain(error));
      case Finishing(outcome) =>
        if outcome.source.Some? {
          phase := Sealing(outcome);
          EmitStream(CodeComplete, Plain(outcome.id));
        } else {
          phase := Done;
          EmitStream(RunCompleted, FullResult(outcome));
        }
      case Sealing(outcome) =>
        phase := Done;
        EmitStream(RunCompleted, FullResult(outcome));
    }

    /** The store answers one append; a failure is logged and forgotten. */
    method PersistDone(n: nat, ok: bool)
      requires Enabled(Model(), RunProtocol.PersistDone(n, ok))
      modifies `inFlight, `persisted, `lost, store
      ensures Model() == Apply(old(Model()), RunProtocol.PersistDone(n, ok))
    {
      inFlight := inFlight - {n};
      if ok {
        store.AppendEvent(runId, Persistable(buffer[n - 1]));
        persisted := persisted + {n};
      } else {
        lost := lost + {n};
      }
    }
  }

  class Manager {
    const store: MemoryChatStore
    var runs: map<RunId, RegisteredRun>

    ghost predicate Valid()
      reads this, runs.Values
    {
      forall id :: id in runs ==> runs[id].runId == id && runs[id].store == store
    }

    constructor (store: MemoryChatStore)
      ensures this.store == store && runs == map[] && Valid()
    {
      this.store, runs := store, map[];
    }

    /** Registering a known run changes nothing. */
    method Register(runId: RunId)
      requires Valid()
      modifies this
      ensures Valid() && runId in runs && runs.Keys == old(runs.Keys) + {runId}
      ensures forall id :: id in old(runs) ==> runs[id] == old(runs)[id]
      ensures runId !in old(runs) ==> fresh(runs[runId]) && runs[runId].Model() == Initial(runId, store.events)
    {
      if runId in runs {
        return;
      }
      var run := new RegisteredRun(runId, store);
      runs := runs[runId := run];
    }

    /** False when the run is unknown to this process. */
    method Subscribe(runId: RunId, l: Listener) returns (known: bool)
      requires Valid()
      modifies if runId in runs then {runs[runId]} else {}
      ensures Valid() && (known <==> runId in runs)
      ensures known ==> runs[runId].Model() == Apply(old(runs[runId].Model()), RunProtocol.Subscribe(l))
    {
      known := runId in runs;
      if known {
        runs[runId].Subscribe(l);
      }
    }
  }
}
