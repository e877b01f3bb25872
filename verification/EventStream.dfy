/** The client's check of a request's event stream, with a cancellation that may interleave with it. */
module EventStream {
  import opened Text
  import opened Outcomes

  datatype State = Accepted | Materialized | Terminal | OtherState(name: Str)

  datatype Output = Output(sequence: int, tokens: seq<nat>, publicationId: Str)

  datatype Event =
    | DirectResponse(commandId: nat, cancellationAccepted: bool, requestId: Str, eventSequence: nat)
    | StatusUpdate(requestId: Str, version: int, state: State, terminal: bool, reserved: bool, backend: bool)
    | OutputFrame(requestId: Str, output: Output)
    | Unexpected

  /** The three lists a request's events are collected in. */
  datatype Log = Log(states: seq<State>, outputs: seq<Output>, versions: seq<int>)

  const FRESH := Log([Accepted], [], [])

  // ---- what an accepted stream looks like ----------------------------------------------------

  function Tokens(outputs: seq<Output>): nat {
    if outputs == [] then 0 else Tokens(outputs[..|outputs| - 1]) + |outputs[|outputs| - 1].tokens|
  }

  /** Outputs follow one another without gap or overlap; versions only grow. */
  ghost predicate WellOrdered(log: Log) {
    && |log.states| == |log.versions| + 1
    && (forall i :: 0 <= i < |log.outputs| ==>
          log.outputs[i].sequence == Tokens(log.outputs[..i]) && log.outputs[i].tokens != [])
    && (forall i :: 0 <= i < |log.versions| ==> log.versions[i] > 1)
    && forall i, j :: 0 <= i < j < |log.versions| ==> log.versions[i] < log.versions[j]
  }

  /** The first output begins at zero and each later one where the one before it ended. */
  lemma OutputsAreContiguous(log: Log, i: nat)
    requires WellOrdered(log) && i < |log.outputs|
    ensures log.outputs[i].sequence
         == if i == 0 then 0 else log.outputs[i - 1].sequence + |log.outputs[i - 1].tokens|
  {
    if i > 0 {
      assert log.outputs[..i][..i - 1] == log.outputs[..i - 1];
    }
  }

  /** The next event fits a stream collected so far. */
  ghost predicate Fits(log: Log, request: Str, e: Event) {
    match e
    case DirectResponse(_, _, _, _) => true
    case StatusUpdate(id, version, state, terminal, reserved, backend) =>
      && id == request
      && version > 1 && (forall v <- log.versions :: v < version)
      && (state == Materialized ==> reserved && backend)
      && (terminal <==> state == Terminal)
    case OutputFrame(id, output) =>
      && id == request
      && output.tokens != [] && output.sequence == Tokens(log.outputs) && |output.publicationId| == 32
    case Unexpected => false
  }

  function Added(log: Log, e: Event): Log {
    match e
    case StatusUpdate(_, version, state, _, _, _) =>
      Log(log.states + [state], log.outputs, log.versions + [version])
    case OutputFrame(_, output) => log.(outputs := log.outputs + [output])
    case _ => log
  }

  predicate Ends(e: Event) {
    e.StatusUpdate? && e.state == Terminal
  }

  lemma AddingKeepsOrder(log: Log, request: Str, e: Event)
    requires WellOrdered(log) && Fits(log, request, e)
    ensures WellOrdered(Added(log, e))
    ensures Terminal in Added(log, e).states <==> Terminal in log.states || Ends(e)
  {
    var after := Added(log, e);
    if e.OutputFrame? {
      assert forall i :: 0 <= i <= |log.outputs| ==> after.outputs[..i] == log.outputs[..i];
      assert log.outputs[..|log.outputs|] == log.outputs;
    }
    if e.StatusUpdate? {
      assert forall s :: s in after.states <==> s in log.states || s == e.state;
      assert forall i :: 0 <= i < |log.versions| ==> log.versions[i] in log.versions;
    }
  }

  ghost function AddedAll(log: Log, request: Str, events: seq<Event>): Result<Log, ()>
    decreases |events|
  {
    if events == [] then Ok(log)
    else if !Fits(log, request, events[0]) then Err(())
    else AddedAll(Added(log, events[0]), request, events[1..])
  }

  predicate AnyEnds(events: seq<Event>) {
    exists e <- events :: Ends(e)
  }

  lemma {:induction false} AddingAllKeepsOrder(log: Log, request: Str, events: seq<Event>)
    requires WellOrdered(log) && AddedAll(log, request, events).Ok?
    ensures WellOrdered(AddedAll(log, request, events).value)
    ensures Terminal in AddedAll(log, request, events).value.states <==> Terminal in log.states || AnyEnds(events)
    decreases |events|
  {
    hide WellOrdered, Fits;
    if events != [] {
      AddingKeepsOrder(log, request, events[0]);
      AddingAllKeepsOrder(Added(log, events[0]), request, events[1..]);
      assert events == [events[0]] + events[1..];
    }
  }

  // ---- cancellation --------------------------------------------------------------------------

  const CANCEL_READS := 10_000
  const RUN_READS := 100_000

  /** How many events come before the first direct response. */
  function Leading(feed: seq<Event>): (n: nat)
    ensures n <= |feed|
  {
    if feed == [] || feed[0].DirectResponse? then 0 else 1 + Leading(feed[1..])
  }

  lemma {:induction false} LeadingIsTheFirst(feed: seq<Event>, n: nat)
    requires n <= |feed| && forall i :: 0 <= i < n ==> !feed[i].DirectResponse?
    ensures n <= Leading(feed)
    ensures n < |feed| && feed[n].DirectResponse? ==> n == Leading(feed)
    ensures n == |feed| ==> n == Leading(feed)
  {
    if n > 0 {
      LeadingIsTheFirst(feed[1..], n - 1);
    }
  }

  predicate Cancels(e: Event, command: nat, request: Str) {
    e.DirectResponse? && e.commandId == command && e.cancellationAccepted && e.requestId == request
    && e.eventSequence != 0
  }

  /** The command is answered in time: the first direct response there is, is its acceptance. */
  predicate CancelAnswered(feed: seq<Event>, command: nat, request: Str) {
    var n := Leading(feed);
    n < |feed| && n < CANCEL_READS && Cancels(feed[n], command, request)
  }

  // ---- the listening loop as a function ------------------------------------------------------

  /** Events a cancellation held back are added after it; the stream is then read on. */
  ghost function Listen(feed: seq<Event>, log: Log, terminal: bool, pending: bool, command: nat, request: Str,
      budget: nat): Result<Log, ()>
    decreases budget
  {
    if terminal then Ok(log)
    else if budget == 0 || feed == [] || !Fits(log, request, feed[0]) then Err(())
    else
      var first := Added(log, feed[0]);
      var rest := feed[1..];
      if !pending || first.outputs == [] then
        Listen(rest, first, Ends(feed[0]), pending, command, request, budget - 1)
      else if !CancelAnswered(rest, command, request) then Err(())
      else
        var n := Leading(rest);
        var held := AddedAll(first, request, rest[..n]);
        if held.Err? then Err(())
        else Listen(rest[n + 1..], held.value, Ends(feed[0]) || AnyEnds(rest[..n]), false, command, request, budget - 1)
  }

  datatype ClientEvent =
    | NoEvent
    | CancelBeforeReceipt
    | CancelAfterReceipt
    | Disconnect
    | BackpressureTimeout(disconnected: bool)

  ghost function Generation(feed: seq<Event>, command: nat, request: Str, event: ClientEvent): Result<Log, ()> {
    match event
    case Disconnect => Ok(FRESH)
    case BackpressureTimeout(disconnected) => if disconnected then Ok(FRESH) else Err(())
    case CancelBeforeReceipt =>
      if !CancelAnswered(feed, command, request) then Err(())
      else
        var n := Leading(feed);
        var held := AddedAll(FRESH, request, feed[..n]);
        if held.Err? then Err(())
        else Listen(feed[n + 1..], held.value, AnyEnds(feed[..n]), false, command, request, RUN_READS)
    case _ => Listen(feed, FRESH, false, event == CancelAfterReceipt, command, request, RUN_READS)
  }

  /** Whatever interleaving a cancellation causes, a log that comes back is well ordered, and it holds a
      terminal state unless the client itself hung up. */
  lemma GenerationIsWellOrdered(feed: seq<Event>, command: nat, request: Str, event: ClientEvent)
    requires Generation(feed, command, request, event).Ok?
    ensures var log := Generation(feed, command, request, event).value;
      && WellOrdered(log) && log.states[0] == Accepted
      && (Terminal in log.states <==> !event.Disconnect? && !event.BackpressureTimeout?)
  {
    hide WellOrdered, Listen, AddedAll;
    FreshIsWellOrdered();
    if event == CancelBeforeReceipt {
      var n := Leading(feed);
      AddingAllKeepsOrder(FRESH, request, feed[..n]);
      AddingAllKeepsStart(FRESH, request, feed[..n]);
      ListenIsWellOrdered(feed[n + 1..], AddedAll(FRESH, request, feed[..n]).value, AnyEnds(feed[..n]), false,
        command, request, RUN_READS);
    } else if event == NoEvent || event == CancelAfterReceipt {
      ListenIsWellOrdered(feed, FRESH, false, event == CancelAfterReceipt, command, request, RUN_READS);
    }
  }

  lemma FreshIsWellOrdered()
    ensures WellOrdered(FRESH) && Terminal !in FRESH.states && FRESH.states[0] == Accepted
  {
  }

  lemma {:induction false} AddingAllKeepsStart(log: Log, request: Str, events: seq<Event>)
    requires AddedAll(log, request, events).Ok?
    ensures log.states <= AddedAll(log, request, events).value.states
    decreases |events|
  {
    hide Fits;
    if events != [] {
      AddingAllKeepsStart(Added(log, events[0]), request, events[1..]);
    }
  }

  lemma {:induction false} ListenIsWellOrdered(feed: seq<Event>, log: Log, terminal: bool, pending: bool,
      command: nat, request: Str, budget: nat)
    requires WellOrdered(log) && (terminal <==> Terminal in log.states) && log.states != []
    requires Listen(feed, log, terminal, pending, command, request, budget).Ok?
    ensures var end := Listen(feed, log, terminal, pending, command, request, budget).value;
      WellOrdered(end) && Terminal in end.states && log.states <= end.states
    decreases budget
  {
    hide WellOrdered, Fits, AddedAll, AnyEnds, Ends;
    if !terminal {
      AddingKeepsOrder(log, request, feed[0]);
      var first, rest := Added(log, feed[0]), feed[1..];
      if !pending || first.outputs == [] {
        ListenIsWellOrdered(rest, first, Ends(feed[0]), pending, command, request, budget - 1);
      } else {
        var n := Leading(rest);
        AddingAllKeepsOrder(first, request, rest[..n]);
        AddingAllKeepsStart(first, request, rest[..n]);
        ListenIsWellOrdered(rest[n + 1..], AddedAll(first, request, rest[..n]).value,
          Ends(feed[0]) || AnyEnds(rest[..n]), false, command, request, budget - 1);
      }
    }
  }

  // ---- what a log is made of -----------------------------------------------------------------

  /** What every event read must carry: the request, a version above one, both flags when materialized,
      the terminal mark exactly when terminal, some tokens and an id of 32 characters on outputs. */
  predicate Sound(e: Event, request: Str) {
    match e
    case DirectResponse(_, _, _, _) => true
    case StatusUpdate(id, version, state, terminal, reserved, backend) =>
      && id == request && version > 1
      && (state == Materialized ==> reserved && backend)
      && terminal == (state == Terminal)
    case OutputFrame(id, output) => id == request && |output.tokens| > 0 && |output.publicationId| == 32
    case Unexpected => false
  }

  function StatesOf(events: seq<Event>): seq<State> {
    if events == [] then []
    else (if events[0].StatusUpdate? then [events[0].state] else []) + StatesOf(events[1..])
  }

  function VersionsOf(events: seq<Event>): seq<int> {
    if events == [] then []
    else (if events[0].StatusUpdate? then [events[0].version] else []) + VersionsOf(events[1..])
  }

  function OutputsOf(events: seq<Event>): seq<Output> {
    if events == [] then []
    else (if events[0].OutputFrame? then [events[0].output] else []) + OutputsOf(events[1..])
  }

  /** The log with everything in some sound events behind it, in their order. */
  ghost predicate Gathers(end: Log, log: Log, events: seq<Event>, request: Str) {
    && end.states == log.states + StatesOf(events)
    && end.outputs == log.outputs + OutputsOf(events)
    && end.versions == log.versions + VersionsOf(events)
    && forall i :: 0 <= i < |events| ==> Sound(events[i], request)
  }

  lemma GathersNothing(log: Log, request: Str)
    ensures Gathers(log, log, [], request)
  {
  }

  lemma GathersOne(log: Log, e: Event, request: Str)
    requires Fits(log, request, e)
    ensures Gathers(Added(log, e), log, [e], request)
  {
    assert [e][1..] == [];
    assert StatesOf([]) == [] && OutputsOf([]) == [] && VersionsOf([]) == [];
  }

  lemma {:induction false} GathersBoth(log: Log, middle: Log, end: Log, a: seq<Event>, b: seq<Event>, request: Str)
    requires Gathers(middle, log, a, request) && Gathers(end, middle, b, request)
    ensures Gathers(end, log, a + b, request)
  {
    OfBoth(a, b);
    Assoc(log.states, StatesOf(a), StatesOf(b));
    Assoc(log.outputs, OutputsOf(a), OutputsOf(b));
    Assoc(log.versions, VersionsOf(a), VersionsOf(b));
  }

  lemma {:induction false} OfBoth(a: seq<Event>, b: seq<Event>)
    ensures StatesOf(a + b) == StatesOf(a) + StatesOf(b)
    ensures OutputsOf(a + b) == OutputsOf(a) + OutputsOf(b)
    ensures VersionsOf(a + b) == VersionsOf(a) + VersionsOf(b)
  {
    if a == [] {
      assert a + b == b;
    } else {
      OfBoth(a[1..], b);
      assert (a + b)[0] == a[0] && (a + b)[1..] == a[1..] + b;
      var update, output := a[0].StatusUpdate?, a[0].OutputFrame?;
      Assoc(if update then [a[0].state] else [], StatesOf(a[1..]), StatesOf(b));
      Assoc(if update then [a[0].version] else [], VersionsOf(a[1..]), VersionsOf(b));
      Assoc(if output then [a[0].output] else [], OutputsOf(a[1..]), OutputsOf(b));
    }
  }

  lemma {:induction false} AddingAllGathers(log: Log, request: Str, events: seq<Event>)
    requires AddedAll(log, request, events).Ok?
    ensures Gathers(AddedAll(log, request, events).value, log, events, request)
    decreases |events|
  {
    hide Fits, Added, Gathers;
    if events == [] {
      GathersNothing(log, request);
    } else {
      var first := Added(log, events[0]);
      GathersOne(log, events[0], request);
      AddingAllGathers(first, request, events[1..]);
      GathersBoth(log, first, AddedAll(log, request, events).value, [events[0]], events[1..], request);
      assert events == [events[0]] + events[1..];
    }
  }

  lemma GathersSkipping(end: Log, log: Log, events: seq<Event>, e: Event, request: Str)
    requires Gathers(end, log, events, request) && e.DirectResponse?
    ensures Gathers(end, log, events + [e], request)
  {
    OfBoth(events, [e]);
    assert [e][1..] == [];
    assert StatesOf([]) == [] && OutputsOf([]) == [] && VersionsOf([]) == [];
  }

  /** A log listened for is made of what was held and a beginning of the feed. */
  lemma {:induction false} ListenGathers(feed: seq<Event>, log: Log, terminal: bool, pending: bool, command: nat,
      request: Str, budget: nat) returns (k: nat)
    requires Listen(feed, log, terminal, pending, command, request, budget).Ok?
    ensures k <= |feed|
    ensures Gathers(Listen(feed, log, terminal, pending, command, request, budget).value, log, feed[..k], request)
    decreases budget
  {
    hide Fits, Added, Gathers, Ends, AnyEnds, AddedAll;
    if terminal {
      GathersNothing(log, request);
      k := 0;
    } else {
      var first, rest := Added(log, feed[0]), feed[1..];
      var end := Listen(feed, log, terminal, pending, command, request, budget).value;
      GathersOne(log, feed[0], request);
      if !pending || first.outputs == [] {
        var j := ListenGathers(rest, first, Ends(feed[0]), pending, command, request, budget - 1);
        GathersBoth(log, first, end, [feed[0]], rest[..j], request);
        k := j + 1;
        assert feed[..k] == [feed[0]] + rest[..j];
      } else {
        var n := Leading(rest);
        var held := AddedAll(first, request, rest[..n]).value;
        AddingAllGathers(first, request, rest[..n]);
        GathersSkipping(held, first, rest[..n], rest[n], request);
        var j := ListenGathers(rest[n + 1..], held, Ends(feed[0]) || AnyEnds(rest[..n]), false, command, request,
          budget - 1);
        GathersBoth(log, first, held, [feed[0]], rest[..n] + [rest[n]], request);
        GathersBoth(log, held, end, [feed[0]] + (rest[..n] + [rest[n]]), rest[n + 1..][..j], request);
        k := n + 2 + j;
        assert feed[..k] == [feed[0]] + (rest[..n] + [rest[n]]) + rest[n + 1..][..j];
      }
    }
  }

  /** A log that comes back is made of exactly a beginning of the feed, event by event in its order, and
      each of those events is sound: every materialized update carries both flags, every output an id of
      32 characters. */
  lemma GenerationGathers(feed: seq<Event>, command: nat, request: Str, event: ClientEvent) returns (k: nat)
    requires Generation(feed, command, request, event).Ok?
    ensures k <= |feed|
    ensures var log := Generation(feed, command, request, event).value;
      && log.states == [Accepted] + StatesOf(feed[..k])
      && log.outputs == OutputsOf(feed[..k])
      && log.versions == VersionsOf(feed[..k])
      && forall i :: 0 <= i < k ==> Sound(feed[i], request)
  {
    hide Listen, AddedAll, Leading, Sound, StatesOf, OutputsOf, VersionsOf, AnyEnds;
    var end := Generation(feed, command, request, event).value;
    if event == CancelBeforeReceipt {
      var n := Leading(feed);
      var held := AddedAll(FRESH, request, feed[..n]).value;
      AddingAllGathers(FRESH, request, feed[..n]);
      GathersSkipping(held, FRESH, feed[..n], feed[n], request);
      var j := ListenGathers(feed[n + 1..], held, AnyEnds(feed[..n]), false, command, request, RUN_READS);
      GathersBoth(FRESH, held, end, feed[..n] + [feed[n]], feed[n + 1..][..j], request);
      k := n + 1 + j;
      assert feed[..k] == feed[..n] + [feed[n]] + feed[n + 1..][..j];
    } else if event == NoEvent || event == CancelAfterReceipt {
      k := ListenGathers(feed, FRESH, false, event == CancelAfterReceipt, command, request, RUN_READS);
    } else {
      GathersNothing(FRESH, request);
      k := 0;
    }
    assert Gathers(end, FRESH, feed[..k], request);
    assert forall i :: 0 <= i < k ==> feed[..k][i] == feed[i];
  }

  /** The log with what some events carry behind it. */
  function Behind(log: Log, events: seq<Event>): Log {
    Log(log.states + StatesOf(events), log.outputs + OutputsOf(events), log.versions + VersionsOf(events))
  }

  /** Events are accepted exactly when each is sound and the log they make is well ordered. */
  lemma {:induction false} AcceptedEventsExactly(log: Log, request: Str, events: seq<Event>)
    requires WellOrdered(log)
    ensures AddedAll(log, request, events).Ok? <==>
      WellOrdered(Behind(log, events)) && forall i :: 0 <= i < |events| ==> Sound(events[i], request)
    decreases |events|
  {
    hide WellOrdered, Fits, Added, Sound;
    if AddedAll(log, request, events).Ok? {
      AddingAllKeepsOrder(log, request, events);
      AddingAllGathers(log, request, events);
    }
    if events != [] && WellOrdered(Behind(log, events)) && forall i :: 0 <= i < |events| ==> Sound(events[i], request) {
      FirstFits(log, request, events);
      AddingKeepsOrder(log, request, events[0]);
      AcceptedEventsExactly(Added(log, events[0]), request, events[1..]);
    }
  }

  lemma FirstFits(log: Log, request: Str, events: seq<Event>)
    requires WellOrdered(log) && events != [] && Sound(events[0], request) && WellOrdered(Behind(log, events))
    ensures Fits(log, request, events[0])
    ensures Behind(Added(log, events[0]), events[1..]) == Behind(log, events)
  {
    BehindFirst(log, events);
    hide Behind, Added, WellOrdered, Fits;
    var e := events[0];
    if e.StatusUpdate? {
      FirstUpdateFits(log, request, events);
    } else if e.OutputFrame? {
      FirstOutputFits(log, request, events);
    } else {
      DirectFits(log, request, e);
    }
  }

  lemma DirectFits(log: Log, request: Str, e: Event)
    requires Sound(e, request) && !e.StatusUpdate? && !e.OutputFrame?
    ensures Fits(log, request, e)
  {
  }

  lemma BehindFirst(log: Log, events: seq<Event>)
    requires events != []
    ensures Behind(Added(log, events[0]), events[1..]) == Behind(log, events)
  {
    var e, rest := events[0], events[1..];
    var states: seq<State> := if e.StatusUpdate? then [e.state] else [];
    var versions: seq<int> := if e.StatusUpdate? then [e.version] else [];
    var outputs: seq<Output> := if e.OutputFrame? then [e.output] else [];
    var first := Added(log, e);
    assert first.states == log.states + states;
    assert first.versions == log.versions + versions;
    assert first.outputs == log.outputs + outputs;
    hide Added;
    Assoc(log.states, states, StatesOf(rest));
    Assoc(log.versions, versions, VersionsOf(rest));
    Assoc(log.outputs, outputs, OutputsOf(rest));
  }

  lemma FirstOutputFits(log: Log, request: Str, events: seq<Event>)
    requires events != [] && events[0].OutputFrame? && Sound(events[0], request)
    requires WellOrdered(Behind(log, events))
    ensures Fits(log, request, events[0])
  {
    hide StatesOf, VersionsOf, Tokens;
    var n, outputs := |log.outputs|, Behind(log, events).outputs;
    assert OutputsOf(events)[0] == events[0].output;
    hide OutputsOf;
    assert outputs[n] == events[0].output && outputs[..n] == log.outputs;
  }

  lemma FirstUpdateFits(log: Log, request: Str, events: seq<Event>)
    requires events != [] && events[0].StatusUpdate? && Sound(events[0], request)
    requires WellOrdered(Behind(log, events))
    ensures Fits(log, request, events[0])
  {
    hide StatesOf, OutputsOf, Tokens;
    var n, versions := |log.versions|, Behind(log, events).versions;
    assert VersionsOf(events)[0] == events[0].version;
    hide VersionsOf;
    assert versions[n] == events[0].version;
    forall v | v in log.versions ensures v < events[0].version {
      var i :| 0 <= i < n && log.versions[i] == v;
      assert versions[i] == v;
    }
  }

  /** A client that hangs up before the first event keeps the acceptance alone; one left stalled does
      exactly when the connection is really gone. */
  lemma HangUpExactly(feed: seq<Event>, command: nat, request: Str, gone: bool)
    ensures Generation(feed, command, request, Disconnect) == Ok(Log([Accepted], [], []))
    ensures Generation(feed, command, request, BackpressureTimeout(gone)) ==
      if gone then Ok(Log([Accepted], [], [])) else Err(())
  {
  }

  // ---- limits --------------------------------------------------------------------------------

  /** A cancellation is answered exactly when, within ten thousand reads, the first direct response is
      this command's, accepting, for this request, with a sequence number. */
  lemma CancelAnsweredExactly(feed: seq<Event>, command: nat, request: Str)
    ensures CancelAnswered(feed, command, request) <==> exists n :: AnsweredAt(feed, command, request, n)
  {
    if CancelAnswered(feed, command, request) {
      LeadingAreEvents(feed);
      assert AnsweredAt(feed, command, request, Leading(feed));
    }
    forall n | AnsweredAt(feed, command, request, n) ensures n == Leading(feed) {
      LeadingIsTheFirst(feed, n);
    }
  }

  predicate AnsweredAt(feed: seq<Event>, command: nat, request: Str, n: nat) {
    && n < 10_000 && n < |feed|
    && (forall i :: 0 <= i < n ==> !feed[i].DirectResponse?)
    && feed[n].DirectResponse? && feed[n].commandId == command && feed[n].cancellationAccepted
    && feed[n].requestId == request && feed[n].eventSequence > 0
  }

  lemma {:induction false} LeadingAreEvents(feed: seq<Event>)
    ensures forall i :: 0 <= i < Leading(feed) ==> !feed[i].DirectResponse?
  {
    if feed != [] && !feed[0].DirectResponse? {
      LeadingAreEvents(feed[1..]);
      assert forall i :: 0 < i < |feed| ==> feed[i] == feed[1..][i - 1];
    }
  }

  /** The first terminal update, with everything up to it acceptable. */
  ghost predicate EndsAt(feed: seq<Event>, log: Log, request: Str, k: int) {
    && 0 <= k < |feed| && feed[k].StatusUpdate? && feed[k].state == Terminal
    && (forall i :: 0 <= i < k ==> !(feed[i].StatusUpdate? && feed[i].state == Terminal))
    && AddedAll(log, request, feed[..k + 1]).Ok?
  }

  lemma {:induction false} ListensExactly(feed: seq<Event>, log: Log, command: nat, request: Str, budget: nat)
    ensures Listen(feed, log, false, false, command, request, budget).Ok? <==>
      exists k :: EndsAt(feed, log, request, k) && k < budget
    decreases budget
  {
    hide Fits, Added;
    if feed != [] && Fits(log, request, feed[0]) && budget > 0 {
      var first, rest := Added(log, feed[0]), feed[1..];
      if Ends(feed[0]) {
        assert feed[..0 + 1][0] == feed[0] && feed[..0 + 1][1..] == [];
        assert AddedAll(first, request, []).Ok?;
        assert AddedAll(log, request, feed[..0 + 1]).Ok?;
        assert EndsAt(feed, log, request, 0);
      } else {
        ListensExactly(rest, first, command, request, budget - 1);
        forall k: nat ensures EndsAt(feed, log, request, k + 1) <==> EndsAt(rest, first, request, k) {
          EndsLater(feed, log, request, k);
        }
        forall k | EndsAt(feed, log, request, k) ensures k > 0 && EndsAt(rest, first, request, k - 1) {
          EndsLater(feed, log, request, k - 1);
        }
      }
    } else {
      forall k | EndsAt(feed, log, request, k) ensures k >= budget {
        assert feed[..k + 1][0] == feed[0];
      }
    }
  }

  lemma EndsLater(feed: seq<Event>, log: Log, request: Str, k: nat)
    requires feed != [] && Fits(log, request, feed[0]) && !Ends(feed[0])
    ensures EndsAt(feed, log, request, k + 1) <==> EndsAt(feed[1..], Added(log, feed[0]), request, k)
  {
    hide Fits, Added;
    if k + 1 < |feed| {
      assert feed[..k + 2][1..] == feed[1..][..k + 1] && feed[..k + 2][0] == feed[0];
      assert forall i :: 0 < i <= k ==> feed[i] == feed[1..][i - 1];
      assert forall i :: 0 <= i < k ==> feed[1..][i] == feed[i + 1];
    }
  }

  /** A client that neither cancels nor hangs up gets a log exactly when a terminal update arrives within
      a hundred thousand events and nothing before it is out of place. */
  lemma UndisturbedExactly(feed: seq<Event>, command: nat, request: Str)
    ensures Generation(feed, command, request, NoEvent).Ok? <==>
      exists k :: EndsAt(feed, FRESH, request, k) && k < 100_000
  {
    hide EndsAt, Listen;
    ListensExactly(feed, FRESH, command, request, RUN_READS);
  }

  /** Without a cancellation the terminal state is the last one and the only one. */
  lemma {:induction false} TerminalIsLast(feed: seq<Event>, log: Log, command: nat, request: Str, budget: nat)
    requires Terminal !in log.states
    requires Listen(feed, log, false, false, command, request, budget).Ok?
    ensures var states := Listen(feed, log, false, false, command, request, budget).value.states;
      states != [] && states[|states| - 1] == Terminal && Terminal !in states[..|states| - 1]
    decreases budget
  {
    hide Fits;
    var first := Added(log, feed[0]);
    if Ends(feed[0]) {
      assert first.states[..|first.states| - 1] == log.states;
    } else {
      TerminalIsLast(feed[1..], first, command, request, budget - 1);
    }
  }

  /** The events a cancellation holds back: everything before its answer, once it has been sent. */
  function HeldAfterOutput(feed: seq<Event>): seq<Event> {
    if feed == [] || Ends(feed[0]) then []
    else if feed[0].OutputFrame? then feed[1..][..Leading(feed[1..])]
    else HeldAfterOutput(feed[1..])
  }

  function HeldBack(feed: seq<Event>, event: ClientEvent): seq<Event> {
    match event
    case CancelBeforeReceipt => feed[..Leading(feed)]
    case CancelAfterReceipt => HeldAfterOutput(feed)
    case _ => []
  }

  /** Whether the last status update of some events is terminal; without one, what held before. */
  predicate EndsLast(events: seq<Event>, before: bool) {
    if events == [] then before
    else EndsLast(events[1..], if events[0].StatusUpdate? then Ends(events[0]) else before)
  }

  predicate LastIsTerminal(log: Log) {
    log.states != [] && log.states[|log.states| - 1] == Terminal
  }

  lemma {:induction false} AddingAllEnds(log: Log, request: Str, events: seq<Event>)
    requires AddedAll(log, request, events).Ok? && log.states != []
    ensures LastIsTerminal(AddedAll(log, request, events).value) <==> EndsLast(events, LastIsTerminal(log))
    decreases |events|
  {
    hide Fits;
    if events != [] {
      AddingAllEnds(Added(log, events[0]), request, events[1..]);
    }
  }

  /** When the terminal state comes last: exactly when no held-back event is terminal, or the last status
      update held back is. */
  lemma TerminalIsLastExactly(feed: seq<Event>, command: nat, request: Str, event: ClientEvent)
    requires Generation(feed, command, request, event).Ok? && !event.Disconnect? && !event.BackpressureTimeout?
    ensures var held := HeldBack(feed, event);
      LastIsTerminal(Generation(feed, command, request, event).value) <==> (AnyEnds(held) ==> EndsLast(held, false))
  {
    hide AddedAll, Listen, EndsLast, Leading;
    FreshIsWellOrdered();
    if event == CancelBeforeReceipt {
      var n := Leading(feed);
      HeldDecides(feed[n + 1..], FRESH, feed[..n], command, request, RUN_READS);
    } else if event == CancelAfterReceipt {
      PendingEnds(feed, FRESH, command, request, RUN_READS);
    } else {
      TerminalIsLast(feed, FRESH, command, request, RUN_READS);
    }
  }

  /** The stream is read on after a held-back batch: it decides alone if it holds a terminal update. */
  lemma HeldDecides(rest: seq<Event>, log: Log, held: seq<Event>, command: nat, request: Str, budget: nat)
    requires Terminal !in log.states && log.states != [] && WellOrdered(log)
    requires AddedAll(log, request, held).Ok?
    requires Listen(rest, AddedAll(log, request, held).value, AnyEnds(held), false, command, request, budget).Ok?
    ensures LastIsTerminal(
        Listen(rest, AddedAll(log, request, held).value, AnyEnds(held), false, command, request, budget).value)
      <==> (AnyEnds(held) ==> EndsLast(held, false))
  {
    hide WellOrdered, AddedAll, EndsLast, Fits;
    AddingAllKeepsOrder(log, request, held);
    AddingAllEnds(log, request, held);
    if !AnyEnds(held) {
      TerminalIsLast(rest, AddedAll(log, request, held).value, command, request, budget);
    }
  }

  lemma {:induction false} PendingEnds(feed: seq<Event>, log: Log, command: nat, request: Str, budget: nat)
    requires Terminal !in log.states && log.states != [] && WellOrdered(log) && log.outputs == []
    requires Listen(feed, log, false, true, command, request, budget).Ok?
    ensures var held := HeldAfterOutput(feed);
      LastIsTerminal(Listen(feed, log, false, true, command, request, budget).value)
      <==> (AnyEnds(held) ==> EndsLast(held, false))
    decreases budget
  {
    hide WellOrdered, AddedAll, EndsLast, Fits, Leading;
    AddingKeepsOrder(log, request, feed[0]);
    var first := Added(log, feed[0]);
    if feed[0].OutputFrame? {
      var rest := feed[1..];
      assert CancelAnswered(rest, command, request);
      HeldDecides(rest[Leading(rest) + 1..], first, rest[..Leading(rest)], command, request, budget - 1);
    } else if !Ends(feed[0]) {
      PendingEnds(feed[1..], first, command, request, budget - 1);
    }
  }

  /** With one it need not be: events held back by the cancellation are added even past a terminal
      update, so a state can follow it. */
  lemma StateAfterTerminal(request: Str, name: Str)
    ensures Generation(
      [StatusUpdate(request, 2, Terminal, true, false, false),
       StatusUpdate(request, 3, OtherState(name), false, false, false),
       DirectResponse(2, true, request, 1)], 2, request, CancelBeforeReceipt)
      == Ok(Log([Accepted, Terminal, OtherState(name)], [], [2, 3]))
  {
    var a := StatusUpdate(request, 2, Terminal, true, false, false);
    var b := StatusUpdate(request, 3, OtherState(name), false, false, false);
    var c := DirectResponse(2, true, request, 1);
    var feed := [a, b, c];
    assert feed[1..] == [b, c] && feed[1..][1..] == [c];
    LeadingIsTheFirst(feed, 2);
    assert feed[..2] == [a, b] && [a, b][1..] == [b];
    var one := Added(FRESH, a);
    var two := Log([Accepted, Terminal, OtherState(name)], [], [2, 3]);
    assert one == Log([Accepted, Terminal], [], [2]);
    assert Added(one, b) == two;
    assert AddedAll(two, request, []) == Ok(two);
    assert AddedAll(one, request, [b]) == Ok(two);
    assert AddedAll(FRESH, request, [a, b]) == Ok(two);
    assert a in feed[..2] && Ends(a);
  }

  // ---- the client ----------------------------------------------------------------------------

  class Client {
    const feed: seq<Event>
    var position: nat
    var commandId: nat

    ghost predicate Valid()
      reads this
    {
      position <= |feed|
    }

    ghost function Rest(): seq<Event>
      requires Valid()
      reads this
    {
      feed[position..]
    }

    constructor (feed: seq<Event>)
      ensures Valid() && Rest() == feed && commandId == 1
    {
      this.feed, position, commandId := feed, 0, 1;
    }

    method Receive() returns (r: Result<Event, ()>)
      requires Valid()
      modifies this`position
      ensures Valid()
      ensures r.Ok? <==> old(Rest()) != []
      ensures r.Ok? ==> r.value == old(Rest())[0] && Rest() == old(Rest())[1..]
    {
      if position == |feed| {
        return Err(());
      }
      position := position + 1;
      return Ok(feed[position - 1]);
    }

    /** Reads on until the direct response, setting aside in order what comes before it. */
    method Cancel(request: Str) returns (r: Result<seq<Event>, ()>)
      requires Valid()
      modifies this
      ensures Valid() && commandId == old(commandId) + 1
      ensures r.Ok? <==> CancelAnswered(old(Rest()), old(commandId) + 1, request)
      ensures r.Ok? ==> var n := Leading(old(Rest()));
        r.value == old(Rest())[..n] && Rest() == old(Rest())[n + 1..]
    {
      hide Leading;
      commandId := commandId + 1;
      ghost var rest := Rest();
      var intervening: seq<Event> := [];
      for n := 0 to CANCEL_READS
        invariant Valid() && n <= |rest| && Rest() == rest[n..] && intervening == rest[..n]
        invariant forall i :: 0 <= i < n ==> !rest[i].DirectResponse?
        invariant commandId == old(commandId) + 1
      {
        LeadingIsTheFirst(rest, n);
        var response := Receive();
        if response.Err? {
          return Err(());
        }
        if response.value.DirectResponse? {
          if !Cancels(response.value, commandId, request) {
            return Err(());
          }
          return Ok(intervening);
        }
        intervening := intervening + [response.value];
      }
      LeadingIsTheFirst(rest, CANCEL_READS);
      return Err(());
    }
  }

  class EventLog {
    var states: seq<State>
    var outputs: seq<Output>
    var statusVersions: seq<int>

    ghost function Value(): Log
      reads this
    {
      Log(states, outputs, statusVersions)
    }

    constructor ()
      ensures Value() == FRESH
    {
      states, outputs, statusVersions := [Accepted], [], [];
    }

    /** Compares with the last version and the last output only; on a well-ordered log that is enough. */
    method AppendEvent(e: Event, request: Str) returns (r: Result<bool, ()>)
      requires WellOrdered(Value())
      modifies this
      ensures r.Ok? <==> Fits(old(Value()), request, e)
      ensures r.Ok? ==> Value() == Added(old(Value()), e) && WellOrdered(Value())
      ensures r.Ok? ==> (r.value <==> Ends(e))
    {
      if e.DirectResponse? {
        return Ok(false);
      }
      if e.Unexpected? || e.requestId != request {
        return Err(());
      }
      ghost var before := Value();
      assert statusVersions != [] ==> statusVersions[|statusVersions| - 1] in before.versions;
      if e.StatusUpdate? {
        if e.version <= 1 || (statusVersions != [] && e.version <= statusVersions[|statusVersions| - 1]) {
          return Err(());
        }
        statusVersions := statusVersions + [e.version];
        states := states + [e.state];
        if e.state == Materialized && !(e.reserved && e.backend) {
          return Err(());
        }
        if e.terminal != (e.state == Terminal) {
          return Err(());
        }
        AddingKeepsOrder(before, request, e);
        return Ok(e.terminal);
      }
      var output := e.output;
      if output.tokens == [] {
        return Err(());
      }
      var expected := if outputs == [] then 0 else outputs[|outputs| - 1].sequence + |outputs[|outputs| - 1].tokens|;
      if output.sequence != expected || |output.publicationId| != 32 {
        return Err(());
      }
      AddingKeepsOrder(before, request, e);
      outputs := outputs + [output];
      return Ok(false);
    }

    /** Adds a held-back batch; terminal is or-ed over it, and nothing stops at a terminal update. */
    method AppendAll(events: seq<Event>, request: Str) returns (r: Result<bool, ()>)
      requires WellOrdered(Value())
      modifies this
      ensures r.Ok? <==> AddedAll(old(Value()), request, events).Ok?
      ensures r.Ok? ==> Value() == AddedAll(old(Value()), request, events).value && WellOrdered(Value())
      ensures r.Ok? ==> (r.value <==> AnyEnds(events))
    {
      hide WellOrdered, Fits, Added, Ends;
      var terminal := false;
      for i := 0 to |events|
        invariant WellOrdered(Value())
        invariant AddedAll(old(Value()), request, events) == AddedAll(Value(), request, events[i..])
        invariant terminal <==> AnyEnds(events[..i])
      {
        assert events[i..][0] == events[i] && events[i..][1..] == events[i + 1..];
        assert events[..i + 1] == events[..i] + [events[i]];
        var added := AppendEvent(events[i], request);
        if added.Err? {
          return Err(());
        }
        terminal := terminal || added.value;
      }
      assert events[..|events|] == events;
      return Ok(terminal);
    }
  }

  /** The request after its submission was accepted. */
  method RunGeneration(client: Client, request: Str, event: ClientEvent) returns (r: Result<Log, ()>)
    requires client.Valid()
    modifies client
    ensures r == Generation(old(client.Rest()), old(client.commandId) + 1, request, event)
  {
    hide WellOrdered, Listen, AddedAll, AnyEnds, CancelAnswered, Leading;
    FreshIsWellOrdered();
    var log := new EventLog();
    var terminal := false;
    match event {
      case Disconnect => return Ok(FRESH);
      case BackpressureTimeout(disconnected) => return if disconnected then Ok(FRESH) else Err(());
      case CancelBeforeReceipt =>
        var held := client.Cancel(request);
        if held.Err? {
          return Err(());
        }
        var added := log.AppendAll(held.value, request);
        if added.Err? {
          return Err(());
        }
        r := ListenOn(client, log, request, added.value, false, old(client.commandId) + 1);
      case _ =>
        r := ListenOn(client, log, request, false, event == CancelAfterReceipt, client.commandId + 1);
    }
  }

  /** One turn of the loop: an event, and after the first output the cancellation if one is due. */
  method ListenOnce(client: Client, log: EventLog, request: Str, pending: bool, ghost command: nat, ghost budget: nat)
    returns (r: Result<(bool, bool), ()>)
    requires client.Valid() && WellOrdered(log.Value()) && budget > 0
    requires pending ==> command == client.commandId + 1
    modifies client, log
    ensures var before := Listen(old(client.Rest()), old(log.Value()), false, pending, command, request, budget);
      && client.Valid()
      && (r.Err? ==> before == Err(()))
      && (r.Ok? ==>
        && WellOrdered(log.Value()) && (r.value.1 ==> command == client.commandId + 1)
        && before == Listen(client.Rest(), log.Value(), r.value.0, r.value.1, command, request, budget - 1))
  {
    hide WellOrdered, Fits, Added, AddedAll, AnyEnds, CancelAnswered, Leading, Ends;
    var e := client.Receive();
    if e.Err? {
      return Err(());
    }
    var added := log.AppendEvent(e.value, request);
    if added.Err? {
      return Err(());
    }
    if !pending || log.outputs == [] {
      return Ok((added.value, pending));
    }
    var held := client.Cancel(request);
    if held.Err? {
      return Err(());
    }
    var more := log.AppendAll(held.value, request);
    if more.Err? {
      return Err(());
    }
    return Ok((added.value || more.value, false));
  }

  method ListenOn(client: Client, log: EventLog, request: Str, ended: bool, cancels: bool, ghost command: nat)
    returns (r: Result<Log, ()>)
    requires client.Valid() && WellOrdered(log.Value())
    requires cancels ==> command == client.commandId + 1
    modifies client, log
    ensures r == Listen(old(client.Rest()), old(log.Value()), ended, cancels, command, request, RUN_READS)
  {
    hide WellOrdered, Fits, Added, AddedAll, AnyEnds, CancelAnswered, Leading, Ends;
    ghost var goal := Listen(client.Rest(), log.Value(), ended, cancels, command, request, RUN_READS);
    var terminal, pending := ended, cancels;
    var turns: nat := 0;
    while turns < RUN_READS && !terminal
      invariant client.Valid() && WellOrdered(log.Value()) && turns <= RUN_READS
      invariant pending ==> command == client.commandId + 1
      invariant goal == Listen(client.Rest(), log.Value(), terminal, pending, command, request, RUN_READS - turns)
    {
      var turn := ListenOnce(client, log, request, pending, command, RUN_READS - turns);
      if turn.Err? {
        return Err(());
      }
      terminal, pending := turn.value.0, turn.value.1;
      turns := turns + 1;
    }
    if !terminal {
      return Err(());
    }
    return Ok(Log(log.states, log.outputs, log.statusVersions));
  }
}
