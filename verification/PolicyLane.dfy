/** The scheduler-policy lane: a scenario, the answers a subject should give to it, and the judge loop
    that compares them turn by turn. */
module PolicyLane {
  import opened Text
  import opened Outcomes
  import opened Scheduling
  import opened Oracle
  import opened Reference
  import Fairness
  import SchedulingRules

  /** A candidate whose timing obligation, if any, is relative to the turn's clock. */
  datatype Template = Template(shape: Candidate, actual: int, offset: Option<int>) {
    function AtTime(now: int): Candidate {
      shape.(obligation := match offset case Some(o) => Some(now + o) case None => None)
    }
  }

  datatype Segment = Segment(turns: nat, clockStep: int, templates: seq<Template>)

  datatype Scenario = Scenario(
    repetitions: nat,
    clockStart: int,
    models: seq<ModelConfig>,
    segments: seq<Segment>)

  /** What load_scenario demands of a segment before it hands it out. */
  predicate WellFormedSegment(seg: Segment, models: seq<ModelConfig>) {
    && seg.turns >= 1
    && (forall t :: t in seg.templates ==> t.shape.model in WeightsOf(models))
    && (forall t :: t in seg.templates ==> 1 <= t.actual <= t.shape.serviceBound)
    && forall i, j :: 0 <= i < j < |seg.templates| ==>
         && seg.templates[i].shape.id != seg.templates[j].shape.id
         && seg.templates[i].shape.model != seg.templates[j].shape.model
  }

  predicate WellFormed(scenario: Scenario) {
    && scenario.repetitions >= 2
    && scenario.models != []
    && (forall i, j :: 0 <= i < j < |scenario.models| ==> scenario.models[i].id != scenario.models[j].id)
    && forall seg :: seg in scenario.segments ==> WellFormedSegment(seg, scenario.models)
  }

  datatype Answer =
    | Initialized(ledgers: Ledgers)
    | Answered(id: Option<Str>, runnableLedgers: Ledgers)
    | Charged(ledgers: Ledgers)

  datatype Record = Record(
    now: int,
    class_: Class,
    expected: Answer,
    observed: Answer,
    receipt: Option<(Answer, Answer)>)

  datatype Point = Point(state: State, now: int)

  // ---- what a faithful subject answers -------------------------------------------------------

  function CandidatesAt(templates: seq<Template>, now: int): (cs: seq<Candidate>)
    ensures |cs| == |templates|
    ensures forall i :: 0 <= i < |cs| ==> cs[i] == templates[i].AtTime(now)
  {
    seq(|templates|, i requires 0 <= i < |templates| => templates[i].AtTime(now))
  }

  /** The service a candidate reports once it has run; the lookup is by candidate id. */
  function ActualOf(templates: seq<Template>, id: Str): int {
    if templates == [] then 0
    else
      var last := templates[|templates| - 1];
      if last.shape.id == id then last.actual else ActualOf(templates[..|templates| - 1], id)
  }

  /** A template's obligation falls due its offset after the clock, so it is urgent exactly when the
      offset leaves no room for both bounds and all flags are set. */
  lemma TemplateAtTime(t: Template, now: int)
    ensures var c := t.AtTime(now);
      && c.id == t.shape.id && c.model == t.shape.model
      && (c.obligation.Some? <==> t.offset.Some?)
      && (t.offset.Some? ==> c.obligation.value - now == t.offset.value)
      && (c.Eligible() <==>
            t.shape.authorized && t.shape.resourceSafe && t.shape.timingFeasible && t.shape.outputReserved)
      && (c.IsUrgent(now) <==>
            && t.shape.authorized && t.shape.resourceSafe && t.shape.timingFeasible && t.shape.outputReserved
            && t.offset.Some? && t.offset.value <= t.shape.serviceBound + t.shape.overheadBound)
  {
  }

  /** Among templates with different ids, an id has its own template's service. */
  lemma {:induction false} ActualIsOwn(templates: seq<Template>, i: nat)
    requires i < |templates|
    requires forall j, k :: 0 <= j < k < |templates| ==> templates[j].shape.id != templates[k].shape.id
    ensures ActualOf(templates, templates[i].shape.id) == templates[i].actual
  {
    if i < |templates| - 1 {
      ActualIsOwn(templates[..|templates| - 1], i);
    }
  }

  ghost predicate Knows(s: State, seg: Segment) {
    forall t :: t in seg.templates ==> t.shape.model in s.weights
  }

  lemma SelectedIsKnown(s: State, now: int, seg: Segment)
    requires Idle(s) && Knows(s, seg)
    ensures Consistent(AfterSchedule(s, now, CandidatesAt(seg.templates, now)))
    ensures AfterSchedule(s, now, CandidatesAt(seg.templates, now)).weights == s.weights
    ensures AfterSchedule(s, now, CandidatesAt(seg.templates, now)).pending
         == Planned(s, now, CandidatesAt(seg.templates, now)).selected
    ensures var p := Planned(s, now, CandidatesAt(seg.templates, now));
      p.selected.Some? ==> p.selected.value.model in s.weights
  {
    var cs := CandidatesAt(seg.templates, now);
    PlannedIsOffered(s, now, cs);
    ScheduleKeepsConsistent(s, now, cs);
    var p := Planned(s, now, cs);
    if p.selected.Some? {
      var i :| 0 <= i < |cs| && cs[i] == p.selected.value;
      assert seg.templates[i] in seg.templates;
    }
  }

  ghost function PlanAt(p: Point, seg: Segment): Plan
    requires Idle(p.state)
  {
    Planned(p.state, p.now, CandidatesAt(seg.templates, p.now))
  }

  ghost function AfterTurn(p: Point, seg: Segment): (q: Point)
    requires Idle(p.state) && Knows(p.state, seg)
    ensures Idle(q.state) && q.state.weights == p.state.weights
  {
    SelectedIsKnown(p.state, p.now, seg);
    var planned := AfterSchedule(p.state, p.now, CandidatesAt(seg.templates, p.now));
    match PlanAt(p, seg).selected
    case None => Point(planned, p.now + seg.clockStep)
    case Some(c) =>
      Point(AfterReceipt(planned, c.model, ActualOf(seg.templates, c.id)), p.now + seg.clockStep)
  }

  ghost function PlanAnswer(p: Point, seg: Segment): Answer
    requires Idle(p.state)
  {
    var reply := ReplyTo(PlanAt(p, seg));
    Answered(reply.id, reply.runnableLedgers)
  }

  ghost function TurnAnswers(p: Point, seg: Segment): seq<Answer>
    requires Idle(p.state) && Knows(p.state, seg)
  {
    [PlanAnswer(p, seg)]
    + if PlanAt(p, seg).selected.None? then [] else [Charged(AfterTurn(p, seg).state.ledgers)]
  }

  ghost function TurnRecord(p: Point, seg: Segment): Record
    requires Idle(p.state) && Knows(p.state, seg)
  {
    var charged := Charged(AfterTurn(p, seg).state.ledgers);
    Record(p.now, PlanAt(p, seg).class_, PlanAnswer(p, seg), PlanAnswer(p, seg),
           if PlanAt(p, seg).selected.None? then None else Some((charged, charged)))
  }

  ghost function AfterTurns(p: Point, seg: Segment, k: nat): (q: Point)
    requires Idle(p.state) && Knows(p.state, seg)
    ensures Idle(q.state) && q.state.weights == p.state.weights
  {
    if k == 0 then p else AfterTurn(AfterTurns(p, seg, k - 1), seg)
  }

  ghost function AnswersOfTurns(p: Point, seg: Segment, k: nat): seq<Answer>
    requires Idle(p.state) && Knows(p.state, seg)
  {
    if k == 0 then []
    else AnswersOfTurns(p, seg, k - 1) + TurnAnswers(AfterTurns(p, seg, k - 1), seg)
  }

  ghost function TraceOfTurns(p: Point, seg: Segment, k: nat): seq<Record>
    requires Idle(p.state) && Knows(p.state, seg)
  {
    if k == 0 then []
    else TraceOfTurns(p, seg, k - 1) + [TurnRecord(AfterTurns(p, seg, k - 1), seg)]
  }

  /** One turn in plain terms: the plan answer names the selected candidate; without one the turn ends
      there, and with one the second answer is the ledgers after that candidate's model is charged its
      template's service over its weight. The clock moves by the segment's step. */
  lemma TurnRule(p: Point, seg: Segment)
    requires Idle(p.state) && Knows(p.state, seg)
    requires forall j, k :: 0 <= j < k < |seg.templates| ==> seg.templates[j].shape.id != seg.templates[k].shape.id
    ensures var (record, said) := (TurnRecord(p, seg), TurnAnswers(p, seg));
      && record.now == p.now && record.class_ == PlanAt(p, seg).class_
      && said != [] && record.expected == record.observed == said[0]
      && record.receipt == if |said| == 1 then None else Some((said[|said| - 1], said[|said| - 1]))
    ensures var (plan, said, q) := (PlanAt(p, seg), TurnAnswers(p, seg), AfterTurn(p, seg));
      && q.now == p.now + seg.clockStep
      && said[0].Answered? && said[0].runnableLedgers == plan.runnableLedgers
      && (plan.selected.None? ==> |said| == 1 && said[0].id == None)
      && (plan.selected.Some? ==>
            && |said| == 2 && said[0].id == Some(plan.selected.value.id) && said[1] == Charged(q.state.ledgers)
            && exists t :: t in seg.templates && IsChargedFor(plan, t, q.state))
  {
    hide Consistent, Planned, IsChargedFor, AfterSchedule, AfterReceipt, ActualOf;
    SelectedIsKnown(p.state, p.now, seg);
    if PlanAt(p, seg).selected.Some? {
      ChargedForOne(p, seg);
    }
  }

  lemma ChargedForOne(p: Point, seg: Segment)
    requires Idle(p.state) && Knows(p.state, seg) && PlanAt(p, seg).selected.Some?
    requires forall j, k :: 0 <= j < k < |seg.templates| ==> seg.templates[j].shape.id != seg.templates[k].shape.id
    ensures exists t :: t in seg.templates && IsChargedFor(PlanAt(p, seg), t, AfterTurn(p, seg).state)
  {
    hide Consistent, Planned, AfterSchedule, AfterReceipt, IsChargedFor, ActualOf;
    var cs := CandidatesAt(seg.templates, p.now);
    SelectedIsKnown(p.state, p.now, seg);
    PlannedIsOffered(p.state, p.now, cs);
    ShownIsHeld(p.state, p.now, cs);
    var plan := PlanAt(p, seg);
    var i :| 0 <= i < |cs| && cs[i] == plan.selected.value;
    ActualIsOwn(seg.templates, i);
    ChargedForTemplate(plan, AfterSchedule(p.state, p.now, cs), seg.templates[i]);
    assert seg.templates[i] in seg.templates && IsChargedFor(plan, seg.templates[i], AfterTurn(p, seg).state);
  }

  lemma ChargedForTemplate(plan: Plan, planned: State, t: Template)
    requires Consistent(planned) && planned.pending.Some? && planned.pending == plan.selected
    requires plan.selected.value.id == t.shape.id && plan.selected.value.model == t.shape.model
    requires t.shape.model in planned.weights && t.shape.model in planned.ledgers
    requires t.shape.model in plan.runnableLedgers
    requires plan.runnableLedgers[t.shape.model] == planned.ledgers[t.shape.model]
    ensures IsChargedFor(plan, t, AfterReceipt(planned, t.shape.model, t.actual))
  {
    SchedulingRules.ReceiptRule(planned, t.shape.model, t.actual);
    hide Consistent, AfterReceipt, Charge, SchedulingRules.LeastOf, SchedulingRules.Pays;
  }

  /** The plan took the template's candidate, and the weighted growth of its model's ledger is its service. */
  ghost predicate IsChargedFor(plan: Plan, t: Template, s: State) {
    && plan.selected.Some? && plan.selected.value.id == t.shape.id && plan.selected.value.model == t.shape.model
    && t.shape.model in plan.runnableLedgers && t.shape.model in s.ledgers && t.shape.model in s.weights
    && SchedulingRules.Pays(
         plan.runnableLedgers[t.shape.model], s.ledgers[t.shape.model], s.weights[t.shape.model], t.actual)
  }

  lemma ShownIsHeld(s: State, now: int, cs: seq<Candidate>)
    requires Consistent(s)
    ensures var (p, t) := (Planned(s, now, cs), AfterSchedule(s, now, cs));
      p.selected.Some? ==>
        && p.selected.value.model in t.ledgers && p.runnableLedgers.Keys == t.runnable
        && p.selected.value.model in t.runnable
        && p.runnableLedgers[p.selected.value.model] == t.ledgers[p.selected.value.model]
  {
    PlannedIsOffered(s, now, cs);
  }

  lemma {:induction false} ClockAfterTurns(p: Point, seg: Segment, k: nat)
    requires Idle(p.state) && Knows(p.state, seg)
    ensures AfterTurns(p, seg, k).now == p.now + k * seg.clockStep
    decreases k
  {
    hide Knows, Consistent, AfterSchedule, AfterReceipt, Planned;
    if k > 0 {
      ClockAfterTurns(p, seg, k - 1);
      KnowsStays(p.state, AfterTurns(p, seg, k - 1).state, seg);
      AfterTurnClock(AfterTurns(p, seg, k - 1), seg);
    }
  }

  ghost predicate KnowsAll(s: State, segs: seq<Segment>) {
    forall i :: 0 <= i < |segs| ==> Knows(s, segs[i])
  }

  ghost function AfterSegments(p: Point, segs: seq<Segment>, k: nat): (q: Point)
    requires Idle(p.state) && KnowsAll(p.state, segs) && k <= |segs|
    ensures Idle(q.state) && q.state.weights == p.state.weights
  {
    if k == 0 then p
    else AfterTurns(AfterSegments(p, segs, k - 1), segs[k - 1], segs[k - 1].turns)
  }

  ghost function AnswersOfSegments(p: Point, segs: seq<Segment>, k: nat): seq<Answer>
    requires Idle(p.state) && KnowsAll(p.state, segs) && k <= |segs|
  {
    if k == 0 then []
    else
      AnswersOfSegments(p, segs, k - 1)
      + AnswersOfTurns(AfterSegments(p, segs, k - 1), segs[k - 1], segs[k - 1].turns)
  }

  ghost function TraceOfSegments(p: Point, segs: seq<Segment>, k: nat): seq<Record>
    requires Idle(p.state) && KnowsAll(p.state, segs) && k <= |segs|
  {
    if k == 0 then []
    else
      TraceOfSegments(p, segs, k - 1)
      + TraceOfTurns(AfterSegments(p, segs, k - 1), segs[k - 1], segs[k - 1].turns)
  }

  ghost function Start(scenario: Scenario): (p: Point)
    requires WellFormed(scenario)
    ensures Idle(p.state) && KnowsAll(p.state, scenario.segments)
  {
    var p := Point(InitialState(scenario.models), scenario.clockStart);
    assert forall i :: 0 <= i < |scenario.segments| ==> scenario.segments[i] in scenario.segments;
    p
  }

  /** Everything a faithful subject says in one repetition. */
  ghost function Expected(scenario: Scenario): (r: seq<Answer>)
    requires WellFormed(scenario)
    ensures r != []
  {
    [Initialized(Start(scenario).state.ledgers)]
    + AnswersOfSegments(Start(scenario), scenario.segments, |scenario.segments|)
  }

  ghost function ExpectedTrace(scenario: Scenario): seq<Record>
    requires WellFormed(scenario)
  {
    TraceOfSegments(Start(scenario), scenario.segments, |scenario.segments|)
  }

  function TurnsIn(segs: seq<Segment>): nat {
    if segs == [] then 0 else TurnsIn(segs[..|segs| - 1]) + segs[|segs| - 1].turns
  }

  /** The expected trace has a record for every turn of every segment. */
  lemma TraceCountsTurns(scenario: Scenario)
    requires WellFormed(scenario)
    ensures |ExpectedTrace(scenario)| == TurnsIn(scenario.segments)
  {
    hide TraceOfSegments, WellFormed;
    TraceLengths(Start(scenario), scenario.segments, |scenario.segments|);
    assert scenario.segments[..|scenario.segments|] == scenario.segments;
  }

  lemma {:induction false} TraceLengths(p: Point, segs: seq<Segment>, k: nat)
    requires Idle(p.state) && KnowsAll(p.state, segs) && k <= |segs|
    ensures |TraceOfSegments(p, segs, k)| == TurnsIn(segs[..k])
    decreases k
  {
    hide AfterTurns, TraceOfTurns, Consistent, Knows;
    if k > 0 {
      TraceLengths(p, segs, k - 1);
      var q := AfterSegments(p, segs, k - 1);
      KnowsStays(p.state, q.state, segs[k - 1]);
      TraceLength(q, segs[k - 1], segs[k - 1].turns);
      assert segs[..k][..k - 1] == segs[..k - 1];
    }
  }

  lemma {:induction false} TraceLength(p: Point, seg: Segment, k: nat)
    requires Idle(p.state) && Knows(p.state, seg)
    ensures |TraceOfTurns(p, seg, k)| == k
    decreases k
  {
    hide AfterTurns, TurnRecord, Consistent, Knows;
    if k > 0 {
      TraceLength(p, seg, k - 1);
    }
  }

  // ---- the judge -----------------------------------------------------------------------------

  datatype Turn =
    | Agreed(record: Record, used: nat)
    | SelectionDiffers(record: Record)
    | ReceiptDiffers(record: Record)
    | Malformed

  /** A record of the expected turn in which the subject's plan, or only its receipt, is another. */
  predicate Deviates(r: Record, expected: Record, selection: bool) {
    && r.now == expected.now && r.class_ == expected.class_ && r.expected == expected.expected
    && if selection then r.observed != expected.observed && r.receipt == None
       else
         && r.observed == expected.observed && r.receipt.Some? && expected.receipt.Some?
         && r.receipt.value.0 == expected.receipt.value.0
         && r.receipt.value.1 != expected.receipt.value.1
  }

  /** The trace follows the expected one up to a last record that deviates from it. */
  predicate StopsAt(trace: seq<Record>, expected: seq<Record>, selection: bool) {
    && 0 < |trace| <= |expected|
    && trace[..|trace| - 1] == expected[..|trace| - 1]
    && Deviates(trace[|trace| - 1], expected[|trace| - 1], selection)
  }

  lemma StopsBeforeMore(trace: seq<Record>, expected: seq<Record>, more: seq<Record>, selection: bool)
    requires StopsAt(trace, expected, selection) && expected <= more
    ensures StopsAt(trace, more, selection)
  {
    hide Deviates;
  }

  lemma StopsAfter(before: seq<Record>, trace: seq<Record>, expected: seq<Record>, selection: bool)
    requires StopsAt(trace, expected, selection)
    ensures StopsAt(before + trace, before + expected, selection)
  {
    hide Deviates;
    var n := |before| + |trace| - 1;
    assert (before + trace)[..n] == before + trace[..|trace| - 1];
    assert (before + expected)[..n] == before + expected[..|trace| - 1];
  }

  /** An answer the judge can compare with the expected one: of its kind, over the same models. */
  predicate Comparable(expected: Answer, answer: Answer) {
    match (expected, answer)
    case (Initialized(l), Initialized(m)) => l.Keys == m.Keys
    case (Answered(_, l), Answered(_, m)) => l.Keys == m.Keys
    case (Charged(l), Charged(m)) => l.Keys == m.Keys
    case _ => false
  }

  /** The answers follow the expected ones for k answers and no further. */
  predicate PartsAt(expected: seq<Answer>, answers: seq<Answer>, k: int) {
    && 0 <= k < |expected| && k <= |answers| && answers[..k] == expected[..k]
    && (k == |answers| || answers[k] != expected[k])
  }

  /** The first answer that is not the expected one is missing or cannot be compared. */
  ghost predicate Garbled(expected: seq<Answer>, answers: seq<Answer>) {
    exists k :: PartsAt(expected, answers, k) && (k == |answers| || !Comparable(expected[k], answers[k]))
  }

  /** The first answer that is not the expected one is a plan (or else a receipt) that compares unequal. */
  ghost predicate Differs(expected: seq<Answer>, answers: seq<Answer>, selection: bool) {
    exists k :: PartsAt(expected, answers, k) && k < |answers| && Comparable(expected[k], answers[k])
      && expected[k].Answered? == selection
  }

  /** The three outcomes of comparing are disjoint. */
  lemma OneOutcome(expected: seq<Answer>, answers: seq<Answer>)
    ensures Garbled(expected, answers) ==>
      !(expected <= answers) && !Differs(expected, answers, true) && !Differs(expected, answers, false)
    ensures forall x :: Differs(expected, answers, x) ==> !(expected <= answers) && !Differs(expected, answers, !x)
  {
    forall j, k | PartsAt(expected, answers, j) && PartsAt(expected, answers, k) ensures j == k {
      PartsOnce(expected, answers, j, k);
      PartsOnce(expected, answers, k, j);
    }
    forall k | PartsAt(expected, answers, k) ensures !(expected <= answers) {
      if k < |answers| && expected <= answers {
        assert false;
      }
    }
  }

  lemma PartsOnce(expected: seq<Answer>, answers: seq<Answer>, j: int, k: int)
    requires PartsAt(expected, answers, j) && PartsAt(expected, answers, k)
    ensures j >= k
  {
    if j < k {
      assert false;
    }
  }

  /** Comparing later answers, after a beginning that is as expected and before more that is expected. */
  lemma ComparedLater(before: seq<Answer>, part: seq<Answer>, whole: seq<Answer>, answers: seq<Answer>)
    requires before <= answers && before + part <= whole
    ensures Garbled(part, answers[|before|..]) ==> Garbled(whole, answers)
    ensures forall x :: Differs(part, answers[|before|..], x) ==> Differs(whole, answers, x)
  {
    var rest, n := answers[|before|..], |before|;
    assert answers == before + rest;
    forall k | PartsAt(part, rest, k) ensures PartsAt(whole, answers, n + k) && whole[n + k] == part[k] {
      assert whole[..n + |part|] == before + part;
      assert whole[..n + |part|][n + k] == part[k] && whole[n + k] == part[k];
      assert whole[..n + k] == whole[..n + |part|][..n + k] == before + part[..k];
      assert answers[..n + k] == before + rest[..k];
    }
  }

  /** One turn: the oracle plans, the subject answers, and a receipt follows when both agree on a
      plan. It agrees exactly when the next answers are the expected ones; otherwise the record shows
      where they differ. */
  method JudgeTurn(oracle: SchedulerOracle, ghost p: Point, now: int, seg: Segment, answers: seq<Answer>)
    returns (turn: Turn)
    requires Idle(p.state) && Knows(p.state, seg) && p == Point(oracle.Value(), now)
    modifies oracle
    ensures turn.Agreed? <==> TurnAnswers(p, seg) <= answers
    ensures turn.Agreed? ==>
      && oracle.Value() == AfterTurn(p, seg).state
      && turn == Agreed(TurnRecord(p, seg), |TurnAnswers(p, seg)|)
    ensures turn.SelectionDiffers? ==>
      Deviates(turn.record, TurnRecord(p, seg), true) && Differs(TurnAnswers(p, seg), answers, true)
    ensures turn.ReceiptDiffers? ==>
      Deviates(turn.record, TurnRecord(p, seg), false) && Differs(TurnAnswers(p, seg), answers, false)
    ensures turn.Malformed? ==> Garbled(TurnAnswers(p, seg), answers)
  {
    hide Planned, AfterSchedule, AfterReceipt, Consistent, Knows, ActualOf;
    SelectedIsKnown(p.state, p.now, seg);
    var answered := oracle.Schedule(now, CandidatesAt(seg.templates, now));
    var plan := answered.value;
    var expected := Answered(ReplyTo(plan).id, plan.runnableLedgers);
    if answers == [] || !answers[0].Answered?
       || answers[0].runnableLedgers.Keys != plan.runnableLedgers.Keys {
      assert PartsAt(TurnAnswers(p, seg), answers, 0);
      return Malformed;
    }
    var observed := answers[0];
    if observed.id != expected.id || observed.runnableLedgers != expected.runnableLedgers {
      assert PartsAt(TurnAnswers(p, seg), answers, 0);
      return SelectionDiffers(Record(now, plan.class_, expected, observed, None));
    }
    if plan.selected.None? {
      var cleared := oracle.ClearNoPlan();
      assert cleared.Ok?;
      assert TurnAnswers(p, seg) == [expected] <= answers;
      return Agreed(Record(now, plan.class_, expected, observed, None), 1);
    }
    var c := plan.selected.value;
    assert ReceiptRefusal(oracle.Value(), c.id, c.model) == None;
    var accepted := oracle.AcceptReceipt(c.id, c.model, ActualOf(seg.templates, c.id));
    var charged := Charged(accepted.value);
    assert TurnAnswers(p, seg) == [expected, charged];
    assert answers[..1] == [expected];
    if |answers| == 1 || !answers[1].Charged? || answers[1].ledgers.Keys != charged.ledgers.Keys {
      assert PartsAt(TurnAnswers(p, seg), answers, 1);
      return Malformed;
    }
    if answers[1].ledgers != charged.ledgers {
      assert PartsAt(TurnAnswers(p, seg), answers, 1);
      return ReceiptDiffers(Record(now, plan.class_, expected, observed, Some((charged, answers[1]))));
    }
    assert answers[..2] == [expected, charged];
    return Agreed(Record(now, plan.class_, expected, observed, Some((charged, answers[1]))), 2);
  }

  datatype Verdict =
    | Judged(selectionMismatches: nat, receiptMismatches: nat, trace: seq<Record>)
    | ContractError
  {
    predicate Clean() {
      Judged? && selectionMismatches == 0 && receiptMismatches == 0
    }
  }

  lemma {:induction false} TurnsArePrefix(p: Point, seg: Segment, k: nat, n: nat)
    requires Idle(p.state) && Knows(p.state, seg) && k <= n
    ensures AnswersOfTurns(p, seg, k) <= AnswersOfTurns(p, seg, n)
    ensures TraceOfTurns(p, seg, k) <= TraceOfTurns(p, seg, n)
    decreases n
  {
    hide AfterTurns, AfterTurn, TurnAnswers, TurnRecord, Consistent, Knows;
    if k < n {
      TurnsArePrefix(p, seg, k, n - 1);
    }
  }

  lemma {:induction false} SegmentsArePrefix(p: Point, segs: seq<Segment>, k: nat, n: nat)
    requires Idle(p.state) && KnowsAll(p.state, segs) && k <= n <= |segs|
    ensures AnswersOfSegments(p, segs, k) <= AnswersOfSegments(p, segs, n)
    ensures TraceOfSegments(p, segs, k) <= TraceOfSegments(p, segs, n)
    decreases n
  {
    hide AfterSegments, AfterTurns, AnswersOfTurns, TraceOfTurns, Consistent, Knows;
    if k < n {
      SegmentsArePrefix(p, segs, k, n - 1);
    }
  }

  lemma PrefixParts<T>(a: seq<T>, b: seq<T>, all: seq<T>)
    ensures a + b <= all <==> a <= all && b <= all[|a|..]
  {
    if a + b <= all {
      assert (a + b)[..|a|] == a && all[..|a| + |b|] == a + b;
      assert all[|a|..][..|b|] == (a + b)[|a|..] == b;
    }
    if a <= all && b <= all[|a|..] {
      assert all == a + all[|a|..];
    }
  }

  datatype SegmentRun =
    | Done(used: nat, now: int, trace: seq<Record>)
    | Mismatched(selection: bool, trace: seq<Record>)
    | Broken

  method JudgeSegment(oracle: SchedulerOracle, ghost p: Point, start: int, seg: Segment,
                      answers: seq<Answer>)
    returns (run: SegmentRun)
    requires Idle(p.state) && Knows(p.state, seg) && p == Point(oracle.Value(), start)
    modifies oracle
    ensures run.Done? <==> AnswersOfTurns(p, seg, seg.turns) <= answers
    ensures run.Done? ==>
      && var q := AfterTurns(p, seg, seg.turns);
      && oracle.Value() == q.state
      && run == Done(|AnswersOfTurns(p, seg, seg.turns)|, q.now, TraceOfTurns(p, seg, seg.turns))
    ensures run.Mismatched? ==>
      && StopsAt(run.trace, TraceOfTurns(p, seg, seg.turns), run.selection)
      && Differs(AnswersOfTurns(p, seg, seg.turns), answers, run.selection)
    ensures run.Broken? ==> Garbled(AnswersOfTurns(p, seg, seg.turns), answers)
  {
    hide TurnAnswers, AfterTurn, TurnRecord, Consistent, Deviates, Differs, Garbled;
    var used, now, trace := 0, start, [];
    for j := 0 to seg.turns
      invariant used == |AnswersOfTurns(p, seg, j)| && AnswersOfTurns(p, seg, j) <= answers
      invariant Point(oracle.Value(), now) == AfterTurns(p, seg, j)
      invariant trace == TraceOfTurns(p, seg, j)
    {
      ghost var q := AfterTurns(p, seg, j);
      var turn := JudgeTurn(oracle, q, now, seg, answers[used..]);
      PrefixParts(AnswersOfTurns(p, seg, j), TurnAnswers(q, seg), answers);
      TurnsArePrefix(p, seg, j + 1, seg.turns);
      ComparedLater(AnswersOfTurns(p, seg, j), TurnAnswers(q, seg), AnswersOfTurns(p, seg, seg.turns), answers);
      match turn {
        case Malformed => return Broken;
        case SelectionDiffers(record) =>
          StopsBeforeMore(trace + [record], TraceOfTurns(p, seg, j + 1), TraceOfTurns(p, seg, seg.turns), true);
          return Mismatched(true, trace + [record]);
        case ReceiptDiffers(record) =>
          StopsBeforeMore(trace + [record], TraceOfTurns(p, seg, j + 1), TraceOfTurns(p, seg, seg.turns), false);
          return Mismatched(false, trace + [record]);
        case Agreed(record, k) =>
          used, now, trace := used + k, now + seg.clockStep, trace + [record];
      }
      AfterTurnClock(q, seg);
    }
    return Done(used, now, trace);
  }

  lemma AfterTurnClock(p: Point, seg: Segment)
    requires Idle(p.state) && Knows(p.state, seg)
    ensures AfterTurn(p, seg).now == p.now + seg.clockStep
  {
  }

  method JudgeSegments(oracle: SchedulerOracle, ghost p: Point, start: int, segs: seq<Segment>,
                       answers: seq<Answer>)
    returns (run: SegmentRun)
    requires Idle(p.state) && KnowsAll(p.state, segs) && p == Point(oracle.Value(), start)
    modifies oracle
    ensures run.Done? <==> AnswersOfSegments(p, segs, |segs|) <= answers
    ensures run.Done? ==> run.trace == TraceOfSegments(p, segs, |segs|)
    ensures run.Mismatched? ==>
      && StopsAt(run.trace, TraceOfSegments(p, segs, |segs|), run.selection)
      && Differs(AnswersOfSegments(p, segs, |segs|), answers, run.selection)
    ensures run.Broken? ==> Garbled(AnswersOfSegments(p, segs, |segs|), answers)
  {
    hide AnswersOfTurns, TraceOfTurns, AfterTurns, Consistent, StopsAt, Differs, Garbled;
    var used, now, trace := 0, start, [];
    for i := 0 to |segs|
      invariant used == |AnswersOfSegments(p, segs, i)| && AnswersOfSegments(p, segs, i) <= answers
      invariant Point(oracle.Value(), now) == AfterSegments(p, segs, i)
      invariant trace == TraceOfSegments(p, segs, i)
    {
      ghost var q := AfterSegments(p, segs, i);
      var part := JudgeSegment(oracle, q, now, segs[i], answers[used..]);
      PrefixParts(AnswersOfSegments(p, segs, i), AnswersOfTurns(q, segs[i], segs[i].turns), answers);
      SegmentsArePrefix(p, segs, i + 1, |segs|);
      ComparedLater(AnswersOfSegments(p, segs, i), AnswersOfTurns(q, segs[i], segs[i].turns),
        AnswersOfSegments(p, segs, |segs|), answers);
      match part {
        case Broken => return Broken;
        case Mismatched(selection, partial) =>
          StopsAfter(trace, partial, TraceOfTurns(q, segs[i], segs[i].turns), selection);
          StopsBeforeMore(trace + partial, TraceOfSegments(p, segs, i + 1), TraceOfSegments(p, segs, |segs|),
            selection);
          return Mismatched(selection, trace + partial);
        case Done(k, later, more) => used, now, trace := used + k, later, trace + more;
      }
    }
    return Done(used, now, trace);
  }

  /** A repetition that cannot be judged: its first answer cannot be compared, or the first later one
      that is not as expected cannot. */
  ghost predicate Unjudgeable(expected: seq<Answer>, answers: seq<Answer>)
    requires expected != []
  {
    answers == [] || !Comparable(expected[0], answers[0]) || Garbled(expected[1..], answers[1..])
  }

  /** One for a first deviation in a plan. */
  ghost function WrongPlans(expected: seq<Answer>, answers: seq<Answer>): nat
    requires expected != []
  {
    if answers != [] && Differs(expected[1..], answers[1..], true) then 1 else 0
  }

  /** One for wrong initial ledgers, which do not end the repetition, and one for a first deviation in a
      receipt, which does. */
  ghost function WrongReceipts(expected: seq<Answer>, answers: seq<Answer>): nat
    requires expected != []
  {
    if answers == [] then 0
    else
      (if answers[0] == expected[0] then 0 else 1) + if Differs(expected[1..], answers[1..], false) then 1 else 0
  }

  /** The trace of a judged repetition: the expected one up to the first deviation, if there is one. */
  ghost predicate Traces(scenario: Scenario, answers: seq<Answer>, trace: seq<Record>)
    requires WellFormed(scenario)
  {
    var (expected, whole) := (Expected(scenario)[1..], ExpectedTrace(scenario));
    if answers == [] then false
    else if Differs(expected, answers[1..], true) then StopsAt(trace, whole, true)
    else if Differs(expected, answers[1..], false) then StopsAt(trace, whole, false)
    else trace == whole
  }

  /** The judge's repetition loop, for any subject at all. It reports no mismatch exactly when the
      subject gives the expected answers, and its trace is then the expected trace. A mismatching
      repetition's trace ends with the record of its first deviation. */
  method JudgeRepetition(scenario: Scenario, answers: seq<Answer>) returns (verdict: Verdict)
    requires WellFormed(scenario)
    ensures verdict.Clean() <==> Expected(scenario) <= answers
    ensures verdict.Clean() ==> verdict.trace == ExpectedTrace(scenario)
    ensures verdict.ContractError? <==> Unjudgeable(Expected(scenario), answers)
    ensures verdict.Judged? ==>
      && verdict.selectionMismatches == WrongPlans(Expected(scenario), answers)
      && verdict.receiptMismatches == WrongReceipts(Expected(scenario), answers)
      && Traces(scenario, answers, verdict.trace)
    ensures verdict.Judged? ==>
      if verdict.selectionMismatches > 0 then
        verdict.selectionMismatches == 1 && StopsAt(verdict.trace, ExpectedTrace(scenario), true)
      else verdict.trace == ExpectedTrace(scenario) || StopsAt(verdict.trace, ExpectedTrace(scenario), false)
  {
    hide AnswersOfSegments, TraceOfSegments, StopsAt, Garbled, Differs;
    ghost var start := Start(scenario);
    ghost var init := [Initialized(start.state.ledgers)];
    var oracle := new SchedulerOracle(scenario.models);
    var zero := oracle.ledgers;
    ghost var all := AnswersOfSegments(start, scenario.segments, |scenario.segments|);
    PrefixParts(init, all, answers);
    assert Expected(scenario)[1..] == all;
    if answers == [] || !answers[0].Initialized? || answers[0].ledgers.Keys != zero.Keys {
      return ContractError;
    }
    var late := if answers[0].ledgers == zero then 0 else 1;
    assert late == 0 <==> init <= answers;
    var run := JudgeSegments(oracle, start, scenario.clockStart, scenario.segments, answers[1..]);
    OneOutcome(all, answers[1..]);
    match run
    case Broken => return ContractError;
    case Mismatched(true, trace) => return Judged(1, late, trace);
    case Mismatched(false, trace) => return Judged(0, late + 1, trace);
    case Done(_, _, trace) => return Judged(0, late, trace);
  }

  // ---- the reference driver as the subject ---------------------------------------------------

  method DriveTurn(driver: ReferenceScheduler, ghost p: Point, now: int, seg: Segment)
    returns (answers: seq<Answer>)
    requires Idle(p.state) && Knows(p.state, seg) && p == Point(driver.Value(), now)
    modifies driver
    ensures answers == TurnAnswers(p, seg)
    ensures driver.Value() == AfterTurn(p, seg).state
  {
    hide Planned, AfterReceipt, Consistent, Knows, ActualOf;
    SelectedIsKnown(p.state, now, seg);
    var planned := driver.HandleSchedule(now, CandidatesAt(seg.templates, now));
    answers := [Answered(planned.value.id, planned.value.runnableLedgers)];
    if driver.pending.Some? {
      var c := driver.pending.value;
      assert ReceiptRefusal(driver.Value(), c.id, c.model) == None;
      var charged := driver.HandleReceipt(c.id, c.model, ActualOf(seg.templates, c.id));
      assert driver.Value().ledgers == driver.ledgers;
      answers := answers + [Charged(charged.value.ledgers)];
    }
  }

  method DriveSegment(driver: ReferenceScheduler, ghost p: Point, start: int, seg: Segment)
    returns (answers: seq<Answer>, end: int)
    requires Idle(p.state) && Knows(p.state, seg) && p == Point(driver.Value(), start)
    modifies driver
    ensures answers == AnswersOfTurns(p, seg, seg.turns)
    ensures Point(driver.Value(), end) == AfterTurns(p, seg, seg.turns)
  {
    hide TurnAnswers, AfterTurn, Consistent;
    answers, end := [], start;
    for j := 0 to seg.turns
      invariant answers == AnswersOfTurns(p, seg, j)
      invariant Point(driver.Value(), end) == AfterTurns(p, seg, j)
    {
      ghost var q := AfterTurns(p, seg, j);
      AfterTurnClock(q, seg);
      var more := DriveTurn(driver, q, end, seg);
      answers, end := answers + more, end + seg.clockStep;
    }
  }

  method DriveSegments(driver: ReferenceScheduler, ghost p: Point, start: int, segs: seq<Segment>)
    returns (answers: seq<Answer>)
    requires Idle(p.state) && KnowsAll(p.state, segs) && p == Point(driver.Value(), start)
    modifies driver
    ensures answers == AnswersOfSegments(p, segs, |segs|)
  {
    hide AnswersOfTurns, AfterTurns, Consistent;
    var now := start;
    answers := [];
    for i := 0 to |segs|
      invariant answers == AnswersOfSegments(p, segs, i)
      invariant Point(driver.Value(), now) == AfterSegments(p, segs, i)
    {
      var more, end := DriveSegment(driver, AfterSegments(p, segs, i), now, segs[i]);
      answers, now := answers + more, end;
    }
  }

  method DriveReference(scenario: Scenario) returns (answers: seq<Answer>)
    requires WellFormed(scenario)
    ensures answers == Expected(scenario)
  {
    hide AnswersOfSegments, AfterSegments, Consistent, KnowsAll;
    var driver := new ReferenceScheduler(scenario.models);
    var opening := [Initialized(driver.ledgers)];
    var body := DriveSegments(driver, Start(scenario), scenario.clockStart, scenario.segments);
    return opening + body;
  }

  datatype LaneMetrics = LaneMetrics(selection: nat, receipt: nat, replay: nat)

  ghost function WrongPlansInAll(expected: seq<Answer>, scripts: seq<seq<Answer>>): nat
    requires expected != []
  {
    if scripts == [] then 0
    else WrongPlansInAll(expected, scripts[..|scripts| - 1]) + WrongPlans(expected, scripts[|scripts| - 1])
  }

  ghost function WrongReceiptsInAll(expected: seq<Answer>, scripts: seq<seq<Answer>>): nat
    requires expected != []
  {
    if scripts == [] then 0
    else WrongReceiptsInAll(expected, scripts[..|scripts| - 1]) + WrongReceipts(expected, scripts[|scripts| - 1])
  }

  /** How many traces have another digest than the first. */
  function Unlike(traces: seq<seq<Record>>, digest: seq<Record> -> Str): nat {
    if |traces| <= 1 then 0
    else
      Unlike(traces[..|traces| - 1], digest)
      + if digest(traces[|traces| - 1]) == digest(traces[0]) then 0 else 1
  }

  lemma NoScripts(expected: seq<Answer>, scripts: seq<seq<Answer>>, digest: seq<Record> -> Str)
    requires expected != []
    ensures WrongPlansInAll(expected, scripts[..0]) == 0 == WrongReceiptsInAll(expected, scripts[..0])
    ensures Unlike([], digest) == 0
  {
  }

  lemma OneMoreScript(expected: seq<Answer>, scripts: seq<seq<Answer>>, i: nat)
    requires expected != [] && i < |scripts|
    ensures WrongPlansInAll(expected, scripts[..i + 1])
         == WrongPlansInAll(expected, scripts[..i]) + WrongPlans(expected, scripts[i])
    ensures WrongReceiptsInAll(expected, scripts[..i + 1])
         == WrongReceiptsInAll(expected, scripts[..i]) + WrongReceipts(expected, scripts[i])
  {
    assert scripts[..i + 1][..i] == scripts[..i];
  }

  lemma UnlikeNext(traces: seq<seq<Record>>, trace: seq<Record>, digest: seq<Record> -> Str)
    ensures Unlike(traces + [trace], digest)
         == Unlike(traces, digest) + if traces == [] || digest(trace) == digest(traces[0]) then 0 else 1
  {
    assert (traces + [trace])[..|traces|] == traces;
  }

  /** The lane metrics over all repetitions of a scenario, for any subject. They are all zero exactly
      when every repetition gave the expected answers; the digest of a trace stays uninterpreted. */
  method JudgeScenario(scenario: Scenario, scripts: seq<seq<Answer>>, digest: seq<Record> -> Str)
    returns (metrics: Option<LaneMetrics>, ghost traces: seq<seq<Record>>)
    requires WellFormed(scenario) && |scripts| == scenario.repetitions
    ensures metrics == Some(LaneMetrics(0, 0, 0)) <==>
      forall i :: 0 <= i < |scripts| ==> Expected(scenario) <= scripts[i]
    ensures metrics.None? <==> exists i :: 0 <= i < |scripts| && Unjudgeable(Expected(scenario), scripts[i])
    ensures metrics.Some? ==>
      && metrics.value.selection == WrongPlansInAll(Expected(scenario), scripts)
      && metrics.value.receipt == WrongReceiptsInAll(Expected(scenario), scripts)
      && |traces| == |scripts| && (forall i :: 0 <= i < |scripts| ==> Traces(scenario, scripts[i], traces[i]))
      && metrics.value.replay == Unlike(traces, digest)
  {
    hide Expected, ExpectedTrace, WellFormed, Unjudgeable, WrongPlans, WrongReceipts, Traces, Unlike, StopsAt,
      WrongPlansInAll, WrongReceiptsInAll;
    ghost var expected := Expected(scenario);
    var selection: nat, receipt: nat, replay: nat, first := 0, 0, 0, None;
    traces := [];
    NoScripts(expected, scripts, digest);
    for i := 0 to |scripts|
      invariant selection == 0 && receipt == 0 <==>
        forall j :: 0 <= j < i ==> Expected(scenario) <= scripts[j]
      invariant |traces| == i && forall j :: 0 <= j < i ==> Traces(scenario, scripts[j], traces[j])
      invariant first == if i == 0 then None else Some(digest(traces[0]))
      invariant replay == Unlike(traces, digest)
      invariant forall j :: 0 <= j < i ==> !Unjudgeable(expected, scripts[j])
      invariant selection == WrongPlansInAll(expected, scripts[..i])
      invariant receipt == WrongReceiptsInAll(expected, scripts[..i])
      invariant selection == 0 && receipt == 0 ==>
        replay == 0 && (first.Some? ==> first.value == digest(ExpectedTrace(scenario)))
    {
      var verdict := JudgeRepetition(scenario, scripts[i]);
      if verdict.ContractError? {
        return None, traces;
      }
      OneMoreScript(expected, scripts, i);
      selection := selection + verdict.selectionMismatches;
      receipt := receipt + verdict.receiptMismatches;
      UnlikeNext(traces, verdict.trace, digest);
      traces := traces + [verdict.trace];
      if first.None? {
        first := Some(digest(verdict.trace));
      } else if digest(verdict.trace) != first.value {
        replay := replay + 1;
      }
    }
    assert scripts[..|scripts|] == scripts;
    return Some(LaneMetrics(selection, receipt, replay)), traces;
  }

  /** Driven by the reference scheduler, the judge finds nothing on any well-formed scenario. */
  method ReferencePassesLane(scenario: Scenario, digest: seq<Record> -> Str)
    returns (metrics: Option<LaneMetrics>)
    requires WellFormed(scenario)
    ensures metrics == Some(LaneMetrics(0, 0, 0))
  {
    var scripts: seq<seq<Answer>> := [];
    for i := 0 to scenario.repetitions
      invariant |scripts| == i && forall j :: 0 <= j < i ==> scripts[j] == Expected(scenario)
    {
      var answers := DriveReference(scenario);
      scripts := scripts + [answers];
    }
    ghost var traces;
    metrics, traces := JudgeScenario(scenario, scripts, digest);
  }

  // ---- the judged run is a fairness run ------------------------------------------------------

  ghost function TurnAt(p: Point, seg: Segment): Fairness.Turn
    requires Idle(p.state)
  {
    Fairness.Turn(p.now, CandidatesAt(seg.templates, p.now),
      match PlanAt(p, seg).selected case None => 0 case Some(c) => ActualOf(seg.templates, c.id))
  }

  ghost function TurnsOfSegment(p: Point, seg: Segment, k: nat): (turns: seq<Fairness.Turn>)
    requires Idle(p.state) && Knows(p.state, seg)
  {
    if k == 0 then [] else TurnsOfSegment(p, seg, k - 1) + [TurnAt(AfterTurns(p, seg, k - 1), seg)]
  }

  ghost function TurnsOfSegments(p: Point, segs: seq<Segment>, k: nat): seq<Fairness.Turn>
    requires Idle(p.state) && KnowsAll(p.state, segs) && k <= |segs|
  {
    if k == 0 then []
    else
      TurnsOfSegments(p, segs, k - 1)
      + TurnsOfSegment(AfterSegments(p, segs, k - 1), segs[k - 1], segs[k - 1].turns)
  }

  predicate Charges(seg: Segment) {
    forall t <- seg.templates :: t.actual >= 0
  }

  lemma {:induction false} ActualIsCharged(templates: seq<Template>, id: Str)
    requires forall t <- templates :: t.actual >= 0
    ensures ActualOf(templates, id) >= 0
  {
    if templates != [] {
      ActualIsCharged(templates[..|templates| - 1], id);
    }
  }

  lemma TurnIsPlayed(p: Point, seg: Segment)
    requires Idle(p.state) && Knows(p.state, seg) && Charges(seg)
    ensures Fairness.Playable(p.state, TurnAt(p, seg))
    ensures Fairness.Play(p.state, TurnAt(p, seg)) == AfterTurn(p, seg).state
  {
    hide Planned, AfterReceipt, Consistent;
    var t := TurnAt(p, seg);
    OfferedIsKnown(p.state, seg, p.now);
    if PlanAt(p, seg).selected.Some? {
      ActualIsCharged(seg.templates, PlanAt(p, seg).selected.value.id);
    }
    SelectedIsKnown(p.state, p.now, seg);
  }

  lemma OfferedIsKnown(s: State, seg: Segment, now: int)
    requires Knows(s, seg)
    ensures Models(Eligibles(CandidatesAt(seg.templates, now))) <= s.weights.Keys
  {
    var cs := CandidatesAt(seg.templates, now);
    EligiblesMembers(cs);
    forall m | m in Models(Eligibles(cs)) ensures m in s.weights {
      var i :| 0 <= i < |Eligibles(cs)| && Eligibles(cs)[i].model == m;
      assert Eligibles(cs)[i] in Eligibles(cs);
      var j :| 0 <= j < |cs| && cs[j] == Eligibles(cs)[i];
      assert seg.templates[j] in seg.templates;
    }
  }

  lemma {:induction false} SegmentIsPlayed(p: Point, seg: Segment, k: nat)
    requires Idle(p.state) && Knows(p.state, seg) && Charges(seg)
    ensures Fairness.PlayableRun(p.state, TurnsOfSegment(p, seg, k))
    ensures Fairness.PlayAll(p.state, TurnsOfSegment(p, seg, k)) == AfterTurns(p, seg, k).state
    decreases k
  {
    hide AfterTurn, TurnAt, Knows, Consistent, Charges, Fairness.Play, Fairness.Playable;
    if k > 0 {
      var q := AfterTurns(p, seg, k - 1);
      SegmentIsPlayed(p, seg, k - 1);
      KnowsStays(p.state, q.state, seg);
      TurnIsPlayed(q, seg);
      OneTurnRun(q.state, TurnAt(q, seg));
      Fairness.PlayAllAppend(p.state, TurnsOfSegment(p, seg, k - 1), [TurnAt(q, seg)]);
    }
  }

  lemma KnowsStays(s: State, t: State, seg: Segment)
    requires Knows(s, seg) && s.weights == t.weights
    ensures Knows(t, seg)
  {
  }

  lemma OneTurnRun(s: State, t: Fairness.Turn)
    requires Fairness.Playable(s, t)
    ensures Fairness.PlayableRun(s, [t]) && Fairness.PlayAll(s, [t]) == Fairness.Play(s, t)
  {
    hide Fairness.Play, Fairness.Playable;
    assert [t][1..] == [];
  }

  lemma {:induction false} SegmentsArePlayed(p: Point, segs: seq<Segment>, k: nat)
    requires Idle(p.state) && KnowsAll(p.state, segs) && k <= |segs|
    requires forall seg <- segs :: Charges(seg)
    ensures Fairness.PlayableRun(p.state, TurnsOfSegments(p, segs, k))
    ensures Fairness.PlayAll(p.state, TurnsOfSegments(p, segs, k)) == AfterSegments(p, segs, k).state
    decreases k
  {
    hide AfterTurns, TurnsOfSegment, Knows, Consistent, Charges, Fairness.PlayAll, Fairness.PlayableRun;
    if k > 0 {
      var q, seg := AfterSegments(p, segs, k - 1), segs[k - 1];
      SegmentsArePlayed(p, segs, k - 1);
      assert seg in segs;
      KnowsStays(p.state, q.state, seg);
      SegmentIsPlayed(q, seg, seg.turns);
      Fairness.PlayAllAppend(p.state, TurnsOfSegments(p, segs, k - 1), TurnsOfSegment(q, seg, seg.turns));
    } else {
      NoTurns(p.state);
    }
  }

  lemma NoTurns(s: State)
    ensures Fairness.PlayableRun(s, []) && Fairness.PlayAll(s, []) == s
  {
  }

  /** A faithful repetition of a well-formed scenario is a run of the kind fairness speaks of, so its
      ledgers stay within the largest normal charge plus the urgent charges of the baseline. */
  lemma JudgedLedgersAreFair(scenario: Scenario, cap: real)
    requires WellFormed(scenario) && cap >= 0.0
    ensures var (start, segs) := (Start(scenario), scenario.segments);
      var turns := TurnsOfSegments(start, segs, |segs|);
      && Fairness.PlayableRun(InitialState(scenario.models), turns)
      && (Fairness.NormalsWithin(InitialState(scenario.models), turns, cap) ==>
            var end := AfterSegments(start, segs, |segs|).state;
            forall m <- end.runnable :: m in end.ledgers &&
              end.ledgers[m] <= end.baseline + cap + Fairness.UrgentCharges(InitialState(scenario.models), turns))
  {
    hide AfterSegments, TurnsOfSegments, Knows, Fairness.PlayAll, Fairness.PlayableRun, Fairness.NormalsWithin,
      Fairness.UrgentCharges;
    var start, segs := Start(scenario), scenario.segments;
    SegmentsArePlayed(start, segs, |segs|);
    var turns := TurnsOfSegments(start, segs, |segs|);
    if Fairness.NormalsWithin(InitialState(scenario.models), turns, cap) {
      Fairness.FairFromStart(scenario.models, turns, cap);
    }
  }
}
