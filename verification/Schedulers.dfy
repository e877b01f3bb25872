/** The judge's scheduler. */
module Oracle {
  import opened Text
  import opened Outcomes
  import opened Scheduling

  class SchedulerOracle {
    var weights: map<Str, Weight>
    var ledgers: Ledgers
    var runnable: set<Str>
    var baseline: real
    var pending: Option<Candidate>

    ghost function Value(): State
      reads this
    {
      State(weights, ledgers, runnable, baseline, pending)
    }

    constructor (models: seq<ModelConfig>)
      ensures Value() == InitialState(models) && Consistent(Value())
    {
      weights := WeightsOf(models);
      ledgers := map m | m in WeightsOf(models) :: 0.0;
      runnable, baseline, pending := {}, 0.0, None;
    }

    method SyncRunnable(candidates: seq<Candidate>) returns (shown: Ledgers)
      requires Consistent(Value())
      modifies this`ledgers, this`runnable, this`baseline
      ensures Value() == Synced(old(Value()), Models(Eligibles(candidates)))
      ensures shown == map m | m in runnable :: ledgers[m]
    {
      hide Synced, Least, IsLeast, Eligibles, Models;
      ghost var before := Value();
      var current := set i | 0 <= i < |candidates| && candidates[i].Eligible() :: candidates[i].model;
      CurrentModels(candidates);
      var continuing := current * runnable;
      var alignment := baseline;
      if continuing != {} {
        alignment := MinLedger(ledgers, continuing);
      }
      ledgers := ledgers + map m | m in current - runnable :: alignment;
      EnteringCoverCurrent(before, current, ledgers, alignment);
      runnable := current;
      if current != {} {
        baseline := MinLedger(ledgers, current);
      }
      SyncedFields(before, current, alignment, ledgers, baseline);
      shown := map m | m in current :: ledgers[m];
    }

    method Schedule(now: int, candidates: seq<Candidate>) returns (r: Result<Plan, Refusal>)
      requires Consistent(Value())
      modifies this
      ensures Consistent(Value())
      ensures old(pending).Some? ==> r == Err(PlanPending) && Value() == old(Value())
      ensures old(pending).None? ==>
        r == Ok(Planned(old(Value()), now, candidates))
        && Value() == AfterSchedule(old(Value()), now, candidates)
    {
      if pending.Some? {
        return Err(PlanPending);
      }
      ScheduleKeepsConsistent(Value(), now, candidates);
      var shown := SyncRunnable(candidates);
      var eligible := Eligibles(candidates);
      var urgent := Urgents(candidates, now);
      UrgentModelsAreEligible(candidates, now);
      if urgent != [] {
        var selected := MinCandidate(Urgent, ledgers, urgent);
        pending := Some(selected);
        r := Ok(Plan(pending, Urgent, shown));
      } else if eligible != [] {
        var selected := MinCandidate(Normal, ledgers, eligible);
        pending := Some(selected);
        r := Ok(Plan(pending, Normal, shown));
      } else {
        r := Ok(Plan(None, NoPlan, shown));
      }
    }

    method AcceptReceipt(id: Str, model: Str, actual: int) returns (r: Result<Ledgers, Refusal>)
      requires Consistent(Value())
      modifies this
      ensures Consistent(Value())
      ensures match ReceiptRefusal(old(Value()), id, model)
        case Some(refusal) => r == Err(refusal) && Value() == old(Value())
        case None => Value() == AfterReceipt(old(Value()), model, actual) && r == Ok(ledgers)
    {
      if pending.None? {
        return Err(NothingPending);
      }
      if pending.value.id != id || pending.value.model != model {
        return Err(WrongReceipt);
      }
      if model !in weights {
        return Err(UnknownModel);
      }
      ledgers := ledgers[model := ledgers[model] + actual as real / weights[model] as real];
      pending := None;
      if runnable != {} {
        baseline := MinLedger(ledgers, runnable);
      }
      return Ok(ledgers);
    }

    method ClearNoPlan() returns (r: Result<(), Refusal>)
      ensures r == if pending.Some? then Err(PlanPending) else Ok(())
    {
      if pending.Some? {
        return Err(PlanPending);
      }
      return Ok(());
    }
  }

  lemma CurrentModels(cs: seq<Candidate>)
    ensures Models(Eligibles(cs)) == set i | 0 <= i < |cs| && cs[i].Eligible() :: cs[i].model
  {
    EligiblesMembers(cs);
    var current := set i | 0 <= i < |cs| && cs[i].Eligible() :: cs[i].model;
    forall m ensures m in Models(Eligibles(cs)) <==> m in current {
      assert m in Models(Eligibles(cs)) <==> exists c :: c in Eligibles(cs) && c.model == m;
      assert m in current <==> exists c :: c in cs && c.Eligible() && c.model == m;
    }
  }
}

/** The reference driver: a second scheduler, written from the messages up. */
module Reference {
  import opened Text
  import opened Outcomes
  import opened Scheduling

  datatype Message =
    | Schedule(now: int, candidates: seq<Candidate>)
    | Receipt(id: Str, model: Str, actual: int)

  datatype Reply =
    | PlanReply(id: Option<Str>, runnableLedgers: Ledgers)
    | LedgerReply(ledgers: Ledgers)

  class ReferenceScheduler {
    var weights: map<Str, Weight>
    var ledgers: Ledgers
    var runnable: set<Str>
    var baseline: real
    var pending: Option<Candidate>

    ghost function Value(): State
      reads this
    {
      State(weights, ledgers, runnable, baseline, pending)
    }

    constructor (models: seq<ModelConfig>)
      ensures Value() == InitialState(models) && Consistent(Value())
    {
      weights := WeightsOf(models);
      ledgers := map m | m in WeightsOf(models) :: 0.0;
      runnable, baseline, pending := {}, 0.0, None;
    }

    /** The part of a schedule message that moves ledgers. */
    method Align(current: set<Str>)
      requires Consistent(Value())
      modifies this`ledgers, this`runnable, this`baseline
      ensures Value() == Synced(old(Value()), current)
    {
      hide Synced, Least, IsLeast;
      ghost var before := Value();
      var continuing := current * runnable;
      var alignment := baseline;
      if continuing != {} {
        alignment := MinLedger(ledgers, continuing);
      }
      ledgers := ledgers + map m | m in current - runnable :: alignment;
      EnteringCoverCurrent(before, current, ledgers, alignment);
      runnable := current;
      if current != {} {
        baseline := MinLedger(ledgers, current);
      }
      SyncedFields(before, current, alignment, ledgers, baseline);
    }

    method HandleSchedule(now: int, candidates: seq<Candidate>) returns (r: Result<Reply, Refusal>)
      requires Consistent(Value())
      modifies this
      ensures Consistent(Value())
      ensures old(pending).Some? ==> r == Err(PlanPending) && Value() == old(Value())
      ensures old(pending).None? ==>
        r == Ok(ReplyTo(Planned(old(Value()), now, candidates)))
        && Value() == AfterSchedule(old(Value()), now, candidates)
    {
      if pending.Some? {
        return Err(PlanPending);
      }
      ScheduleKeepsConsistent(Value(), now, candidates);
      UrgentModelsAreEligible(candidates, now);
      var eligible := Eligibles(candidates);
      var current := set i | 0 <= i < |eligible| :: eligible[i].model;
      Align(current);
      var urgent := DueCandidates(candidates, eligible, now);
      pending := None;
      if urgent != [] {
        var selected := MinCandidate(Urgent, ledgers, urgent);
        pending := Some(selected);
      } else if eligible != [] {
        var selected := MinCandidate(Normal, ledgers, eligible);
        pending := Some(selected);
      }
      var id := match pending case Some(c) => Some(c.id) case None => None;
      r := Ok(PlanReply(id, map m | m in current :: ledgers[m]));
    }

    method HandleReceipt(id: Str, model: Str, actual: int) returns (r: Result<Reply, Refusal>)
      requires Consistent(Value())
      modifies this
      ensures Consistent(Value())
      ensures match ReceiptRefusal(old(Value()), id, model)
        case Some(refusal) => r == Err(refusal) && Value() == old(Value())
        case None =>
          Value() == AfterReceipt(old(Value()), model, actual) && r == Ok(LedgerReply(ledgers))
    {
      if pending.None? {
        return Err(NothingPending);
      }
      if id != pending.value.id || model != pending.value.model {
        return Err(WrongReceipt);
      }
      if model !in weights {
        return Err(UnknownModel);
      }
      ledgers := ledgers[model := ledgers[model] + actual as real / weights[model] as real];
      pending := None;
      if runnable != {} {
        baseline := MinLedger(ledgers, runnable);
      }
      return Ok(LedgerReply(ledgers));
    }
  }

  /** The reply a message gets in a state, and the state it leaves. */
  ghost function ReplyIn(s: State, message: Message): Result<Reply, Refusal>
    requires Consistent(s)
  {
    match message
    case Schedule(now, candidates) =>
      if s.pending.Some? then Err(PlanPending) else Ok(ReplyTo(Planned(s, now, candidates)))
    case Receipt(id, model, actual) =>
      match ReceiptRefusal(s, id, model)
      case Some(refusal) => Err(refusal)
      case None => Ok(LedgerReply(AfterReceipt(s, model, actual).ledgers))
  }

  ghost function Next(s: State, message: Message): (t: State)
    requires Consistent(s)
    ensures Consistent(t)
  {
    match message
    case Schedule(now, candidates) =>
      ScheduleKeepsConsistent(s, now, candidates);
      if s.pending.Some? then s else AfterSchedule(s, now, candidates)
    case Receipt(id, model, actual) =>
      if ReceiptRefusal(s, id, model).Some? then s else AfterReceipt(s, model, actual)
  }

  ghost function StateAfter(s: State, messages: seq<Message>): (t: State)
    requires Consistent(s)
    ensures Consistent(t)
  {
    if messages == [] then s
    else Next(StateAfter(s, messages[..|messages| - 1]), messages[|messages| - 1])
  }

  ghost function Replies(s: State, messages: seq<Message>): seq<Result<Reply, Refusal>>
    requires Consistent(s)
  {
    if messages == [] then []
    else
      var before := messages[..|messages| - 1];
      Replies(s, before) + [ReplyIn(StateAfter(s, before), messages[|messages| - 1])]
  }

  function ReplyTo(plan: Plan): Reply {
    PlanReply(match plan.selected case Some(c) => Some(c.id) case None => None, plan.runnableLedgers)
  }

  /** The eligible candidates whose obligation leaves no slack at now, in list order. */
  method DueCandidates(ghost candidates: seq<Candidate>, eligible: seq<Candidate>, now: int)
    returns (urgent: seq<Candidate>)
    requires eligible == Eligibles(candidates)
    ensures urgent == Urgents(candidates, now)
  {
    urgent := [];
    assert eligible[..0] == [];
    for i := 0 to |eligible|
      invariant urgent == Urgents(eligible[..i], now)
    {
      assert eligible[..i + 1][..i] == eligible[..i];
      EligiblesMembers(candidates);
      assert eligible[i] in Eligibles(candidates);
      var candidate := eligible[i];
      match candidate.obligation
      case None =>
      case Some(due) =>
        var latest := due - candidate.serviceBound - candidate.overheadBound;
        if now >= latest {
          urgent := urgent + [candidate];
        }
    }
    assert eligible[..|eligible|] == eligible;
    UrgentsOfEligibles(candidates, now);
  }

  lemma {:induction false} UrgentsOfEligibles(cs: seq<Candidate>, now: int)
    ensures Urgents(Eligibles(cs), now) == Urgents(cs, now)
  {
    if cs != [] {
      var n := |cs| - 1;
      UrgentsOfEligibles(cs[..n], now);
      if cs[n].Eligible() {
        assert Eligibles(cs)[..|Eligibles(cs)| - 1] == Eligibles(cs[..n]);
      }
    }
  }
}

/** The two schedulers side by side. */
module Bisimulation {
  import opened Outcomes
  import opened Scheduling
  import Fairness
  import opened Oracle
  import opened Reference

  /** What the oracle answers, put the way the driver would put it. */
  method AskOracle(oracle: SchedulerOracle, message: Message) returns (r: Result<Reply, Refusal>)
    requires Consistent(oracle.Value())
    modifies oracle
    ensures r == ReplyIn(old(oracle.Value()), message)
    ensures oracle.Value() == Next(old(oracle.Value()), message)
  {
    match message
    case Schedule(now, candidates) =>
      var answer := oracle.Schedule(now, candidates);
      r := match answer case Ok(plan) => Ok(ReplyTo(plan)) case Err(e) => Err(e);
    case Receipt(id, model, actual) =>
      var answer := oracle.AcceptReceipt(id, model, actual);
      r := match answer case Ok(ledgers) => Ok(LedgerReply(ledgers)) case Err(e) => Err(e);
  }

  /** Fed any messages at all, the oracle and the reference driver give the same replies and the same
      refusals and go through the same states. */
  method RunSideBySide(models: seq<ModelConfig>, messages: seq<Message>)
    returns (expected: seq<Result<Reply, Refusal>>, observed: seq<Result<Reply, Refusal>>)
    ensures expected == observed == Replies(InitialState(models), messages)
  {
    var oracle := new SchedulerOracle(models);
    var driver := new ReferenceScheduler(models);
    ghost var start := InitialState(models);
    expected, observed := [], [];
    for i := 0 to |messages|
      invariant Consistent(start)
      invariant oracle.Value() == driver.Value() == StateAfter(start, messages[..i])
      invariant expected == observed == Replies(start, messages[..i])
    {
      var answer := AskOracle(oracle, messages[i]);
      var reply: Result<Reply, Refusal>;
      match messages[i] {
        case Schedule(now, candidates) => reply := driver.HandleSchedule(now, candidates);
        case Receipt(id, model, actual) => reply := driver.HandleReceipt(id, model, actual);
      }
      assert driver.Value().ledgers == driver.ledgers;
      assert messages[..i + 1][..i] == messages[..i];
      expected, observed := expected + [answer], observed + [reply];
    }
    assert messages[..|messages|] == messages;
  }

  /** The messages of one fairness turn: a schedule, and the receipt of the candidate it selects. */
  ghost function Exchange(s: State, t: Fairness.Turn): seq<Message>
    requires Idle(s)
  {
    [Schedule(t.now, t.candidates)]
    + match Fairness.PlanOf(s, t).selected
      case None => []
      case Some(c) => [Receipt(c.id, c.model, t.actual)]
  }

  /** A turn of a fairness run is such an exchange, and neither message is refused: what is proved of
      runs holds of both schedulers. */
  lemma PlayIsExchange(s: State, t: Fairness.Turn)
    requires Fairness.Playable(s, t)
    ensures StateAfter(s, Exchange(s, t)) == Fairness.Play(s, t)
    ensures forall r <- Replies(s, Exchange(s, t)) :: r.Ok?
  {
    hide Planned, AfterReceipt, Consistent, ReplyIn, Next;
    Fairness.SelectedIsOffered(s, t);
    var first := Schedule(t.now, t.candidates);
    ScheduleIsAccepted(s, t);
    OneMessage(s, first);
    match Fairness.PlanOf(s, t).selected {
      case None => assert Exchange(s, t) == [first];
      case Some(c) =>
        var second := Receipt(c.id, c.model, t.actual);
        ReceiptIsAccepted(s, t, c);
        TwoMessages(s, first, second);
        assert Exchange(s, t) == [first, second];
    }
  }

  lemma ScheduleIsAccepted(s: State, t: Fairness.Turn)
    requires Idle(s)
    ensures ReplyIn(s, Schedule(t.now, t.candidates)).Ok?
    ensures Next(s, Schedule(t.now, t.candidates)) == AfterSchedule(s, t.now, t.candidates)
  {
    hide Planned, AfterSchedule;
  }

  lemma ReceiptIsAccepted(s: State, t: Fairness.Turn, c: Candidate)
    requires Fairness.Playable(s, t) && Fairness.PlanOf(s, t).selected == Some(c)
    ensures var (planned, receipt) := (AfterSchedule(s, t.now, t.candidates), Receipt(c.id, c.model, t.actual));
      && Consistent(planned) && ReplyIn(planned, receipt).Ok?
      && Next(planned, receipt) == AfterReceipt(planned, c.model, t.actual)
  {
    hide Planned, AfterReceipt, Consistent;
    Fairness.SelectedIsOffered(s, t);
    assert ReceiptRefusal(AfterSchedule(s, t.now, t.candidates), c.id, c.model) == None;
  }

  lemma OneMessage(s: State, first: Message)
    requires Consistent(s)
    ensures StateAfter(s, [first]) == Next(s, first) && Replies(s, [first]) == [ReplyIn(s, first)]
  {
    hide Next, ReplyIn, Consistent;
    assert [first][..0] == [];
    assert StateAfter(s, []) == s && Replies(s, []) == [];
  }

  lemma TwoMessages(s: State, first: Message, second: Message)
    requires Consistent(s)
    ensures StateAfter(s, [first, second]) == Next(Next(s, first), second)
    ensures Replies(s, [first, second]) == [ReplyIn(s, first), ReplyIn(Next(s, first), second)]
  {
    hide Next, ReplyIn, Consistent;
    OneMessage(s, first);
    assert [first, second][..1] == [first];
  }
}
