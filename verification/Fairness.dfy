/** What the policy guarantees over whole runs: the baseline only rises, no runnable model gets far ahead
    of it, and service is shared in proportion to weight. */
module Fairness {
  import opened Text
  import opened Outcomes
  import opened Scheduling

  /** A schedule message and the service its selected candidate, if any, then reports. */
  datatype Turn = Turn(now: int, candidates: seq<Candidate>, actual: int)

  ghost function PlanOf(s: State, t: Turn): Plan
    requires Idle(s)
  {
    Planned(s, t.now, t.candidates)
  }

  /** Models the turn finds eligible. */
  function Offered(t: Turn): set<Str> {
    Models(Eligibles(t.candidates))
  }

  /** Every offered model has a weight and service is never negative. */
  ghost predicate Playable(s: State, t: Turn) {
    Idle(s) && Offered(t) <= s.weights.Keys && t.actual >= 0
  }

  lemma SelectedIsOffered(s: State, t: Turn)
    requires Idle(s)
    ensures PlanOf(s, t).selected.Some? ==> PlanOf(s, t).selected.value.model in Offered(t)
    ensures PlanOf(s, t).selected.None? <==> Offered(t) == {}
    ensures PlanOf(s, t).selected.None? <==> PlanOf(s, t).class_ == NoPlan
    ensures Consistent(AfterSchedule(s, t.now, t.candidates))
    ensures AfterSchedule(s, t.now, t.candidates).pending == PlanOf(s, t).selected
  {
    PlannedIsOffered(s, t.now, t.candidates);
    EligiblesMembers(t.candidates);
    ScheduleKeepsConsistent(s, t.now, t.candidates);
    if Offered(t) != {} {
      var m :| m in Offered(t);
      var i :| 0 <= i < |Eligibles(t.candidates)| && Eligibles(t.candidates)[i].model == m;
      assert Eligibles(t.candidates)[i] in Eligibles(t.candidates);
    }
  }

  ghost function ChargeOf(s: State, t: Turn): (charge: real)
    requires Playable(s, t)
    ensures charge >= 0.0
  {
    SelectedIsOffered(s, t);
    match PlanOf(s, t).selected
    case None => 0.0
    case Some(c) => Charge(s, c.model, t.actual)
  }

  /** The charge of a selected model times its weight is the service it reports. */
  lemma ChargeIsService(s: State, t: Turn)
    requires Playable(s, t) && PlanOf(s, t).selected.Some?
    ensures PlanOf(s, t).selected.value.model in s.weights
    ensures ChargeOf(s, t) * s.weights[PlanOf(s, t).selected.value.model] as real == t.actual as real
  {
    hide PlanOf, Consistent, Planned, AfterSchedule, Charge;
    SelectedIsOffered(s, t);
    ChargeTimesWeight(s, PlanOf(s, t).selected.value.model, t.actual);
  }

  lemma ChargeTimesWeight(s: State, model: Str, actual: int)
    requires model in s.weights
    ensures Charge(s, model, actual) * s.weights[model] as real == actual as real
  {
  }

  /** The charge a model takes in one turn. */
  ghost function ServedIn(s: State, t: Turn, m: Str): (charge: real)
    requires Playable(s, t)
    ensures charge >= 0.0
  {
    var selected := PlanOf(s, t).selected;
    if selected.Some? && selected.value.model == m then ChargeOf(s, t) else 0.0
  }

  /** Schedule, then the matching receipt. */
  ghost function Play(s: State, t: Turn): State
    requires Playable(s, t)
  {
    SelectedIsOffered(s, t);
    var planned := AfterSchedule(s, t.now, t.candidates);
    match planned.pending
    case None => planned
    case Some(c) => AfterReceipt(planned, c.model, t.actual)
  }

  /** The ledgers as the selection sees them. */
  ghost function Aligned(s: State, t: Turn): State
    requires Idle(s)
  {
    Synced(s, Offered(t))
  }

  /** One turn, field by field. */
  lemma PlayFields(s: State, t: Turn)
    requires Playable(s, t)
    ensures var r := Play(s, t);
      && Idle(r) && r.weights == s.weights && r.runnable == Offered(t)
      && Aligned(s, t).ledgers.Keys <= r.ledgers.Keys
      && (forall m :: m in Aligned(s, t).ledgers ==>
            r.ledgers[m] == Aligned(s, t).ledgers[m] + ServedIn(s, t, m))
      && (Offered(t) == {} ==> r.baseline == s.baseline)
  {
    SelectedIsOffered(s, t);
    hide Planned, Synced;
    SyncedKeepsWeights(s, Offered(t));
  }

  lemma SyncedKeepsWeights(s: State, current: set<Str>)
    requires Consistent(s)
    ensures Synced(s, current).weights == s.weights && Synced(s, current).pending == s.pending
    ensures current == {} ==> Synced(s, current).baseline == s.baseline
  {
  }

  /** Entering models start level: after alignment the least ledger is the alignment itself, and
      models that stay keep theirs. */
  lemma AlignmentIsLevel(s: State, t: Turn)
    requires Idle(s) && Offered(t) != {}
    ensures var a := Aligned(s, t);
      && a.baseline == Least(a.ledgers, Offered(t)) == Alignment(s, Offered(t)) >= s.baseline
      && (forall m :: m in Offered(t) - s.runnable ==> a.ledgers[m] == a.baseline)
      && (forall m :: m in Offered(t) * s.runnable ==> a.ledgers[m] == s.ledgers[m])
      && (forall m :: m in s.ledgers && m !in Offered(t) ==> m in a.ledgers && a.ledgers[m] == s.ledgers[m])
  {
    var current := Offered(t);
    var a := Aligned(s, t);
    var continuing := current * s.runnable;
    assert IsLeast(a.ledgers, current, a.baseline);
    if continuing != {} {
      var x := Alignment(s, current);
      assert IsLeast(s.ledgers, continuing, x);
      var m :| m in continuing && s.ledgers[m] == x;
      assert a.ledgers[m] == x;
      assert IsLeast(a.ledgers, current, x);
      assert IsLeast(s.ledgers, s.runnable, s.baseline);
    } else {
      var m :| m in current;
      assert m !in continuing;
      assert a.ledgers[m] == s.baseline;
      assert IsLeast(a.ledgers, current, s.baseline);
    }
  }

  /** A normal turn charges a model that has the least ledger. */
  lemma NormalSelectsLeast(s: State, t: Turn)
    requires Idle(s) && PlanOf(s, t).class_ == Normal
    ensures var c := PlanOf(s, t).selected.value;
      && c.model in Offered(t)
      && Aligned(s, t).ledgers[c.model] == Aligned(s, t).baseline
  {
    SelectedIsOffered(s, t);
    var a, es := Aligned(s, t), Eligibles(t.candidates);
    LeastIndexIsFirstLeast(Normal, a.ledgers, es);
    var k := LeastIndex(Normal, a.ledgers, es);
    assert IsLeast(a.ledgers, Offered(t), a.baseline);
    var m :| m in Offered(t) && a.ledgers[m] == a.baseline;
    var j :| 0 <= j < |es| && es[j].model == m;
    assert !KeyLess(KeyOf(Normal, a.ledgers, es[j]), KeyOf(Normal, a.ledgers, es[k]));
  }

  /** Nobody runnable is more than this ahead of the baseline. */
  ghost predicate AheadAtMost(s: State, slack: real) {
    Idle(s) && slack >= 0.0 && forall m :: m in s.runnable ==> s.ledgers[m] <= s.baseline + slack
  }

  ghost function UrgentCharge(s: State, t: Turn): (charge: real)
    requires Playable(s, t)
    ensures charge >= 0.0
  {
    if PlanOf(s, t).class_ == Urgent then ChargeOf(s, t) else 0.0
  }

  /** Normal charges stay within a cap. */
  ghost predicate NormalWithin(s: State, t: Turn, cap: real)
    requires Playable(s, t)
  {
    PlanOf(s, t).class_ == Normal ==> ChargeOf(s, t) <= cap
  }

  /** One turn never lowers the baseline, and only an urgent charge can widen the slack. */
  lemma TurnIsFair(s: State, t: Turn, cap: real, slack: real)
    requires Playable(s, t) && NormalWithin(s, t, cap) && 0.0 <= cap <= slack
    requires AheadAtMost(s, slack)
    ensures Play(s, t).baseline >= s.baseline
    ensures AheadAtMost(Play(s, t), slack + UrgentCharge(s, t))
  {
    hide Planned, Synced, Play, PlanOf, ChargeOf, Consistent;
    PlayFields(s, t);
    var r := Play(s, t);
    if Offered(t) != {} {
      AlignmentIsLevel(s, t);
      BaselineRises(s, t);
      SelectedIsOffered(s, t);
      var a, p := Aligned(s, t), PlanOf(s, t);
      forall m | m in r.runnable ensures r.ledgers[m] <= r.baseline + slack + UrgentCharge(s, t) {
        assert a.ledgers[m] <= a.baseline + slack;
        if p.selected.value.model == m && p.class_ == Normal {
          NormalSelectsLeast(s, t);
          assert ServedIn(s, t, m) <= cap;
        }
      }
    }
  }

  lemma BaselineRises(s: State, t: Turn)
    requires Playable(s, t) && Offered(t) != {}
    ensures Play(s, t).baseline >= Aligned(s, t).baseline
  {
    hide Planned, Synced, Play, ServedIn;
    PlayFields(s, t);
    AlignmentIsLevel(s, t);
    var r, a := Play(s, t), Aligned(s, t);
    assert IsLeast(r.ledgers, r.runnable, r.baseline);
    assert IsLeast(a.ledgers, Offered(t), a.baseline);
    var m :| m in r.runnable && r.ledgers[m] == r.baseline;
    assert a.ledgers[m] >= a.baseline;
  }

  // ---- runs ----------------------------------------------------------------------------------

  ghost predicate PlayableRun(s: State, turns: seq<Turn>)
    decreases |turns|
  {
    turns == [] || (Playable(s, turns[0]) && PlayableRun(Play(s, turns[0]), turns[1..]))
  }

  ghost function PlayAll(s: State, turns: seq<Turn>): State
    requires PlayableRun(s, turns)
    decreases |turns|
  {
    if turns == [] then s else PlayAll(Play(s, turns[0]), turns[1..])
  }

  ghost function UrgentCharges(s: State, turns: seq<Turn>): real
    requires PlayableRun(s, turns)
    decreases |turns|
  {
    if turns == [] then 0.0
    else UrgentCharge(s, turns[0]) + UrgentCharges(Play(s, turns[0]), turns[1..])
  }

  ghost predicate NormalsWithin(s: State, turns: seq<Turn>, cap: real)
    requires PlayableRun(s, turns)
    decreases |turns|
  {
    turns == []
    || (NormalWithin(s, turns[0], cap) && NormalsWithin(Play(s, turns[0]), turns[1..], cap))
  }

  /** Over any run the baseline never falls, and a runnable ledger is never further ahead of it than
      the slack at the start (at least the largest normal charge) plus all urgent charges since. */
  lemma {:induction false} RunIsFair(s: State, turns: seq<Turn>, cap: real, slack: real)
    requires PlayableRun(s, turns) && NormalsWithin(s, turns, cap)
    requires 0.0 <= cap <= slack && AheadAtMost(s, slack)
    ensures PlayAll(s, turns).baseline >= s.baseline
    ensures AheadAtMost(PlayAll(s, turns), slack + UrgentCharges(s, turns))
    decreases |turns|
  {
    hide Play, UrgentCharge, NormalWithin, Consistent;
    if turns != [] {
      TurnIsFair(s, turns[0], cap, slack);
      RunIsFair(Play(s, turns[0]), turns[1..], cap, slack + UrgentCharge(s, turns[0]));
    }
  }

  /** From the initial state: within the largest normal charge plus the urgent charges. */
  lemma FairFromStart(models: seq<ModelConfig>, turns: seq<Turn>, cap: real)
    requires cap >= 0.0
    requires PlayableRun(InitialState(models), turns) && NormalsWithin(InitialState(models), turns, cap)
    ensures var r := PlayAll(InitialState(models), turns);
      && r.baseline >= 0.0
      && (r.runnable != {} ==> IsLeast(r.ledgers, r.runnable, r.baseline))
      && forall m :: m in r.runnable ==>
           r.ledgers[m] <= r.baseline + cap + UrgentCharges(InitialState(models), turns)
  {
    hide PlayAll, UrgentCharges, PlayableRun, NormalsWithin, IsLeast;
    RunIsFair(InitialState(models), turns, cap, cap);
  }

  // ---- proportional service ------------------------------------------------------------------

  /** The model is offered in every turn. */
  predicate OfferedThroughout(turns: seq<Turn>, m: Str) {
    forall i :: 0 <= i < |turns| ==> m in Offered(turns[i])
  }

  /** Weighted service a model receives over a run. */
  ghost function Served(s: State, turns: seq<Turn>, m: Str): real
    requires PlayableRun(s, turns)
    decreases |turns|
  {
    if turns == [] then 0.0
    else ServedIn(s, turns[0], m) + Served(Play(s, turns[0]), turns[1..], m)
  }

  ghost predicate AllNormal(s: State, turns: seq<Turn>)
    requires PlayableRun(s, turns)
    decreases |turns|
  {
    turns == []
    || (PlanOf(s, turns[0]).class_ == Normal && AllNormal(Play(s, turns[0]), turns[1..]))
  }

  lemma {:induction false} AllNormalMeansNoUrgentCharge(s: State, turns: seq<Turn>)
    requires PlayableRun(s, turns) && AllNormal(s, turns)
    ensures UrgentCharges(s, turns) == 0.0
    decreases |turns|
  {
    hide Play, Playable;
    if turns != [] {
      AllNormalMeansNoUrgentCharge(Play(s, turns[0]), turns[1..]);
    }
  }

  /** While a model stays runnable its ledger moves by exactly the service it receives. */
  lemma {:induction false} LedgerCountsService(s: State, turns: seq<Turn>, m: Str)
    requires PlayableRun(s, turns) && Idle(s) && m in s.runnable && OfferedThroughout(turns, m)
    ensures var r := PlayAll(s, turns);
      m in r.runnable && m in r.ledgers && r.ledgers[m] == s.ledgers[m] + Served(s, turns, m)
    decreases |turns|
  {
    hide Play, ServedIn, Synced;
    if turns != [] {
      PlayFields(s, turns[0]);
      AlignmentIsLevel(s, turns[0]);
      LedgerCountsService(Play(s, turns[0]), turns[1..], m);
    }
  }

  /** Two models runnable throughout an all-normal run receive weighted service within twice the
      largest charge of each other. */
  lemma ServiceIsProportional(s: State, turns: seq<Turn>, a: Str, b: Str, cap: real)
    requires PlayableRun(s, turns) && AllNormal(s, turns) && NormalsWithin(s, turns, cap)
    requires cap >= 0.0 && AheadAtMost(s, cap)
    requires a in s.runnable && b in s.runnable
    requires OfferedThroughout(turns, a) && OfferedThroughout(turns, b)
    ensures -2.0 * cap <= Served(s, turns, a) - Served(s, turns, b) <= 2.0 * cap
  {
    hide PlayAll, Served, PlayableRun, AllNormal, NormalsWithin, UrgentCharges, OfferedThroughout, Consistent,
      AheadAtMost;
    RunIsFair(s, turns, cap, cap);
    AllNormalMeansNoUrgentCharge(s, turns);
    var r := PlayAll(s, turns);
    LedgerIsInReach(s, cap, a);
    LedgerIsInReach(s, cap, b);
    LedgerCountsService(s, turns, a);
    LedgerCountsService(s, turns, b);
    LedgerIsInReach(r, cap, a);
    LedgerIsInReach(r, cap, b);
  }

  lemma LedgerIsInReach(s: State, slack: real, m: Str)
    requires AheadAtMost(s, slack) && m in s.runnable
    ensures Idle(s) && m in s.ledgers && s.baseline <= s.ledgers[m] <= s.baseline + slack
  {
    assert IsLeast(s.ledgers, s.runnable, s.baseline);
  }

  /** The same inside any all-normal run from the initial state: the start of the interval needs no
      assumption of its own. */
  lemma ServiceIsProportionalFromStart(models: seq<ModelConfig>, before: seq<Turn>, turns: seq<Turn>, a: Str, b: Str,
      cap: real)
    requires PlayableRun(InitialState(models), before) && AllNormal(InitialState(models), before)
    requires NormalsWithin(InitialState(models), before, cap) && cap >= 0.0
    requires var s := PlayAll(InitialState(models), before);
      && PlayableRun(s, turns) && AllNormal(s, turns) && NormalsWithin(s, turns, cap)
      && a in s.runnable && b in s.runnable
    requires OfferedThroughout(turns, a) && OfferedThroughout(turns, b)
    ensures var s := PlayAll(InitialState(models), before);
      -2.0 * cap <= Served(s, turns, a) - Served(s, turns, b) <= 2.0 * cap
  {
    hide PlayAll, Served, PlayableRun, AllNormal, NormalsWithin, UrgentCharges, OfferedThroughout, Consistent;
    var start := InitialState(models);
    StartIsLevel(models);
    RunIsFair(start, before, cap, cap);
    AllNormalMeansNoUrgentCharge(start, before);
    ServiceIsProportional(PlayAll(start, before), turns, a, b, cap);
  }

  lemma StartIsLevel(models: seq<ModelConfig>)
    ensures forall slack :: slack >= 0.0 ==> AheadAtMost(InitialState(models), slack)
  {
  }

  /** Runs compose. */
  lemma {:induction false} PlayAllAppend(s: State, first: seq<Turn>, second: seq<Turn>)
    requires PlayableRun(s, first) && PlayableRun(PlayAll(s, first), second)
    ensures PlayableRun(s, first + second)
    ensures PlayAll(s, first + second) == PlayAll(PlayAll(s, first), second)
    decreases |first|
  {
    hide Play, Playable;
    if first == [] {
      assert first + second == second;
    } else {
      PlayAllAppend(Play(s, first[0]), first[1..], second);
      assert (first + second)[0] == first[0] && (first + second)[1..] == first[1..] + second;
    }
  }
}
