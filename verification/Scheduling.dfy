/** Weighted fair scheduling: what one schedule or receipt message does to the ledgers. Ledgers are
    exact rationals in the source and reals here. */
module Scheduling {
  import opened Text
  import opened Outcomes

  datatype Candidate = Candidate(
    id: Str,
    model: Str,
    serviceBound: int,
    overheadBound: int,
    obligation: Option<int>,
    authorized: bool,
    resourceSafe: bool,
    timingFeasible: bool,
    outputReserved: bool)
  {
    predicate Eligible() {
      authorized && resourceSafe && timingFeasible && outputReserved
    }

    function LatestSafeStart(): Option<int> {
      match obligation
      case None => None
      case Some(due) => Some(due - serviceBound - overheadBound)
    }

    predicate IsUrgent(now: int) {
      Eligible() && LatestSafeStart().Some? && now >= LatestSafeStart().value
    }
  }

  type Weight = w: int | w >= 1 witness 1

  type Ledgers = map<Str, real>

  datatype ModelConfig = ModelConfig(id: Str, weight: Weight)

  datatype State = State(
    weights: map<Str, Weight>,
    ledgers: Ledgers,
    runnable: set<Str>,
    baseline: real,
    pending: Option<Candidate>)

  datatype Class = Urgent | Normal | NoPlan

  datatype Plan = Plan(selected: Option<Candidate>, class_: Class, runnableLedgers: Ledgers)

  datatype Refusal = PlanPending | NothingPending | WrongReceipt | UnknownModel

  // ---- least ledgers -------------------------------------------------------------------------

  ghost predicate IsLeast(l: Ledgers, ids: set<Str>, x: real) {
    && ids <= l.Keys
    && (exists m :: m in ids && l[m] == x)
    && forall m :: m in ids ==> x <= l[m]
  }

  lemma {:induction false} LeastExists(l: Ledgers, ids: set<Str>)
    requires ids != {} && ids <= l.Keys
    ensures exists x :: IsLeast(l, ids, x)
    decreases ids
  {
    var m :| m in ids;
    var rest := ids - {m};
    if rest == {} {
      assert ids == {m};
      assert IsLeast(l, ids, l[m]);
    } else {
      LeastExists(l, rest);
      var x :| IsLeast(l, rest, x);
      assert ids == rest + {m};
      assert IsLeast(l, ids, if l[m] < x then l[m] else x);
    }
  }

  ghost function Least(l: Ledgers, ids: set<Str>): (x: real)
    requires ids != {} && ids <= l.Keys
    ensures IsLeast(l, ids, x)
  {
    LeastExists(l, ids);
    var x :| IsLeast(l, ids, x);
    x
  }

  method MinLedger(l: Ledgers, ids: set<Str>) returns (x: real)
    requires ids != {} && ids <= l.Keys
    ensures x == Least(l, ids)
  {
    var first :| first in ids;
    x := l[first];
    var rest := ids - {first};
    while rest != {}
      invariant rest <= ids - {first}
      invariant IsLeast(l, ids - rest, x)
      decreases rest
    {
      var m :| m in rest;
      rest := rest - {m};
      if l[m] < x {
        x := l[m];
      }
    }
    assert ids - rest == ids;
  }

  // ---- who competes --------------------------------------------------------------------------

  function Eligibles(cs: seq<Candidate>): seq<Candidate> {
    if cs == [] then []
    else if cs[|cs| - 1].Eligible() then Eligibles(cs[..|cs| - 1]) + [cs[|cs| - 1]]
    else Eligibles(cs[..|cs| - 1])
  }

  function Urgents(cs: seq<Candidate>, now: int): seq<Candidate> {
    if cs == [] then []
    else if cs[|cs| - 1].IsUrgent(now) then Urgents(cs[..|cs| - 1], now) + [cs[|cs| - 1]]
    else Urgents(cs[..|cs| - 1], now)
  }

  function Models(cs: seq<Candidate>): set<Str> {
    set i | 0 <= i < |cs| :: cs[i].model
  }

  lemma {:induction false} EligiblesMembers(cs: seq<Candidate>)
    ensures forall c :: c in Eligibles(cs) <==> c in cs && c.Eligible()
  {
    if cs != [] {
      EligiblesMembers(cs[..|cs| - 1]);
      assert cs == cs[..|cs| - 1] + [cs[|cs| - 1]];
    }
  }

  lemma {:induction false} UrgentsMembers(cs: seq<Candidate>, now: int)
    ensures forall c :: c in Urgents(cs, now) <==> c in cs && c.IsUrgent(now)
  {
    if cs != [] {
      UrgentsMembers(cs[..|cs| - 1], now);
      assert cs == cs[..|cs| - 1] + [cs[|cs| - 1]];
    }
  }

  // ---- selection order -----------------------------------------------------------------------

  datatype Key = Key(start: int, ledger: real, first: Str, second: Str)

  predicate KeyLess(a: Key, b: Key) {
    || a.start < b.start
    || (a.start == b.start
        && (|| a.ledger < b.ledger
            || (a.ledger == b.ledger
                && (Less(a.first, b.first) || (a.first == b.first && Less(a.second, b.second))))))
  }

  lemma KeyLessIsStrict(a: Key, b: Key, c: Key)
    ensures !KeyLess(a, a)
    ensures KeyLess(a, b) && KeyLess(b, c) ==> KeyLess(a, c)
    ensures KeyLess(a, b) || a == b || KeyLess(b, a)
  {
    LessIsIrreflexive(a.second);
    LessIsIrreflexive(a.first);
    LessIsTotal(a.first, b.first);
    LessIsTotal(a.second, b.second);
    if Less(a.first, b.first) && Less(b.first, c.first) {
      LessIsTransitive(a.first, b.first, c.first);
    }
    if Less(a.second, b.second) && Less(b.second, c.second) {
      LessIsTransitive(a.second, b.second, c.second);
    }
  }

  /** Urgent work goes by latest safe start, ledger, candidate; normal work by ledger, model,
      candidate. */
  function KeyOf(class_: Class, l: Ledgers, c: Candidate): Key
    requires c.model in l
  {
    if class_ == Urgent && c.LatestSafeStart().Some? then
      Key(c.LatestSafeStart().value, l[c.model], c.id, [])
    else
      Key(0, l[c.model], c.model, c.id)
  }

  /** Index of the first candidate with the least key. */
  function LeastIndex(class_: Class, l: Ledgers, cs: seq<Candidate>): (k: nat)
    requires cs != [] && Models(cs) <= l.Keys
    ensures k < |cs|
  {
    var n := |cs| - 1;
    assert cs[n].model in Models(cs);
    if n == 0 then 0
    else
      assert Models(cs[..n]) <= Models(cs);
      var k := LeastIndex(class_, l, cs[..n]);
      assert cs[k].model in Models(cs);
      if KeyLess(KeyOf(class_, l, cs[n]), KeyOf(class_, l, cs[k])) then n else k
  }

  /** It is least, and everything before it is strictly greater. */
  lemma {:induction false} LeastIndexIsFirstLeast(class_: Class, l: Ledgers, cs: seq<Candidate>)
    requires cs != [] && Models(cs) <= l.Keys
    ensures var k := LeastIndex(class_, l, cs);
      forall j :: 0 <= j < |cs| ==>
        && cs[j].model in l
        && !KeyLess(KeyOf(class_, l, cs[j]), KeyOf(class_, l, cs[k]))
        && (j < k ==> KeyLess(KeyOf(class_, l, cs[k]), KeyOf(class_, l, cs[j])))
  {
    var n := |cs| - 1;
    var k := LeastIndex(class_, l, cs);
    forall j | 0 <= j < |cs| ensures cs[j].model in l {
      assert cs[j].model in Models(cs);
    }
    if n > 0 {
      assert Models(cs[..n]) <= Models(cs);
      var best := LeastIndex(class_, l, cs[..n]);
      LeastIndexIsFirstLeast(class_, l, cs[..n]);
      forall j | 0 <= j < |cs|
        ensures !KeyLess(KeyOf(class_, l, cs[j]), KeyOf(class_, l, cs[k]))
        ensures j < k ==> KeyLess(KeyOf(class_, l, cs[k]), KeyOf(class_, l, cs[j]))
      {
        var a, b, c := KeyOf(class_, l, cs[j]), KeyOf(class_, l, cs[best]), KeyOf(class_, l, cs[n]);
        KeyLessIsStrict(a, b, c);
        KeyLessIsStrict(b, a, c);
        KeyLessIsStrict(c, b, a);
        KeyLessIsStrict(a, c, b);
        assert j < n ==> cs[j] == cs[..n][j];
      }
    } else {
      KeyLessIsStrict(KeyOf(class_, l, cs[0]), KeyOf(class_, l, cs[0]), KeyOf(class_, l, cs[0]));
    }
  }

  // ---- one message ---------------------------------------------------------------------------

  /** What holds between messages. */
  ghost predicate Consistent(s: State) {
    && s.runnable <= s.ledgers.Keys
    && (s.pending.Some? ==> s.pending.value.model in s.runnable)
    && (s.runnable != {} ==> s.baseline == Least(s.ledgers, s.runnable))
  }

  ghost predicate Idle(s: State) {
    Consistent(s) && s.pending.None?
  }

  function InitialState(models: seq<ModelConfig>): State {
    var weights := WeightsOf(models);
    State(weights, map m | m in weights :: 0.0, {}, 0.0, None)
  }

  /** A later entry for the same model wins, as in a Python dict. */
  function WeightsOf(models: seq<ModelConfig>): map<Str, Weight> {
    if models == [] then map[]
    else WeightsOf(models[..|models| - 1])[models[|models| - 1].id := models[|models| - 1].weight]
  }

  /** Where a model that becomes runnable starts: level with the least ledger still running, or at
      the remembered baseline when none is. */
  ghost function Alignment(s: State, current: set<Str>): real
    requires Consistent(s)
  {
    var continuing := current * s.runnable;
    if continuing != {} then Least(s.ledgers, continuing) else s.baseline
  }

  ghost function Synced(s: State, current: set<Str>): (r: State)
    requires Consistent(s)
    ensures current <= r.ledgers.Keys && r.runnable == current
  {
    var entering := current - s.runnable;
    var ledgers := s.ledgers + map m | m in entering :: Alignment(s, current);
    var baseline := if current != {} then Least(ledgers, current) else s.baseline;
    s.(ledgers := ledgers, runnable := current, baseline := baseline)
  }

  lemma SyncedFields(s: State, current: set<Str>, alignment: real, ledgers: Ledgers, baseline: real)
    requires Consistent(s) && alignment == Alignment(s, current)
    requires ledgers == s.ledgers + map m | m in current - s.runnable :: alignment
    requires current <= ledgers.Keys
    requires baseline == if current != {} then Least(ledgers, current) else s.baseline
    ensures Synced(s, current) == s.(ledgers := ledgers, runnable := current, baseline := baseline)
  {
    var entering := current - s.runnable;
    assert (map m | m in entering :: alignment) == map m | m in entering :: Alignment(s, current);
  }

  lemma EnteringCoverCurrent(s: State, current: set<Str>, ledgers: Ledgers, alignment: real)
    requires Consistent(s)
    requires ledgers == s.ledgers + map m | m in current - s.runnable :: alignment
    ensures current <= ledgers.Keys
  {
  }

  ghost function Chosen(class_: Class, l: Ledgers, cs: seq<Candidate>): Candidate
    requires cs != [] && Models(cs) <= l.Keys
  {
    cs[LeastIndex(class_, l, cs)]
  }

  lemma UrgentModelsAreEligible(cs: seq<Candidate>, now: int)
    ensures Models(Urgents(cs, now)) <= Models(Eligibles(cs))
  {
    UrgentsMembers(cs, now);
    EligiblesMembers(cs);
    forall m | m in Models(Urgents(cs, now)) ensures m in Models(Eligibles(cs)) {
      var i :| 0 <= i < |Urgents(cs, now)| && Urgents(cs, now)[i].model == m;
      var c := Urgents(cs, now)[i];
      assert c in Urgents(cs, now) && c in Eligibles(cs);
    }
  }

  ghost function PlanFor(s: State, now: int, cs: seq<Candidate>): Plan
    requires Models(Eligibles(cs)) == s.runnable <= s.ledgers.Keys
  {
    UrgentModelsAreEligible(cs, now);
    var shown := map m | m in s.runnable :: s.ledgers[m];
    if Urgents(cs, now) != [] then Plan(Some(Chosen(Urgent, s.ledgers, Urgents(cs, now))), Urgent, shown)
    else if Eligibles(cs) != [] then Plan(Some(Chosen(Normal, s.ledgers, Eligibles(cs))), Normal, shown)
    else Plan(None, NoPlan, shown)
  }

  /** The plan a schedule message gets when none is pending. */
  ghost function Planned(s: State, now: int, cs: seq<Candidate>): Plan
    requires Consistent(s)
  {
    PlanFor(Synced(s, Models(Eligibles(cs))), now, cs)
  }

  ghost function AfterSchedule(s: State, now: int, cs: seq<Candidate>): State
    requires Consistent(s)
  {
    Synced(s, Models(Eligibles(cs))).(pending := Planned(s, now, cs).selected)
  }

  function ReceiptRefusal(s: State, id: Str, model: Str): Option<Refusal> {
    if s.pending.None? then Some(NothingPending)
    else if s.pending.value.id != id || s.pending.value.model != model then Some(WrongReceipt)
    else if model !in s.weights then Some(UnknownModel)
    else None
  }

  function Charge(s: State, model: Str, actual: int): real
    requires model in s.weights
  {
    actual as real / s.weights[model] as real
  }

  ghost function AfterReceipt(s: State, model: Str, actual: int): State
    requires Consistent(s) && s.pending.Some? && s.pending.value.model == model && model in s.weights
  {
    var ledgers := s.ledgers[model := s.ledgers[model] + Charge(s, model, actual)];
    s.(ledgers := ledgers, pending := None, baseline := Least(ledgers, s.runnable))
  }

  /** The selected candidate is one of those offered, is eligible, and is urgent when anything is. */
  lemma PlannedIsOffered(s: State, now: int, cs: seq<Candidate>)
    requires Consistent(s)
    ensures var p := Planned(s, now, cs);
      && (p.selected.Some? <==> exists c :: c in cs && c.Eligible())
      && (p.selected.Some? ==>
            (p.selected.value in cs && p.selected.value.Eligible()
             && p.selected.value.model in Models(Eligibles(cs))))
      && (p.class_ == Urgent <==> exists c :: c in cs && c.IsUrgent(now))
      && (p.class_ == Urgent ==> p.selected.value.IsUrgent(now))
      && (p.class_ == NoPlan <==> p.selected.None?)
  {
    UrgentsMembers(cs, now);
    EligiblesMembers(cs);
    UrgentModelsAreEligible(cs, now);
    var us, es := Urgents(cs, now), Eligibles(cs);
    assert us != [] ==> us[0] in us;
    assert es != [] ==> es[0] in es;
    var t := Synced(s, Models(es));
    if us != [] {
      assert us[LeastIndex(Urgent, t.ledgers, us)] in us;
      assert us[LeastIndex(Urgent, t.ledgers, us)] in es;
    } else if es != [] {
      assert es[LeastIndex(Normal, t.ledgers, es)] in es;
    }
  }

  lemma ScheduleKeepsConsistent(s: State, now: int, cs: seq<Candidate>)
    requires Consistent(s)
    ensures Consistent(AfterSchedule(s, now, cs))
  {
    PlannedIsOffered(s, now, cs);
  }

  /** Which candidate wins does not depend on the order they are listed in. */
  lemma SelectionIgnoresOrder(s: State, now: int, cs: seq<Candidate>, ds: seq<Candidate>)
    requires Consistent(s)
    requires multiset(cs) == multiset(ds)
    requires forall c, d :: c in cs && d in cs && c.id == d.id ==> c == d
    ensures Planned(s, now, cs) == Planned(s, now, ds)
    ensures AfterSchedule(s, now, cs) == AfterSchedule(s, now, ds)
  {
    forall c ensures c in cs <==> c in ds {
      assert c in cs <==> c in multiset(cs);
      assert c in ds <==> c in multiset(ds);
    }
    EligiblesMembers(cs);
    EligiblesMembers(ds);
    UrgentsMembers(cs, now);
    UrgentsMembers(ds, now);
    ModelsOfSameMembers(Eligibles(cs), Eligibles(ds));
    UrgentModelsAreEligible(cs, now);
    UrgentModelsAreEligible(ds, now);
    var t := Synced(s, Models(Eligibles(cs)));
    NonemptyTogether(Urgents(cs, now), Urgents(ds, now));
    NonemptyTogether(Eligibles(cs), Eligibles(ds));
    if Urgents(cs, now) != [] {
      ChosenIgnoresOrder(Urgent, t.ledgers, Urgents(cs, now), Urgents(ds, now));
    } else if Eligibles(cs) != [] {
      ChosenIgnoresOrder(Normal, t.ledgers, Eligibles(cs), Eligibles(ds));
    }
  }

  lemma ModelsOfSameMembers(a: seq<Candidate>, b: seq<Candidate>)
    requires forall c :: c in a <==> c in b
    ensures Models(a) == Models(b)
  {
    forall m ensures m in Models(a) <==> m in Models(b) {
      assert m in Models(a) <==> exists c :: c in a && c.model == m;
      assert m in Models(b) <==> exists c :: c in b && c.model == m;
    }
  }

  lemma NonemptyTogether(a: seq<Candidate>, b: seq<Candidate>)
    requires forall c :: c in a <==> c in b
    ensures a == [] <==> b == []
  {
    assert a != [] ==> a[0] in b;
    assert b != [] ==> b[0] in a;
  }

  lemma ChosenIgnoresOrder(class_: Class, l: Ledgers, a: seq<Candidate>, b: seq<Candidate>)
    requires a != [] && b != [] && Models(a) <= l.Keys && Models(b) <= l.Keys
    requires forall c :: c in a <==> c in b
    requires forall c, d :: c in a && d in a && c.id == d.id ==> c == d
    requires class_ == Urgent ==> forall c :: c in a ==> c.LatestSafeStart().Some?
    ensures Chosen(class_, l, a) == Chosen(class_, l, b)
  {
    LeastIndexIsFirstLeast(class_, l, a);
    LeastIndexIsFirstLeast(class_, l, b);
    var x, y := Chosen(class_, l, a), Chosen(class_, l, b);
    assert x in a && y in b;
    var i :| 0 <= i < |a| && a[i] == y;
    var j :| 0 <= j < |b| && b[j] == x;
    KeyLessIsStrict(KeyOf(class_, l, x), KeyOf(class_, l, y), KeyOf(class_, l, x));
  }

  /** Python's min over candidates: the first of the least. */
  method MinCandidate(class_: Class, l: Ledgers, cs: seq<Candidate>) returns (best: Candidate)
    requires cs != [] && Models(cs) <= l.Keys
    ensures best == Chosen(class_, l, cs)
  {
    best := cs[0];
    assert cs[..1] == [cs[0]];
    for i := 1 to |cs|
      invariant Models(cs[..i]) <= l.Keys && best.model in l
      invariant best == Chosen(class_, l, cs[..i])
    {
      assert cs[i].model in Models(cs);
      assert Models(cs[..i + 1]) <= Models(cs);
      assert cs[..i + 1][..i] == cs[..i];
      if KeyLess(KeyOf(class_, l, cs[i]), KeyOf(class_, l, best)) {
        best := cs[i];
      }
    }
    assert cs[..|cs|] == cs;
  }
}
