/** The scheduling rules in plain terms: who is selected, what the ledgers become, what a receipt charges.
    Nothing here is said through the selection keys or the state functions it is about. */
module SchedulingRules {
  import opened Text
  import opened Outcomes
  import opened Scheduling

  /** All four admission flags are set. */
  predicate Admitted(c: Candidate) {
    c.authorized && c.resourceSafe && c.timingFeasible && c.outputReserved
  }

  /** Admitted, with an obligation that leaves no slack: now plus both bounds has reached it. */
  predicate Due(c: Candidate, now: int) {
    Admitted(c) && c.obligation.Some? && now + c.serviceBound + c.overheadBound >= c.obligation.value
  }

  /** The slack-free start of a candidate with an obligation. */
  function StartBy(c: Candidate): int
    requires c.obligation.Some?
  {
    c.obligation.value - c.serviceBound - c.overheadBound
  }

  predicate NoLater(a: Str, b: Str) {
    a == b || Less(a, b)
  }

  /** A plan takes a due candidate with the least slack-free start, then the least ledger, then the least
      id, if any is due; else an admitted one with the least ledger, then the least model, then the least
      id; and none exactly when none is admitted. */
  lemma SelectionRule(s: State, now: int, cs: seq<Candidate>)
    requires Consistent(s)
    ensures var p := Planned(s, now, cs);
      var l := p.runnableLedgers;
      && (p.class_ == Urgent <==> exists c :: c in cs && Due(c, now))
      && (p.class_ == NoPlan <==> !exists c :: c in cs && Admitted(c))
      && (p.class_ == NoPlan <==> p.selected.None?)
      && (forall c :: c in cs && Admitted(c) ==> c.model in l)
      && (p.selected.Some? ==> p.selected.value in cs && Admitted(p.selected.value))
      && (p.class_ == Urgent ==> Due(p.selected.value, now))
    ensures var p := Planned(s, now, cs);
      var l := p.runnableLedgers;
      p.class_ == Urgent ==>
        var x := p.selected.value;
        forall c :: c in cs && Due(c, now) ==>
          StartBy(x) < StartBy(c)
          || (StartBy(x) == StartBy(c) && l[x.model] < l[c.model])
          || (StartBy(x) == StartBy(c) && l[x.model] == l[c.model] && NoLater(x.id, c.id))
    ensures var p := Planned(s, now, cs);
      var l := p.runnableLedgers;
      p.class_ == Normal ==>
        var x := p.selected.value;
        forall c :: c in cs && Admitted(c) ==>
          l[x.model] < l[c.model]
          || (l[x.model] == l[c.model] && Less(x.model, c.model))
          || (l[x.model] == l[c.model] && x.model == c.model && NoLater(x.id, c.id))
  {
    hide Synced, LeastIndex, Less;
    PlannedIsOffered(s, now, cs);
    AdmissionFlags(cs, now);
    EligiblesMembers(cs);
    UrgentsMembers(cs, now);
    UrgentModelsAreEligible(cs, now);
    forall c | c in cs && Admitted(c) ensures c.model in Models(Eligibles(cs)) {
      var i :| 0 <= i < |Eligibles(cs)| && Eligibles(cs)[i] == c;
    }
    var p, l := Planned(s, now, cs), Synced(s, Models(Eligibles(cs))).ledgers;
    if p.class_ == Urgent {
      UrgentChoice(l, Urgents(cs, now), now);
    } else if p.class_ == Normal {
      NormalChoice(l, Eligibles(cs));
    }
  }

  lemma AdmissionFlags(cs: seq<Candidate>, now: int)
    ensures forall c :: c in cs ==> (c.Eligible() <==> Admitted(c)) && (c.IsUrgent(now) <==> Due(c, now))
  {
  }

  lemma UrgentChoice(l: Ledgers, cs: seq<Candidate>, now: int)
    requires cs != [] && Models(cs) <= l.Keys && forall c :: c in cs ==> Due(c, now)
    ensures var x := Chosen(Urgent, l, cs);
      x in cs && Due(x, now) && x.model in l
    ensures forall c :: c in cs ==> Due(c, now) && c.model in l
    ensures var x := Chosen(Urgent, l, cs);
      forall c :: c in cs ==>
        && Due(c, now)
        && (StartBy(x) < StartBy(c)
            || (StartBy(x) == StartBy(c) && l[x.model] < l[c.model])
            || (StartBy(x) == StartBy(c) && l[x.model] == l[c.model] && NoLater(x.id, c.id)))
  {
    hide Less, LeastIndex;
    LeastIndexIsFirstLeast(Urgent, l, cs);
    var x := cs[LeastIndex(Urgent, l, cs)];
    assert x in cs && x.model in Models(cs);
    NothingBeforeEmpty();
    forall c | c in cs
      ensures c.model in l &&
        (StartBy(x) < StartBy(c)
         || (StartBy(x) == StartBy(c) && l[x.model] < l[c.model])
         || (StartBy(x) == StartBy(c) && l[x.model] == l[c.model] && NoLater(x.id, c.id)))
    {
      var j :| 0 <= j < |cs| && cs[j] == c;
      assert Due(c, now) && Due(x, now);
      LessIsTotal(c.id, x.id);
    }
  }

  lemma NothingBeforeEmpty()
    ensures !Less([], [])
  {
  }

  lemma NormalChoice(l: Ledgers, cs: seq<Candidate>)
    requires cs != [] && Models(cs) <= l.Keys
    ensures Chosen(Normal, l, cs) in cs && forall c :: c in cs ==> c.model in l
    ensures var x := Chosen(Normal, l, cs);
      forall c :: c in cs ==>
        l[x.model] < l[c.model]
        || (l[x.model] == l[c.model] && Less(x.model, c.model))
        || (l[x.model] == l[c.model] && x.model == c.model && NoLater(x.id, c.id))
  {
    hide Less, LeastIndex;
    LeastIndexIsFirstLeast(Normal, l, cs);
    var x := cs[LeastIndex(Normal, l, cs)];
    forall c | c in cs
      ensures c.model in l &&
        (l[x.model] < l[c.model]
         || (l[x.model] == l[c.model] && Less(x.model, c.model))
         || (l[x.model] == l[c.model] && x.model == c.model && NoLater(x.id, c.id)))
    {
      var j :| 0 <= j < |cs| && cs[j] == c;
      LessIsTotal(c.model, x.model);
      LessIsTotal(c.id, x.id);
    }
  }

  /** x is the least value a non-empty set of models has. */
  ghost predicate LeastOf(l: Ledgers, ids: set<Str>, x: real) {
    ids <= l.Keys && (exists m :: m in ids && l[m] == x) && forall m :: m in ids ==> x <= l[m]
  }

  /** What becoming runnable does to the ledgers: models already runnable keep theirs, others get the
      least of those, or the baseline when there are none; the rest are not touched. */
  lemma AlignmentOf(s: State, current: set<Str>)
    requires Consistent(s)
    ensures var t := Synced(s, current);
      && t.runnable == current && t.ledgers.Keys == s.ledgers.Keys + current
      && (forall m :: m in s.ledgers && (m !in current || m in s.runnable) ==> t.ledgers[m] == s.ledgers[m])
      && (current * s.runnable == {} ==> forall m :: m in current ==> t.ledgers[m] == s.baseline)
      && (current * s.runnable != {} ==> forall m :: m in current - s.runnable ==>
            LeastOf(s.ledgers, current * s.runnable, t.ledgers[m]))
      && (if current == {} then t.baseline == s.baseline else LeastOf(t.ledgers, current, t.baseline))
      && t.weights == s.weights
  {
    hide Least;
    var t, continuing := Synced(s, current), current * s.runnable;
    if continuing != {} {
      LeastIs(s.ledgers, continuing);
    }
    if current != {} {
      LeastIs(t.ledgers, current);
    }
    forall m | m in current && continuing == {} ensures t.ledgers[m] == s.baseline {
      assert m in continuing <==> m in s.runnable;
    }
  }

  lemma RunnableAre(cs: seq<Candidate>, m: Str)
    ensures m in Models(Eligibles(cs)) <==> exists c :: c in cs && Admitted(c) && c.model == m
  {
    AdmissionFlags(cs, 0);
    EligiblesMembers(cs);
    assert m in Models(Eligibles(cs)) <==> exists c :: c in Eligibles(cs) && c.model == m;
  }

  /** A schedule message makes the models of the admitted candidates runnable, aligns their ledgers, shows
      them in the plan, and remembers the selected candidate. */
  lemma AlignmentRule(s: State, now: int, cs: seq<Candidate>)
    requires Consistent(s)
    ensures var (t, p) := (AfterSchedule(s, now, cs), Planned(s, now, cs));
      var stay := t.runnable * s.runnable;
      && (forall m :: m in t.runnable <==> exists c :: c in cs && Admitted(c) && c.model == m)
      && t.ledgers.Keys == s.ledgers.Keys + t.runnable
      && (forall m :: m in s.ledgers && (m !in t.runnable || m in s.runnable) ==> t.ledgers[m] == s.ledgers[m])
      && (stay == {} ==> forall m :: m in t.runnable ==> t.ledgers[m] == s.baseline)
      && (stay != {} ==> forall m :: m in t.runnable - s.runnable ==> LeastOf(s.ledgers, stay, t.ledgers[m]))
      && (if t.runnable == {} then t.baseline == s.baseline else LeastOf(t.ledgers, t.runnable, t.baseline))
      && t.weights == s.weights && t.pending == p.selected
      && p.runnableLedgers.Keys == t.runnable
      && forall m :: m in t.runnable ==> p.runnableLedgers[m] == t.ledgers[m]
  {
    var current := Models(Eligibles(cs));
    forall m ensures m in current <==> exists c :: c in cs && Admitted(c) && c.model == m {
      RunnableAre(cs, m);
    }
    AlignmentOf(s, current);
    hide Synced, Models, Eligibles, Urgents, Chosen, LeastOf, Least;
  }

  lemma LeastIs(l: Ledgers, ids: set<Str>)
    requires ids != {} && ids <= l.Keys
    ensures LeastOf(l, ids, Least(l, ids))
  {
    assert IsLeast(l, ids, Least(l, ids));
  }

  /** A ledger moves by as much as, times the weight, is the service. */
  predicate Pays(before: real, after: real, weight: Weight, actual: int) {
    (after - before) * weight as real == actual as real
  }

  /** What a receipt does: the charge times the weight is the reported service, only the selected model is
      charged, and the baseline is the least runnable ledger again. */
  lemma ReceiptRule(s: State, model: Str, actual: int)
    requires Consistent(s) && s.pending.Some? && s.pending.value.model == model && model in s.weights
    ensures var t := AfterReceipt(s, model, actual);
      && model in s.ledgers && t.ledgers.Keys == s.ledgers.Keys
      && Pays(s.ledgers[model], t.ledgers[model], s.weights[model], actual)
      && (forall m :: m in s.ledgers && m != model ==> t.ledgers[m] == s.ledgers[m])
      && t.runnable == s.runnable && t.weights == s.weights && t.pending == None
      && LeastOf(t.ledgers, t.runnable, t.baseline)
  {
    hide Least;
    var t := AfterReceipt(s, model, actual);
    LeastIs(t.ledgers, t.runnable);
  }

  /** A receipt is accepted exactly for the pending candidate, by id and model, when the model has a
      weight; what is missing decides the refusal. */
  lemma RefusalRule(s: State, id: Str, model: Str)
    ensures var matches := exists c :: s.pending == Some(c) && c.id == id && c.model == model;
      var r := ReceiptRefusal(s, id, model);
      && (r == None <==> matches && model in s.weights)
      && (r == Some(UnknownModel) <==> matches && model !in s.weights)
      && (r == Some(NothingPending) <==> s.pending == None)
      && (r == Some(WrongReceipt) <==> s.pending != None && !matches)
  {
    if s.pending.Some? {
      assert s.pending == Some(s.pending.value);
    }
  }

  /** Before the first message every configured model has its weight and a ledger of zero. */
  lemma StartRule(models: seq<ModelConfig>, i: nat)
    requires i < |models| && forall j, k :: 0 <= j < k < |models| ==> models[j].id != models[k].id
    ensures var s := InitialState(models);
      && models[i].id in s.weights && s.weights[models[i].id] == models[i].weight
      && models[i].id in s.ledgers && s.ledgers[models[i].id] == 0.0
      && s.ledgers.Keys == s.weights.Keys
      && s.runnable == {} && s.baseline == 0.0 && s.pending == None
    ensures forall m :: m in InitialState(models).weights <==> exists j :: 0 <= j < |models| && models[j].id == m
  {
    WeightsExactly(models);
  }

  lemma {:induction false} WeightsExactly(models: seq<ModelConfig>)
    requires forall j, k :: 0 <= j < k < |models| ==> models[j].id != models[k].id
    ensures forall j :: 0 <= j < |models| ==>
      models[j].id in WeightsOf(models) && WeightsOf(models)[models[j].id] == models[j].weight
    ensures forall m :: m in WeightsOf(models) <==> exists j :: 0 <= j < |models| && models[j].id == m
  {
    if models != [] {
      WeightsExactly(models[..|models| - 1]);
    }
  }
}
