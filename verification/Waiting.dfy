/** How long a model can wait: a bound in the number of times models become runnable, a run that starves a
    model when they keep doing so, and over a class of runs the exact condition for a bound. */
module Waiting {
  import opened Text
  import opened Outcomes
  import opened Scheduling
  import opened Fairness
  import opened Sums

  /** How many more charges of at least c fit in before a ledger this far behind passes the target. */
  function Quota(gap: real, c: real): (q: int)
    requires c > 0.0
    ensures q >= 0
  {
    if gap < 0.0 then 0
    else
      GapIsNonnegative(gap, c);
      (gap / c).Floor + 1
  }

  lemma GapIsNonnegative(gap: real, c: real)
    requires gap >= 0.0 && c > 0.0
    ensures gap / c >= 0.0
  {
  }

  lemma DivisionIsMonotone(a: real, b: real, c: real)
    requires c > 0.0 && a <= b
    ensures a / c <= b / c
  {
  }

  lemma DivisionStep(a: real, c: real)
    requires c > 0.0
    ensures (a - c) / c == a / c - 1.0
  {
    var d := (a - c) / c - (a / c - 1.0);
    assert d * c == (a - c) / c * c - a / c * c + c;
    assert a / c * c == a && (a - c) / c * c == a - c;
    assert d * c == 0.0;
  }

  lemma ChargeUsesQuota(gap: real, charge: real, c: real)
    requires 0.0 < c <= charge && gap >= 0.0
    ensures Quota(gap - charge, c) <= Quota(gap, c) - 1
  {
    if gap - charge >= 0.0 {
      DivisionIsMonotone(gap - charge, gap - c, c);
      DivisionStep(gap, c);
    }
  }

  /** Charges of at least c that fit into a spread, and one more. */
  function Rounds(spread: real, c: real): (n: int)
    requires spread >= 0.0 && c > 0.0
    ensures n >= 1
  {
    GapIsNonnegative(spread, c);
    (spread / c).Floor + 1
  }

  /** Rounds is the first whole number of charges to pass the spread. */
  lemma RoundsExactly(spread: real, c: real, n: int)
    requires spread >= 0.0 && c > 0.0
    ensures Rounds(spread, c) == n <==> (n - 1) as real * c <= spread < n as real * c
  {
    FitsExactly(spread, c, n - 1);
    FitsExactly(spread, c, n);
  }

  lemma FitsExactly(spread: real, c: real, k: int)
    requires c > 0.0
    ensures k as real * c <= spread <==> k <= (spread / c).Floor
  {
    var q := spread / c;
    QuotientTimes(spread, c);
    if k as real <= q {
      Scales(k as real, q, c);
    } else {
      ScalesStrictly(q, k as real, c);
    }
  }

  lemma QuotientTimes(a: real, c: real)
    requires c > 0.0
    ensures a / c * c == a
  {
  }

  lemma Scales(a: real, b: real, c: real)
    requires c > 0.0 && a <= b
    ensures a * c <= b * c
  {
  }

  lemma ScalesStrictly(a: real, b: real, c: real)
    requires c > 0.0 && a < b
    ensures a * c < b * c
  {
  }

  lemma QuotaIsMonotone(a: real, b: real, c: real)
    requires c > 0.0 && a <= b && b >= 0.0
    ensures Quota(a, c) <= Rounds(b, c)
  {
    GapIsNonnegative(b, c);
    if a >= 0.0 {
      DivisionIsMonotone(a, b, c);
    }
  }

  /** Turns the others can take before the target's ledger is the least. */
  ghost function Potential(l: Ledgers, others: set<Str>, target: real, c: real): (p: int)
    requires others <= l.Keys && c > 0.0
    ensures p >= 0
    decreases others
  {
    if others == {} then 0
    else
      var y :| y in others;
      Quota(target - l[y], c) + Potential(l, others - {y}, target, c)
  }

  lemma {:induction false} PotentialWithout(l: Ledgers, others: set<Str>, target: real, c: real, y: Str)
    requires others <= l.Keys && c > 0.0 && y in others
    ensures Potential(l, others, target, c)
         == Quota(target - l[y], c) + Potential(l, others - {y}, target, c)
    decreases others
  {
    hide Quota;
    var z :| z in others
      && Potential(l, others, target, c)
      == Quota(target - l[z], c) + Potential(l, others - {z}, target, c);
    if z != y {
      PotentialWithout(l, others - {z}, target, c, y);
      PotentialWithout(l, others - {y}, target, c, z);
      assert others - {z} - {y} == others - {y} - {z};
    }
  }

  lemma {:induction false} PotentialAgrees(l: Ledgers, k: Ledgers, others: set<Str>, target: real, c: real)
    requires others <= l.Keys && others <= k.Keys && c > 0.0
    requires forall y :: y in others ==> l[y] == k[y]
    ensures Potential(l, others, target, c) == Potential(k, others, target, c)
    decreases others
  {
    hide Quota;
    if others != {} {
      var y :| y in others;
      PotentialWithout(l, others, target, c, y);
      PotentialWithout(k, others, target, c, y);
      PotentialAgrees(l, k, others - {y}, target, c);
    }
  }

  lemma {:induction false} PotentialIsBounded(l: Ledgers, others: set<Str>, target: real, c: real, spread: real)
    requires others <= l.Keys && c > 0.0 && spread >= 0.0
    requires forall y :: y in others ==> target - l[y] <= spread
    ensures Potential(l, others, target, c) <= |others| * Rounds(spread, c)
    decreases others
  {
    hide Quota, Rounds;
    if others != {} {
      var y :| y in others;
      PotentialWithout(l, others, target, c, y);
      QuotaIsMonotone(target - l[y], spread, c);
      PotentialIsBounded(l, others - {y}, target, c, spread);
      OneMore(|others - {y}|, Rounds(spread, c));
    }
  }

  lemma OneMore(n: int, step: int)
    ensures n * step + step == (n + 1) * step
  {
  }

  lemma {:induction false} PotentialOfUnion(l: Ledgers, a: set<Str>, b: set<Str>, target: real, c: real)
    requires a <= l.Keys && b <= l.Keys && a !! b && c > 0.0
    ensures Potential(l, a + b, target, c) == Potential(l, a, target, c) + Potential(l, b, target, c)
    decreases a
  {
    hide Quota;
    if a == {} {
      assert a + b == b;
    } else {
      var y :| y in a;
      PotentialWithout(l, a, target, c, y);
      PotentialWithout(l, a + b, target, c, y);
      assert (a + b) - {y} == (a - {y}) + b;
      PotentialOfUnion(l, a - {y}, b, target, c);
    }
  }

  // ---- runs that offer a model throughout ----------------------------------------------------

  /** Each turn offers x, selects normally and charges at least c. Other models may come and go. */
  ghost predicate Steady(s: State, turns: seq<Turn>, x: Str, c: real)
    requires PlayableRun(s, turns)
    decreases |turns|
  {
    turns == []
    || (&& x in Offered(turns[0])
        && PlanOf(s, turns[0]).class_ == Normal
        && ChargeOf(s, turns[0]) >= c
        && Steady(Play(s, turns[0]), turns[1..], x, c))
  }

  /** How often a model becomes runnable during the run. */
  ghost function Entries(s: State, turns: seq<Turn>): nat
    requires PlayableRun(s, turns)
    decreases |turns|
  {
    if turns == [] then 0
    else |Offered(turns[0]) - s.runnable| + Entries(Play(s, turns[0]), turns[1..])
  }

  /** The model is selected in some turn of the run. */
  ghost predicate Selected(s: State, turns: seq<Turn>, x: Str)
    requires PlayableRun(s, turns)
    decreases |turns|
  {
    turns != []
    && ((PlanOf(s, turns[0]).selected.Some? && PlanOf(s, turns[0]).selected.value.model == x)
        || Selected(Play(s, turns[0]), turns[1..], x))
  }

  lemma SplitAround(runnable: set<Str>, offered: set<Str>, x: Str)
    requires x in runnable
    ensures offered - {x} == (offered * runnable - {x}) + (offered - runnable)
    ensures runnable - {x} == (offered * runnable - {x}) + (runnable - offered - {x})
  {
  }

  /** Models that stay keep their share of the measure, models that enter add a bounded one. */
  lemma EnteringAddsPotential(l: Ledgers, a: Ledgers, runnable: set<Str>, offered: set<Str>, x: Str, target: real,
      c: real, spread: real)
    requires runnable <= l.Keys && offered <= a.Keys && c > 0.0 && spread >= 0.0 && x in runnable
    requires forall m :: m in offered * runnable ==> a[m] == l[m]
    requires forall m :: m in offered - runnable ==> target - a[m] <= spread
    ensures Potential(a, offered - {x}, target, c)
         <= Potential(l, runnable - {x}, target, c) + |offered - runnable| * Rounds(spread, c)
  {
    hide Quota, Potential, Rounds;
    var stay, enter, leave := offered * runnable - {x}, offered - runnable, runnable - offered - {x};
    SplitAround(runnable, offered, x);
    PotentialOfUnion(a, stay, enter, target, c);
    PotentialIsBounded(a, enter, target, c, spread);
    PotentialAgrees(a, l, stay, target, c);
    PotentialOfUnion(l, stay, leave, target, c);
  }

  lemma AlignmentAddsPotential(s: State, t: Turn, x: Str, c: real, spread: real)
    requires Playable(s, t) && x in s.runnable && x in Offered(t) && c > 0.0 && spread >= 0.0
    requires s.ledgers[x] - s.baseline <= spread
    ensures var a := Aligned(s, t);
      && Offered(t) <= a.ledgers.Keys && a.ledgers[x] == s.ledgers[x]
      && Potential(a.ledgers, Offered(t) - {x}, s.ledgers[x], c)
         <= Potential(s.ledgers, s.runnable - {x}, s.ledgers[x], c)
            + |Offered(t) - s.runnable| * Rounds(spread, c)
  {
    hide Planned, Synced, Potential, Offered, Rounds;
    AlignmentIsLevel(s, t);
    EnteringAddsPotential(s.ledgers, Aligned(s, t).ledgers, s.runnable, Offered(t), x, s.ledgers[x], c, spread);
  }

  lemma TurnUsesPotential(s: State, t: Turn, x: Str, c: real, spread: real)
    requires Playable(s, t) && x in s.runnable && x in Offered(t) && c > 0.0 && spread >= 0.0
    requires PlanOf(s, t).class_ == Normal && ChargeOf(s, t) >= c
    requires PlanOf(s, t).selected.Some? && PlanOf(s, t).selected.value.model != x
    requires s.ledgers[x] - s.baseline <= spread
    ensures var r := Play(s, t);
      && Idle(r) && x in r.runnable && r.ledgers[x] == s.ledgers[x] && r.baseline >= s.baseline
      && Potential(r.ledgers, r.runnable - {x}, r.ledgers[x], c)
         < Potential(s.ledgers, s.runnable - {x}, s.ledgers[x], c)
           + |Offered(t) - s.runnable| * Rounds(spread, c)
  {
    hide Planned, PlanOf, ChargeOf, Play, Synced, Quota, Potential, Rounds;
    var r, y := Play(s, t), PlanOf(s, t).selected.value.model;
    PlayFields(s, t);
    SelectedIsOffered(s, t);
    AlignmentIsLevel(s, t);
    BaselineRises(s, t);
    AlignmentAddsPotential(s, t, x, c, spread);
    ChargeUsesPotential(s, t, x, c);
  }

  lemma ChargeUsesPotential(s: State, t: Turn, x: Str, c: real)
    requires Playable(s, t) && x in s.runnable && x in Offered(t) && c > 0.0
    requires PlanOf(s, t).class_ == Normal && ChargeOf(s, t) >= c
    requires PlanOf(s, t).selected.Some? && PlanOf(s, t).selected.value.model != x
    ensures var (r, a) := (Play(s, t), Aligned(s, t));
      && Offered(t) <= r.ledgers.Keys && Offered(t) <= a.ledgers.Keys
      && Potential(r.ledgers, Offered(t) - {x}, s.ledgers[x], c)
         < Potential(a.ledgers, Offered(t) - {x}, s.ledgers[x], c)
  {
    hide Planned, PlanOf, ChargeOf, Play, Synced, Quota, Potential;
    var r, a, y := Play(s, t), Aligned(s, t), PlanOf(s, t).selected.value.model;
    var others, target := Offered(t) - {x}, s.ledgers[x];
    PlayFields(s, t);
    SelectedIsOffered(s, t);
    AlignmentIsLevel(s, t);
    NormalSelectsLeast(s, t);
    assert IsLeast(a.ledgers, Offered(t), a.baseline);
    assert a.ledgers[y] <= target;
    PotentialWithout(a.ledgers, others, target, c, y);
    PotentialWithout(r.ledgers, others, target, c, y);
    PotentialAgrees(a.ledgers, r.ledgers, others - {y}, target, c);
    ChargeUsesQuota(target - a.ledgers[y], ChargeOf(s, t), c);
  }

  lemma {:induction false} UnselectedRunIsShort(s: State, turns: seq<Turn>, x: Str, c: real, spread: real)
    requires PlayableRun(s, turns) && Idle(s) && Steady(s, turns, x, c) && c > 0.0 && spread >= 0.0
    requires x in s.runnable && s.ledgers[x] - s.baseline <= spread && !Selected(s, turns, x)
    ensures |turns| <= Potential(s.ledgers, s.runnable - {x}, s.ledgers[x], c)
                       + Entries(s, turns) * Rounds(spread, c)
    decreases |turns|
  {
    hide Play, PlanOf, ChargeOf, Potential, Playable, Rounds, Offered, Least, IsLeast;
    if turns != [] {
      var r, rest := Play(s, turns[0]), turns[1..];
      SelectedIsOffered(s, turns[0]);
      TurnUsesPotential(s, turns[0], x, c, spread);
      UnselectedRunIsShort(r, rest, x, c, spread);
      AddTurn(|rest|, Potential(s.ledgers, s.runnable - {x}, s.ledgers[x], c),
        Potential(r.ledgers, r.runnable - {x}, r.ledgers[x], c), |Offered(turns[0]) - s.runnable|,
        Entries(r, rest), Rounds(spread, c));
    } else {
      AddTurn(0, Potential(s.ledgers, s.runnable - {x}, s.ledgers[x], c) + 1, 0, 0, 0, Rounds(spread, c));
    }
  }

  lemma AddTurn(length: int, before: int, after: int, entered: int, later: int, rounds: int)
    requires length <= after + later * rounds && after < before + entered * rounds
    ensures length + 1 <= before + (entered + later) * rounds
  {
    assert (entered + later) * rounds == entered * rounds + later * rounds;
  }

  /** In an all-normal run that offers a model throughout, from ledgers within a spread and with charges
      of at least c, the model is selected within (n - 1 + E) * (floor(spread / c) + 1) + 1 turns, where n
      models are runnable at the start and E counts how often a model becomes runnable on the way. */
  lemma WaitingIsBounded(s: State, turns: seq<Turn>, x: Str, c: real, spread: real)
    requires PlayableRun(s, turns) && Idle(s) && Steady(s, turns, x, c)
    requires c > 0.0 && spread >= 0.0 && x in s.runnable
    requires forall y :: y in s.runnable ==> s.ledgers[x] - s.ledgers[y] <= spread
    requires |turns| >= (|s.runnable| - 1 + Entries(s, turns)) * Rounds(spread, c) + 1
    ensures Selected(s, turns, x)
  {
    hide PlayableRun, Steady, Selected, Potential, Entries;
    assert |s.runnable - {x}| == |s.runnable| - 1;
    assert IsLeast(s.ledgers, s.runnable, s.baseline);
    PotentialIsBounded(s.ledgers, s.runnable - {x}, s.ledgers[x], c, spread);
    var n, e, rounds := |s.runnable| - 1, Entries(s, turns), Rounds(spread, c);
    assert (n + e) * rounds == n * rounds + e * rounds;
    if !Selected(s, turns, x) {
      UnselectedRunIsShort(s, turns, x, c, spread);
    }
  }

  /** While the same n models stay runnable nothing enters, and the bound has no E. */
  lemma WaitingWhileStable(s: State, turns: seq<Turn>, x: Str, c: real, spread: real)
    requires PlayableRun(s, turns) && Idle(s) && Steady(s, turns, x, c)
    requires forall i :: 0 <= i < |turns| ==> Offered(turns[i]) == s.runnable
    requires c > 0.0 && spread >= 0.0 && x in s.runnable
    requires forall y :: y in s.runnable ==> s.ledgers[x] - s.ledgers[y] <= spread
    requires |turns| >= (|s.runnable| - 1) * Rounds(spread, c) + 1
    ensures Selected(s, turns, x)
  {
    hide PlayableRun, Steady, Selected, Entries;
    StableHasNoEntries(s, turns);
    WaitingIsBounded(s, turns, x, c, spread);
  }

  lemma {:induction false} StableHasNoEntries(s: State, turns: seq<Turn>)
    requires PlayableRun(s, turns) && forall i :: 0 <= i < |turns| ==> Offered(turns[i]) == s.runnable
    ensures Entries(s, turns) == 0
    decreases |turns|
  {
    hide Play, Offered;
    if turns != [] {
      PlayFields(s, turns[0]);
      StableHasNoEntries(Play(s, turns[0]), turns[1..]);
    }
  }

  /** A model that has just become runnable is level with the baseline, so no spread counts against it:
      it is selected within as many turns as models are offered beside it and enter after it. */
  lemma WaitingAfterEntry(s: State, turns: seq<Turn>, x: Str, c: real)
    requires PlayableRun(s, turns) && Idle(s) && Steady(s, turns, x, c) && c > 0.0
    requires x !in s.runnable && turns != []
    requires |turns| > |Offered(turns[0])| + Entries(Play(s, turns[0]), turns[1..])
    ensures Selected(s, turns, x)
  {
    hide Planned, PlanOf, ChargeOf, Synced, Play, Consistent, Entries;
    var t, r := turns[0], Play(s, turns[0]);
    SelectedIsOffered(s, t);
    if PlanOf(s, t).selected.value.model != x {
      PlayFields(s, t);
      AlignmentIsLevel(s, t);
      BaselineRises(s, t);
      EnteredIsLevel(r, x);
      assert Rounds(0.0, c) == 1;
      WaitingIsBounded(r, turns[1..], x, c, 0.0);
    }
  }

  lemma EnteredIsLevel(r: State, x: Str)
    requires Idle(r) && x in r.runnable && r.ledgers[x] <= r.baseline
    ensures forall y :: y in r.runnable ==> r.ledgers[x] - r.ledgers[y] <= 0.0
  {
    assert IsLeast(r.ledgers, r.runnable, r.baseline);
  }

  // ---- exactly when waiting is bounded -------------------------------------------------------

  /** A run during which x waits. */
  datatype Wait = Wait(start: State, turns: seq<Turn>)

  ghost predicate IsWait(w: Wait, x: Str, c: real, spread: real, models: nat) {
    && PlayableRun(w.start, w.turns) && Idle(w.start) && |w.start.weights.Keys| <= models
    && w.start.runnable <= w.start.weights.Keys
    && Steady(w.start, w.turns, x, c) && !Selected(w.start, w.turns, x)
    && x in w.start.runnable && w.start.ledgers[x] - w.start.baseline <= spread
  }

  ghost predicate LengthsWithin(waits: iset<Wait>, bound: nat) {
    forall w :: w in waits ==> |w.turns| <= bound
  }

  ghost predicate EntriesWithin(waits: iset<Wait>, bound: nat) {
    forall w :: w in waits ==> PlayableRun(w.start, w.turns) && Entries(w.start, w.turns) <= bound
  }

  /** Over any class of waits, with the number of models, the spread and the least charge fixed, waiting
      is bounded if and only if the number of times models become runnable is. */
  lemma WaitingIsBoundedExactly(waits: iset<Wait>, x: Str, c: real, spread: real, models: nat)
    requires c > 0.0 && spread >= 0.0
    requires forall w :: w in waits ==> IsWait(w, x, c, spread, models)
    ensures (exists bound: nat :: LengthsWithin(waits, bound)) <==> (exists bound: nat :: EntriesWithin(waits, bound))
  {
    hide PlayableRun, Steady, Selected, Entries, Potential, Consistent;
    if bound: nat :| LengthsWithin(waits, bound) {
      forall w | w in waits ensures Entries(w.start, w.turns) <= models * bound {
        EntriesPerTurn(w.start, w.turns, models);
        assert models * |w.turns| <= models * bound;
      }
      assert EntriesWithin(waits, models * bound);
    }
    if bound: nat :| EntriesWithin(waits, bound) {
      forall w | w in waits ensures |w.turns| <= (models + bound) * Rounds(spread, c) {
        WaitIsShort(w, x, c, spread, models, bound);
      }
      assert LengthsWithin(waits, (models + bound) * Rounds(spread, c));
    }
  }

  lemma WaitIsShort(w: Wait, x: Str, c: real, spread: real, models: nat, bound: nat)
    requires c > 0.0 && spread >= 0.0 && IsWait(w, x, c, spread, models)
    requires Entries(w.start, w.turns) <= bound
    ensures |w.turns| <= (models + bound) * Rounds(spread, c)
  {
    hide PlayableRun, Steady, Selected, Potential, Entries, Rounds;
    var s := w.start;
    assert IsLeast(s.ledgers, s.runnable, s.baseline);
    PotentialIsBounded(s.ledgers, s.runnable - {x}, s.ledgers[x], c, spread);
    UnselectedRunIsShort(s, w.turns, x, c, spread);
    SubsetIsSmaller(s.runnable - {x}, s.weights.Keys);
    WithinProduct(|w.turns|, |s.runnable - {x}|, Entries(s, w.turns), models, bound, Rounds(spread, c));
  }

  lemma WithinProduct(length: nat, n: nat, e: nat, models: nat, bound: nat, rounds: nat)
    requires length <= n * rounds + e * rounds && n <= models && e <= bound
    ensures length <= (models + bound) * rounds
  {
    assert n * rounds + e * rounds == (n + e) * rounds <= (models + bound) * rounds;
  }

  lemma {:induction false} EntriesPerTurn(s: State, turns: seq<Turn>, models: nat)
    requires PlayableRun(s, turns) && |s.weights.Keys| <= models
    ensures Entries(s, turns) <= models * |turns|
    decreases |turns|
  {
    hide Play, Offered, Synced, Consistent, PlanOf, ChargeOf;
    if turns != [] {
      TurnEnters(s, turns[0]);
      EntriesPerTurn(Play(s, turns[0]), turns[1..], models);
      assert models * (|turns[1..]| + 1) == models * |turns[1..]| + models;
    }
  }

  lemma TurnEnters(s: State, t: Turn)
    requires Playable(s, t)
    ensures Play(s, t).weights == s.weights && |Offered(t) - s.runnable| <= |s.weights.Keys|
  {
    hide Play, Offered, Synced, Consistent;
    PlayFields(s, t);
    SubsetIsSmaller(Offered(t) - s.runnable, s.weights.Keys);
  }

  // ---- an unstable runnable set starves ------------------------------------------------------

  /** A normal candidate with no timing obligation, named after its model. */
  function Plain(model: Str): Candidate {
    Candidate(model, model, 1, 0, None, true, true, true, true)
  }

  const FIRST: Str := [0x61]
  const SECOND: Str := [0x62]
  const VICTIM: Str := [0x63]

  function Partner(odd: bool): Str {
    if odd then SECOND else FIRST
  }

  /** Two partners take turns leaving and coming back beside the victim. */
  function Alternating(n: nat, odd: bool): seq<Turn> {
    if n == 0 then []
    else [Turn(0, [Plain(Partner(odd)), Plain(VICTIM)], 1)] + Alternating(n - 1, !odd)
  }

  ghost predicate Starving(s: State, next: Str) {
    && Idle(s) && s.baseline == 0.0
    && (forall m :: m in {FIRST, SECOND, VICTIM} ==> m in s.weights && s.weights[m] == 1)
    && next !in s.runnable
    && (s.runnable != {} ==> VICTIM in s.runnable && s.ledgers[VICTIM] == 0.0)
  }

  lemma PairEligible(p: Candidate, q: Candidate)
    requires p.Eligible() && q.Eligible()
    ensures Eligibles([p, q]) == [p, q] && Models([p, q]) == {p.model, q.model}
  {
    assert [p, q][..1] == [p];
    assert [p][..0] == [];
    assert Eligibles([p]) == [p];
    var ms := Models([p, q]);
    assert [p, q][0].model in ms && [p, q][1].model in ms;
  }

  lemma PairNotUrgent(p: Candidate, q: Candidate, now: int)
    requires p.obligation.None? && q.obligation.None?
    ensures Urgents([p, q], now) == []
  {
    UrgentsMembers([p, q], now);
    NonemptyTogether(Urgents([p, q], now), []);
  }

  lemma StarvingTurn(s: State, odd: bool)
    requires Starving(s, Partner(odd))
    ensures var t := Alternating(1, odd)[0];
      && Playable(s, t) && VICTIM in Offered(t) && Partner(odd) in Offered(t) - s.runnable
      && PlanOf(s, t).class_ == Normal && ChargeOf(s, t) == 1.0
      && PlanOf(s, t).selected == Some(Plain(Partner(odd)))
      && Starving(Play(s, t), Partner(!odd)) && VICTIM in Play(s, t).runnable
      && Play(s, t).weights == s.weights && Play(s, t).runnable <= s.weights.Keys
  {
    var p, v := Plain(Partner(odd)), Plain(VICTIM);
    var t := Turn(0, [p, v], 1);
    PairEligible(p, v);
    PairNotUrgent(p, v, 0);
    hide Synced, Planned, PlanOf, ChargeOf, Play, Eligibles, Urgents, Models;
    assert Alternating(1, odd)[0] == t;
    assert Offered(t) == {p.model, VICTIM};
    StarvingAligned(s, t, odd);
    StarvingPlan(s, t, odd);
    StarvingPlay(s, t, odd);
  }

  lemma StarvingAligned(s: State, t: Turn, odd: bool)
    requires Starving(s, Partner(odd)) && Offered(t) == {Partner(odd), VICTIM}
    ensures Playable(s, t) || t.actual < 0
    ensures var a := Aligned(s, t);
      && a.baseline == 0.0 && a.ledgers[VICTIM] == 0.0 && a.ledgers[Partner(odd)] == 0.0
  {
    hide Synced;
    AlignmentIsLevel(s, t);
    var continuing := Offered(t) * s.runnable;
    if continuing != {} {
      assert continuing == {VICTIM};
      assert IsLeast(s.ledgers, continuing, Alignment(s, Offered(t)));
    }
  }

  lemma StarvingPlan(s: State, t: Turn, odd: bool)
    requires Idle(s) && t == Turn(0, [Plain(Partner(odd)), Plain(VICTIM)], 1)
    requires Eligibles(t.candidates) == t.candidates && Urgents(t.candidates, 0) == []
    requires Models(t.candidates) == {Partner(odd), VICTIM} == Offered(t)
    requires Aligned(s, t).ledgers[VICTIM] == 0.0 == Aligned(s, t).ledgers[Partner(odd)]
    ensures PlanOf(s, t).class_ == Normal && PlanOf(s, t).selected == Some(Plain(Partner(odd)))
  {
    hide Synced, Eligibles, Urgents;
    var p, v := Plain(Partner(odd)), Plain(VICTIM);
    var l := Aligned(s, t).ledgers;
    assert [p, v][..1] == [p];
    assert Less(Partner(odd), VICTIM);
    assert KeyLess(KeyOf(Normal, l, p), KeyOf(Normal, l, v));
    LessIsAsymmetric(Partner(odd), VICTIM);
    assert LeastIndex(Normal, l, [p, v]) == 0;
  }

  lemma StarvingPlay(s: State, t: Turn, odd: bool)
    requires Starving(s, Partner(odd)) && Playable(s, t) && t.actual == 1
    requires Offered(t) == {Partner(odd), VICTIM}
    requires PlanOf(s, t).selected == Some(Plain(Partner(odd)))
    requires var a := Aligned(s, t); a.ledgers[VICTIM] == 0.0 && a.ledgers[Partner(odd)] == 0.0
    ensures ChargeOf(s, t) == 1.0
    ensures Starving(Play(s, t), Partner(!odd)) && Play(s, t).runnable == Offered(t)
    ensures Play(s, t).weights == s.weights
  {
    hide Synced, Planned, PlanOf, Play;
    PlayFields(s, t);
    var r := Play(s, t);
    assert IsLeast(r.ledgers, r.runnable, r.baseline);
    assert r.ledgers[VICTIM] == 0.0 && r.ledgers[Partner(odd)] == 1.0;
  }

  /** An all-normal run, every charge exactly one, that offers the victim in every turn without selecting
      it, while a model becomes runnable in each. */
  ghost predicate Starves(s: State, turns: seq<Turn>) {
    && PlayableRun(s, turns) && OfferedThroughout(turns, VICTIM)
    && AllNormal(s, turns) && NormalsWithin(s, turns, 1.0) && Steady(s, turns, VICTIM, 1.0)
    && Entries(s, turns) >= |turns|
    && !Selected(s, turns, VICTIM)
  }

  lemma {:induction false} AlternationStarves(s: State, n: nat, odd: bool)
    requires Starving(s, Partner(odd))
    ensures Starves(s, Alternating(n, odd)) && |Alternating(n, odd)| == n
    decreases n
  {
    hide Play, PlanOf, ChargeOf, Consistent, Playable, Offered;
    if n > 0 {
      AlternatingStep(n, odd);
      StarvingTurn(s, odd);
      AlternationStarves(Play(s, Alternating(1, odd)[0]), n - 1, !odd);
    }
  }

  lemma AlternatingStep(n: nat, odd: bool)
    requires n > 0
    ensures Alternating(1, odd) != [] && Alternating(n, odd) == [Alternating(1, odd)[0]] + Alternating(n - 1, !odd)
  {
  }

  const TRIO := [ModelConfig(FIRST, 1), ModelConfig(SECOND, 1), ModelConfig(VICTIM, 1)]

  lemma TrioStarves()
    ensures Starving(InitialState(TRIO), Partner(false)) && InitialState(TRIO).weights.Keys == {FIRST, SECOND, VICTIM}
  {
    assert TRIO[..2] == [ModelConfig(FIRST, 1), ModelConfig(SECOND, 1)];
    assert TRIO[..2][..1] == [ModelConfig(FIRST, 1)];
    assert TRIO[..2][..1][..0] == [];
    assert WeightsOf(TRIO[..2][..1]) == map[FIRST := 1];
    assert WeightsOf(TRIO[..2]) == map[FIRST := 1, SECOND := 1];
    assert WeightsOf(TRIO) == map[FIRST := 1, SECOND := 1, VICTIM := 1];
  }

  /** Entries do go unbounded, and with them waiting. For every length there is an all-normal run from the
      start, with every charge exactly one and a model becoming runnable in every turn, that offers a model
      throughout and never selects it; after its first turn it is a wait of any length without spread. */
  lemma WaitingIsUnboundedWhenUnstable(n: nat)
    ensures exists turns :: |turns| == n && Starves(InitialState(TRIO), turns)
    ensures exists w :: IsWait(w, VICTIM, 1.0, 0.0, 3) && |w.turns| == n && Entries(w.start, w.turns) >= n
  {
    hide Starving, Starves, InitialState, Alternating, IsWait, Entries;
    TrioStarves();
    AlternationStarves(InitialState(TRIO), n, false);
    var w := StarvingWait(n);
  }

  /** The run after its first turn, when the victim has become runnable. */
  lemma StarvingWait(n: nat) returns (w: Wait)
    ensures IsWait(w, VICTIM, 1.0, 0.0, 3) && |w.turns| == n && Entries(w.start, w.turns) >= n
  {
    hide PlayableRun, Steady, Entries, Selected, InitialState, Play, Alternating, PlanOf, ChargeOf, NormalsWithin;
    var s := InitialState(TRIO);
    TrioStarves();
    AlternatingStep(1, false);
    StarvingTurn(s, false);
    var r := Play(s, Alternating(1, false)[0]);
    AlternationStarves(r, n, true);
    TrioIsThree(r.weights.Keys);
    w := Wait(r, Alternating(n, true));
  }

  lemma TrioIsThree(keys: set<Str>)
    requires keys == {FIRST, SECOND, VICTIM}
    ensures |keys| <= 3
  {
  }

  /** So the class of all waits with three models, unit charges and no spread has no bound. */
  lemma AllWaitsAreUnbounded(bound: nat)
    ensures var all := iset w | IsWait(w, VICTIM, 1.0, 0.0, 3);
      !LengthsWithin(all, bound) && !EntriesWithin(all, bound)
  {
    hide IsWait, Entries, PlayableRun;
    var all := iset w | IsWait(w, VICTIM, 1.0, 0.0, 3);
    var w := StarvingWait(bound + 1);
    assert w in all;
  }
}
