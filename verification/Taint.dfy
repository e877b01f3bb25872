/** The absorbing fixture-taint interlock of one run: provenance is frozen before any lane work and
    revalidated against a seam that lane runners may change at will. */
module Taint {
  import opened Text
  import opened Outcomes
  import opened Listings
  import opened Provenance

  // ---- lane results --------------------------------------------------------------------------

  /** The statuses the report ranks, and any other string a runner may put in its result. */
  datatype LaneStatus =
    | Passed
    | InfrastructureFailed
    | ContractFailed
    | GateFailed
    | EnvironmentUnavailable
    | Unsupported
    | Unlisted(name: Str)

  function Severity(s: LaneStatus): nat {
    match s
    case InfrastructureFailed => 5
    case ContractFailed => 4
    case GateFailed => 3
    case EnvironmentUnavailable => 2
    case Unsupported => 1
    case _ => 0
  }

  /** The most severe listed status present. A status outside the list counts as passed. */
  function StatusForResults(statuses: seq<LaneStatus>): (r: LaneStatus)
    ensures forall s <- statuses :: Severity(s) <= Severity(r)
    ensures r == Passed || r in statuses
    ensures r == Passed <==> forall s <- statuses :: Severity(s) == 0
  {
    if InfrastructureFailed in statuses then InfrastructureFailed
    else if ContractFailed in statuses then ContractFailed
    else if GateFailed in statuses then GateFailed
    else if EnvironmentUnavailable in statuses then EnvironmentUnavailable
    else if Unsupported in statuses then Unsupported
    else Passed
  }

  /** Of two listed statuses the one further down never wins over the one further up, and some listed
      status wins when any is present. */
  lemma WorstStatusWins(statuses: seq<LaneStatus>)
    ensures var order := [InfrastructureFailed, ContractFailed, GateFailed, EnvironmentUnavailable, Unsupported];
      var r := StatusForResults(statuses);
      && (forall i, j :: 0 <= i < j < 5 && order[i] in statuses ==> r != order[j])
      && ((exists i :: 0 <= i < 5 && order[i] in statuses) ==> r in order && r in statuses)
      && ((forall i :: 0 <= i < 5 ==> order[i] !in statuses) ==> r == Passed)
  {
    var order := [InfrastructureFailed, ContractFailed, GateFailed, EnvironmentUnavailable, Unsupported];
    assert order[0] == InfrastructureFailed && order[1] == ContractFailed && order[2] == GateFailed;
    assert order[3] == EnvironmentUnavailable && order[4] == Unsupported;
  }

  // ---- claimability --------------------------------------------------------------------------

  datatype FullStatus = NotClaimableFixture | NotEvaluated | FullPassed | FullFailed

  /** Fail-closed: taint is looked at before everything else, and a state that does not agree with
      itself is refused, not read as clean. */
  method ResolveFullImplementationStatus(tag: Value, fixtureIds: Value, known: set<Str>,
      fixtureSubject: bool, allRequiredSelected: bool, aggregate: LaneStatus, evidenceValid: bool,
      sourceMatches: bool)
    returns (r: Result<FullStatus, Trouble>)
    ensures r.Ok? <==> exists taint, ids :: Accepted(tag, fixtureIds, taint, ids, known)
    ensures r.Ok? ==> (r.value == NotClaimableFixture <==> tag == TextValue(FIXTURE_TAINTED) || fixtureSubject)
    ensures r.Ok? ==> (r.value == NotEvaluated <==>
      tag == TextValue(CLEAN) && !fixtureSubject && !allRequiredSelected)
    ensures r.Ok? ==> (r.value == FullFailed <==>
      && tag == TextValue(CLEAN) && !fixtureSubject && allRequiredSelected
      && (aggregate != Passed || !evidenceValid || !sourceMatches))
    ensures r.Ok? ==> (r.value == FullPassed <==>
      && tag == TextValue(CLEAN) && !fixtureSubject && allRequiredSelected
      && aggregate == Passed && evidenceValid && sourceMatches)
    ensures r.Ok? ==> r.value == FullStatusOf(
      if tag == TextValue(CLEAN) then Clean else FixtureTainted,
      fixtureSubject, allRequiredSelected, aggregate, evidenceValid, sourceMatches)
  {
    TagsDiffer();
    var taint :- ValidateFixtureTaintState(tag, fixtureIds, known);
    var tainted := taint == FixtureTainted;
    var implementationPassed :=
      !tainted && !fixtureSubject && allRequiredSelected && aggregate == Passed && evidenceValid && sourceMatches;
    if tainted || fixtureSubject {
      return Ok(NotClaimableFixture);
    }
    if !allRequiredSelected {
      return Ok(NotEvaluated);
    }
    if implementationPassed {
      return Ok(FullPassed);
    }
    return Ok(FullFailed);
  }

  function FullStatusOf(taint: Taint, fixtureSubject: bool, allRequiredSelected: bool, aggregate: LaneStatus,
      evidenceValid: bool, sourceMatches: bool): FullStatus
  {
    if taint == FixtureTainted || fixtureSubject then NotClaimableFixture
    else if !allRequiredSelected then NotEvaluated
    else if aggregate == Passed && evidenceValid && sourceMatches then FullPassed
    else FullFailed
  }

  // ---- what may happen in a lane -------------------------------------------------------------

  datatype Raised = ContractError | OsOrRuntimeError | OtherException

  datatype Early = CertificationInvalid | ThresholdsIncomplete | NoAdapter | WrongCategory | InputsMissing

  datatype Opening = Proceeds | NotSupported | OpeningRaises(raised: Raised)

  datatype Ending = Returns(status: LaneStatus) | Raises(raised: Raised)

  /** Everything about one lane that the interlock does not decide: failures around the subject, what
      the seam holds when the lane is bound and again when its runner stops, which case starts the
      runner marks, and how it stops. */
  datatype LaneScript = LaneScript(
    early: Option<Early>,
    enter: Option<Raised>,
    opening: Opening,
    seamAtBind: Seam,
    seamAfter: Seam,
    starts: set<Str>,
    ending: Ending,
    finish: Option<Raised>,
    exit: Option<Raised>)

  function EarlyStatus(e: Early): LaneStatus {
    match e
    case NoAdapter => Unsupported
    case InputsMissing => EnvironmentUnavailable
    case _ => ContractFailed
  }

  /** The normalisation of whatever the lane raised. */
  function Normalised(r: Result<LaneStatus, Raised>): LaneStatus {
    match r
    case Ok(status) => status
    case Err(ContractError) => ContractFailed
    case Err(_) => InfrastructureFailed
  }

  // ---- specification of the interlock --------------------------------------------------------

  type Snapshot = seq<(Str, Provenance)>

  /** The ids that looking a lane up now puts into the taint. */
  function Seen(registry: Registry, seam: Seam, lane: Str): set<Str> {
    var p := Resolve(registry, seam, lane);
    if p.Ok? then p.value.Ids() else {}
  }

  function Rebound(registry: Registry, seam: Seam, lane: Str, frozen: Provenance, started: bool)
    : Result<(), Trouble>
  {
    match Resolve(registry, seam, lane)
    case Err(e) => Err(e)
    case Ok(current) =>
      if current == frozen then Ok(())
      else if current.BenchmarkFixture? then Err(if started then LateSelection else ChangedSelection)
      else Err(SelectionDisagrees)
  }

  predicate Agrees(registry: Registry, seam: Seam, entry: (Str, Provenance)) {
    Resolve(registry, seam, entry.0) == Ok(entry.1)
  }

  predicate AllAgree(registry: Registry, seam: Seam, frozen: Snapshot) {
    forall i :: 0 <= i < |frozen| ==> Agrees(registry, seam, frozen[i])
  }

  /** Revalidation stops at the first lane that disagrees, after that lane has tainted the run. */
  function SeenInOrder(registry: Registry, seam: Seam, frozen: Snapshot): set<Str> {
    if frozen == [] then {}
    else
      Seen(registry, seam, frozen[0].0)
      + if Agrees(registry, seam, frozen[0]) then SeenInOrder(registry, seam, frozen[1..]) else {}
  }

  function Revalidated(registry: Registry, seam: Seam, frozen: Snapshot, started: bool): Result<(), Trouble> {
    if frozen == [] then Ok(())
    else
      var first := Rebound(registry, seam, frozen[0].0, frozen[0].1, started);
      if first.Err? then first else Revalidated(registry, seam, frozen[1..], started)
  }

  lemma {:induction false} RevalidatedMeansAllAgree(registry: Registry, seam: Seam, frozen: Snapshot, started: bool)
    ensures Revalidated(registry, seam, frozen, started).Ok? <==> AllAgree(registry, seam, frozen)
  {
    if frozen != [] {
      RevalidatedMeansAllAgree(registry, seam, frozen[1..], started);
      assert forall i :: 0 <= i < |frozen| - 1 ==> frozen[1..][i] == frozen[i + 1];
      assert forall i :: 0 < i < |frozen| ==> frozen[i] == frozen[1..][i - 1];
      assert Agrees(registry, seam, frozen[0]) <==> Rebound(registry, seam, frozen[0].0, frozen[0].1, started).Ok?;
    }
  }

  lemma ReboundMeansAgrees(registry: Registry, seam: Seam, entry: (Str, Provenance), started: bool)
    ensures Rebound(registry, seam, entry.0, entry.1, started).Ok? <==> Agrees(registry, seam, entry)
  {
    hide Resolve;
  }

  /** Work that reaches the binding of the lane context. */
  predicate Dispatches(s: LaneScript) {
    s.early.None? && s.enter.None? && s.opening.Proceeds?
  }

  function LaneBody(registry: Registry, frozen: Snapshot, entry: (Str, Provenance), s: LaneScript)
    : Result<LaneStatus, Raised>
  {
    match s.opening
    case OpeningRaises(raised) => Err(raised)
    case NotSupported => if s.finish.Some? then Err(s.finish.value) else Ok(Unsupported)
    case Proceeds =>
      if !Agrees(registry, s.seamAtBind, entry) then Err(ContractError)
      else if !AllAgree(registry, s.seamAfter, frozen) then Err(ContractError)
      else if s.ending.Raises? then Err(s.ending.raised)
      else if s.finish.Some? then Err(s.finish.value)
      else Ok(s.ending.status)
  }

  lemma LaneCases(registry: Registry, frozen: Snapshot, entry: (Str, Provenance), s: LaneScript)
    requires Dispatches(s)
    ensures !Agrees(registry, s.seamAtBind, entry) ==>
      && LaneBody(registry, frozen, entry, s.(finish := None)) == Err(ContractError)
      && LaneIds(registry, frozen, entry, s) == Seen(registry, s.seamAtBind, entry.0)
    ensures Agrees(registry, s.seamAtBind, entry) ==>
      && LaneIds(registry, frozen, entry, s)
         == Seen(registry, s.seamAtBind, entry.0) + SeenInOrder(registry, s.seamAfter, frozen)
      && LaneBody(registry, frozen, entry, s.(finish := None)) == (
           if !AllAgree(registry, s.seamAfter, frozen) then Err(ContractError)
           else match s.ending
             case Returns(status) => Ok(status)
             case Raises(raised) => Err(raised))
  {
    hide Agrees, AllAgree, Seen, SeenInOrder;
  }

  lemma NotDispatched(registry: Registry, frozen: Snapshot, entry: (Str, Provenance), s: LaneScript)
    ensures !Dispatches(s) ==> LaneIds(registry, frozen, entry, s) == {}
  {
  }

  function LaneStatusOf(registry: Registry, frozen: Snapshot, entry: (Str, Provenance), s: LaneScript): LaneStatus {
    if s.early.Some? then EarlyStatus(s.early.value)
    else if s.enter.Some? then Normalised(Err(s.enter.value))
    else if s.exit.Some? then Normalised(Err(s.exit.value))
    else Normalised(LaneBody(registry, frozen, entry, s))
  }

  function LaneIds(registry: Registry, frozen: Snapshot, entry: (Str, Provenance), s: LaneScript): set<Str> {
    if !Dispatches(s) then {}
    else
      Seen(registry, s.seamAtBind, entry.0)
      + if Agrees(registry, s.seamAtBind, entry) then SeenInOrder(registry, s.seamAfter, frozen) else {}
  }

  // ---- the controller ------------------------------------------------------------------------

  class SelectionSeam {
    var bindings: Seam

    constructor (bindings: Seam)
      ensures this.bindings == bindings
    {
      this.bindings := bindings;
    }
  }

  class CaseStartMonitor {
    var startedLanes: set<Str>

    constructor ()
      ensures startedLanes == {}
    {
      startedLanes := {};
    }

    predicate FirstCaseStarted()
      reads this
    {
      startedLanes != {}
    }
  }

  datatype Report = Report(
    statuses: seq<LaneStatus>,
    aggregate: LaneStatus,
    taint: Taint,
    fixtureIds: seq<Str>,
    full: FullStatus)
  {
    predicate Claimable() {
      full == FullPassed
    }
  }

  /** The facts about a run that are settled outside the interlock. */
  datatype Setting = Setting(required: set<Str>, fixtureSubject: bool, evidenceValid: bool, sourceMatches: bool)

  class LaneController {
    const registry: Registry
    const seam: SelectionSeam
    var monitor: CaseStartMonitor
    var runFixtureTaint: Taint
    var fixtureIds: seq<Str>
    var fixtureIdSet: set<Str>
    var frozen: Snapshot

    /** Tainted exactly when ids are bound; the published ids list the set in order; all are known. */
    ghost predicate Consistent()
      reads this
    {
      && Binds(runFixtureTaint, fixtureIds, registry.Keys)
      && Elements(fixtureIds) == fixtureIdSet && |fixtureIds| == |fixtureIdSet|
    }

    constructor (registry: Registry, seam: SelectionSeam)
      ensures this.registry == registry && this.seam == seam
      ensures Consistent() && runFixtureTaint == Clean && frozen == []
    {
      this.registry, this.seam := registry, seam;
      runFixtureTaint, fixtureIds, fixtureIdSet, frozen := Clean, [], {}, [];
      monitor := new CaseStartMonitor();
    }

    method BeginFixtureTaintState()
      modifies this
      ensures Consistent() && runFixtureTaint == Clean && fixtureIdSet == {} && frozen == []
      ensures fresh(monitor) && !monitor.FirstCaseStarted()
    {
      runFixtureTaint, fixtureIds, fixtureIdSet, frozen := Clean, [], {}, [];
      monitor := new CaseStartMonitor();
    }

    method ApplyFixtureProvenance(provenance: Provenance) returns (r: Result<(), Trouble>)
      requires Consistent()
      modifies this`runFixtureTaint, this`fixtureIds, this`fixtureIdSet
      ensures Consistent()
      ensures r == if provenance.Ids() <= registry.Keys then Ok(()) else Err(UnknownFixture)
      ensures fixtureIdSet == old(fixtureIdSet) + if r.Ok? then provenance.Ids() else {}
      ensures runFixtureTaint ==
        if r.Ok? && provenance.BenchmarkFixture? then FixtureTainted else old(runFixtureTaint)
    {
      hide Increasing, Elements;
      if provenance.ProductionSubject? {
        return Ok(());
      }
      if provenance.fixtureId !in registry.Keys {
        return Err(UnknownFixture);
      }
      runFixtureTaint := FixtureTainted;
      EmptyListing(fixtureIds);
      fixtureIds := Insert(provenance.fixtureId, fixtureIds);
      fixtureIdSet := fixtureIdSet + {provenance.fixtureId};
      EmptyListing(fixtureIds);
      return Ok(());
    }

    method ResolveAndApplyOne(lane: Str) returns (r: Result<Provenance, Trouble>)
      requires Consistent()
      modifies this`runFixtureTaint, this`fixtureIds, this`fixtureIdSet
      ensures Consistent() && r == Resolve(registry, seam.bindings, lane)
      ensures fixtureIdSet == old(fixtureIdSet) + if r.Ok? then r.value.Ids() else {}
    {
      hide Binds, Elements, Resolve;
      var provenance :- Resolve(registry, seam.bindings, lane);
      var applied := ApplyFixtureProvenance(provenance);
      assert applied.Ok?;
      return Ok(provenance);
    }

    /** Freezes what every selected lane resolves to now; the first lane that does not resolve aborts. */
    method ResolveAndApplyPreRunProvenance(lanes: seq<Str>) returns (r: Result<Snapshot, Trouble>)
      requires Consistent()
      modifies this`runFixtureTaint, this`fixtureIds, this`fixtureIdSet, this`frozen
      ensures Consistent() && old(fixtureIdSet) <= fixtureIdSet
      ensures r.Ok? <==> AllResolve(registry, seam.bindings, lanes)
      ensures r.Ok? ==>
        && r.value == frozen == Frozen(registry, seam.bindings, lanes)
        && fixtureIdSet == old(fixtureIdSet) + FrozenIds(frozen)
    {
      hide Binds, Resolve, AllResolve, Frozen, Elements, FrozenIds;
      var resolved: Snapshot := [];
      ghost var s := seam.bindings;
      NoLanes(registry, s);
      assert lanes[..0] == [];
      for i := 0 to |lanes|
        invariant Consistent()
        invariant AllResolve(registry, s, lanes[..i])
        invariant resolved == Frozen(registry, s, lanes[..i])
        invariant fixtureIdSet == old(fixtureIdSet) + FrozenIds(resolved)
      {
        OneMoreLane(registry, s, lanes, i);
        var provenance := ResolveAndApplyOne(lanes[i]);
        if provenance.Err? {
          return Err(provenance.error);
        }
        OneMoreEntry(resolved, (lanes[i], provenance.value));
        resolved := resolved + [(lanes[i], provenance.value)];
      }
      assert lanes[..|lanes|] == lanes;
      frozen := resolved;
      return Ok(resolved);
    }

    /** A changed selection that names a fixture taints first and is refused second. */
    method BindAndRevalidateProvenance(lane: Str, snapshot: Provenance) returns (r: Result<(), Trouble>)
      requires Consistent()
      modifies this`runFixtureTaint, this`fixtureIds, this`fixtureIdSet
      ensures Consistent()
      ensures r == Rebound(registry, seam.bindings, lane, snapshot, monitor.FirstCaseStarted())
      ensures fixtureIdSet == old(fixtureIdSet) + Seen(registry, seam.bindings, lane)
      ensures var current := Resolve(registry, seam.bindings, lane);
        && (r.Ok? <==> current == Ok(snapshot))
        && (current.Err? ==> r == Err(current.error))
        && (current == Ok(ProductionSubject) && current != Ok(snapshot) ==> r == Err(SelectionDisagrees))
        && forall id :: current == Ok(BenchmarkFixture(id)) ==>
             && id in fixtureIdSet && runFixtureTaint == FixtureTainted
             && (current != Ok(snapshot) ==>
                   r == Err(if monitor.startedLanes == {} then ChangedSelection else LateSelection))
    {
      var current := Resolve(registry, seam.bindings, lane);
      if current.Err? {
        return Err(current.error);
      }
      if current.value == snapshot {
        r := ApplyFixtureProvenance(current.value);
        return;
      }
      if current.value.BenchmarkFixture? {
        var applied := ApplyFixtureProvenance(current.value);
        if applied.Err? {
          return applied;
        }
        if monitor.FirstCaseStarted() {
          return Err(LateSelection);
        }
        return Err(ChangedSelection);
      }
      return Err(SelectionDisagrees);
    }

    method RevalidateFrozenProvenance() returns (r: Result<(), Trouble>)
      requires Consistent()
      modifies this`runFixtureTaint, this`fixtureIds, this`fixtureIdSet
      ensures Consistent()
      ensures r == Revalidated(registry, seam.bindings, frozen, monitor.FirstCaseStarted())
      ensures fixtureIdSet == old(fixtureIdSet) + SeenInOrder(registry, seam.bindings, frozen)
    {
      hide Binds, Resolve, Rebound, Seen, Elements;
      ghost var all := SeenInOrder(registry, seam.bindings, frozen);
      ghost var verdict := Revalidated(registry, seam.bindings, frozen, monitor.FirstCaseStarted());
      for i := 0 to |frozen|
        invariant Consistent()
        invariant old(fixtureIdSet) + all == fixtureIdSet + SeenInOrder(registry, seam.bindings, frozen[i..])
        invariant verdict == Revalidated(registry, seam.bindings, frozen[i..], monitor.FirstCaseStarted())
      {
        assert frozen[i..][0] == frozen[i] && frozen[i..][1..] == frozen[i + 1..];
        var bound := BindAndRevalidateProvenance(frozen[i].0, frozen[i].1);
        ReboundMeansAgrees(registry, seam.bindings, frozen[i], monitor.FirstCaseStarted());
        if bound.Err? {
          return bound;
        }
      }
      return Ok(());
    }

    /** Bind, run, revalidate. The revalidation happens whether the runner returns or raises. */
    method BindAndRun(entry: (Str, Provenance), s: LaneScript) returns (r: Result<LaneStatus, Raised>)
      requires Consistent() && Dispatches(s)
      modifies this`runFixtureTaint, this`fixtureIds, this`fixtureIdSet, seam, monitor
      ensures Consistent()
      ensures r == LaneBody(registry, frozen, entry, s.(finish := None))
      ensures fixtureIdSet == old(fixtureIdSet) + LaneIds(registry, frozen, entry, s)
    {
      hide Consistent, LaneBody, LaneIds, Resolve, Rebound, Seen, AllAgree, Agrees, SeenInOrder, Revalidated;
      LaneCases(registry, frozen, entry, s);
      seam.bindings := s.seamAtBind;
      ReboundMeansAgrees(registry, s.seamAtBind, entry, monitor.FirstCaseStarted());
      var bound := BindAndRevalidateProvenance(entry.0, entry.1);
      if bound.Err? {
        return Err(ContractError);
      }
      monitor.startedLanes := monitor.startedLanes + s.starts;
      seam.bindings := s.seamAfter;
      var again := RevalidateFrozenProvenance();
      RevalidatedMeansAllAgree(registry, s.seamAfter, frozen, monitor.FirstCaseStarted());
      if again.Err? {
        return Err(ContractError);
      }
      match s.ending {
        case Returns(status) => return Ok(status);
        case Raises(raised) => return Err(raised);
      }
    }

    method DispatchLane(entry: (Str, Provenance), s: LaneScript) returns (r: Result<LaneStatus, Raised>)
      requires Consistent() && s.enter.None? && s.early.None?
      modifies this`runFixtureTaint, this`fixtureIds, this`fixtureIdSet, seam, monitor
      ensures Consistent()
      ensures r == LaneBody(registry, frozen, entry, s)
      ensures fixtureIdSet == old(fixtureIdSet) + LaneIds(registry, frozen, entry, s)
    {
      hide Consistent, LaneIds, Resolve, Seen, AllAgree, Agrees, SeenInOrder;
      NotDispatched(registry, frozen, entry, s);
      match s.opening {
        case OpeningRaises(raised) => return Err(raised);
        case NotSupported => r := Ok(Unsupported);
        case Proceeds => r := BindAndRun(entry, s);
      }
      if r.Ok? && s.finish.Some? {
        r := Err(s.finish.value);
      }
    }

    /** A lane always ends in a status. After a changed seam it is contract_failed however the runner
        ended; after an unchanged one the runner's own ending decides. */
    method RunOneLane(entry: (Str, Provenance), s: LaneScript) returns (status: LaneStatus)
      requires Consistent()
      modifies this`runFixtureTaint, this`fixtureIds, this`fixtureIdSet, seam, monitor
      ensures Consistent()
      ensures status == LaneStatusOf(registry, frozen, entry, s)
      ensures fixtureIdSet == old(fixtureIdSet) + LaneIds(registry, frozen, entry, s)
      ensures Dispatches(s) && s.exit.None? && Agrees(registry, s.seamAtBind, entry) ==>
        && (!AllAgree(registry, s.seamAfter, frozen) ==> status == ContractFailed)
        && (AllAgree(registry, s.seamAfter, frozen) && s.ending.Raises? ==> status == Normalised(Err(s.ending.raised)))
        && (AllAgree(registry, s.seamAfter, frozen) && s.ending.Returns? && s.finish.None? ==>
              status == s.ending.status)
    {
      hide Consistent, Agrees, AllAgree, LaneIds;
      NotDispatched(registry, frozen, entry, s);
      if s.early.Some? {
        return EarlyStatus(s.early.value);
      }
      if s.enter.Some? {
        return Normalised(Err(s.enter.value));
      }
      var body := DispatchLane(entry, s);
      if s.exit.Some? {
        return Normalised(Err(s.exit.value));
      }
      return Normalised(body);
    }

    method RunLanes(scripts: seq<LaneScript>) returns (statuses: seq<LaneStatus>)
      requires Consistent() && |scripts| == |frozen| && fixtureIdSet == FrozenIds(frozen)
      modifies this`runFixtureTaint, this`fixtureIds, this`fixtureIdSet, seam, monitor
      ensures Consistent()
      ensures statuses == StatusesOf(registry, frozen, scripts)
      ensures fixtureIdSet == IdsAfter(registry, frozen, scripts)
    {
      hide Binds, Elements, LaneStatusOf, LaneIds;
      statuses := [];
      for i := 0 to |frozen|
        invariant Consistent()
        invariant statuses == StatusesOf(registry, frozen, scripts[..i])
        invariant fixtureIdSet == IdsAfter(registry, frozen, scripts[..i])
      {
        var status := RunOneLane(frozen[i], scripts[i]);
        assert scripts[..i + 1][..i] == scripts[..i];
        statuses := statuses + [status];
      }
      assert scripts[..|frozen|] == scripts;
    }

    /** The state is validated before it is published; that check can never fail. */
    method Conclude(lanes: seq<Str>, statuses: seq<LaneStatus>, c: Setting) returns (r: Report)
      requires Consistent()
      ensures r.statuses == statuses && r.taint == runFixtureTaint && r.fixtureIds == fixtureIds
      ensures r.aggregate == if c.evidenceValid then StatusForResults(statuses) else InfrastructureFailed
      ensures r.full == FullStatusOf(
        runFixtureTaint, c.fixtureSubject, Elements(lanes) == c.required, r.aggregate, c.evidenceValid, c.sourceMatches)
    {
      hide Binds, StatusForResults, FullStatusOf, Increasing;
      var aggregate := StatusForResults(statuses);
      if !c.evidenceValid {
        aggregate := InfrastructureFailed;
      }
      var tag, ids := TextValue(Tag(runFixtureTaint)), Items(TextValues(fixtureIds));
      assert Accepted(tag, ids, runFixtureTaint, fixtureIds, registry.Keys);
      var asserted := ValidateFixtureTaintState(tag, ids, registry.Keys);
      assert asserted.Ok?;
      var full := ResolveFullImplementationStatus(tag, ids, registry.Keys, c.fixtureSubject,
        Elements(lanes) == c.required, aggregate, c.evidenceValid, c.sourceMatches);
      TagsDiffer();
      return Report(statuses, aggregate, runFixtureTaint, fixtureIds, full.value);
    }

    /** One run. scripts[i] is what happens in lane i. */
    method Run(lanes: seq<Str>, scripts: seq<LaneScript>, c: Setting) returns (r: Result<Report, Trouble>)
      requires |scripts| == |lanes|
      modifies this, seam
      ensures Consistent()
      ensures r.Ok? <==> AllResolve(registry, old(seam.bindings), lanes)
      ensures r.Ok? ==> IsVerdict(registry, old(seam.bindings), lanes, scripts, c, r.value)
    {
      hide Resolve, AllResolve, Frozen, StatusForResults, FullStatusOf, StatusesOf, IdsAfter, Increasing;
      BeginFixtureTaintState();
      var resolved :- ResolveAndApplyPreRunProvenance(lanes);
      var statuses := RunLanes(scripts);
      var report := Conclude(lanes, statuses, c);
      return Ok(report);
    }
  }

  // ---- whole runs ----------------------------------------------------------------------------

  predicate AllResolve(registry: Registry, seam: Seam, lanes: seq<Str>) {
    forall i :: 0 <= i < |lanes| ==> Resolve(registry, seam, lanes[i]).Ok?
  }

  function Frozen(registry: Registry, seam: Seam, lanes: seq<Str>): (f: Snapshot)
    requires AllResolve(registry, seam, lanes)
    ensures |f| == |lanes|
  {
    seq(|lanes|, i requires 0 <= i < |lanes| => (lanes[i], Resolve(registry, seam, lanes[i]).value))
  }

  lemma NoLanes(registry: Registry, seam: Seam)
    ensures AllResolve(registry, seam, []) && Frozen(registry, seam, []) == [] && FrozenIds([]) == {}
  {
  }

  /** The ids bound by a snapshot. */
  function FrozenIds(frozen: Snapshot): set<Str> {
    if frozen == [] then {} else FrozenIds(frozen[..|frozen| - 1]) + frozen[|frozen| - 1].1.Ids()
  }

  lemma OneMoreLane(registry: Registry, seam: Seam, lanes: seq<Str>, i: nat)
    requires i < |lanes| && AllResolve(registry, seam, lanes[..i])
    ensures AllResolve(registry, seam, lanes[..i + 1]) <==> Resolve(registry, seam, lanes[i]).Ok?
    ensures AllResolve(registry, seam, lanes[..i + 1]) ==>
      Frozen(registry, seam, lanes[..i + 1])
      == Frozen(registry, seam, lanes[..i]) + [(lanes[i], Resolve(registry, seam, lanes[i]).value)]
    ensures !AllResolve(registry, seam, lanes[..i + 1]) ==> !AllResolve(registry, seam, lanes)
  {
    hide Resolve;
    var a, b := lanes[..i], lanes[..i + 1];
    assert b[i] == lanes[i] && forall j :: 0 <= j < i ==> b[j] == a[j];
  }

  lemma OneMoreEntry(frozen: Snapshot, entry: (Str, Provenance))
    ensures FrozenIds(frozen + [entry]) == FrozenIds(frozen) + entry.1.Ids()
  {
    assert (frozen + [entry])[..|frozen|] == frozen;
  }

  function StatusesOf(registry: Registry, frozen: Snapshot, scripts: seq<LaneScript>): (r: seq<LaneStatus>)
    requires |scripts| <= |frozen|
    ensures |r| == |scripts|
  {
    seq(|scripts|, i requires 0 <= i < |scripts| => LaneStatusOf(registry, frozen, frozen[i], scripts[i]))
  }

  /** The taint after the snapshot is frozen and the lanes so far have run. */
  function IdsAfter(registry: Registry, frozen: Snapshot, scripts: seq<LaneScript>): set<Str>
    requires |scripts| <= |frozen|
  {
    if scripts == [] then FrozenIds(frozen)
    else
      var k := |scripts| - 1;
      IdsAfter(registry, frozen, scripts[..k]) + LaneIds(registry, frozen, frozen[k], scripts[k])
  }

  /** What a report of the run must say. */
  predicate IsVerdict(registry: Registry, seam: Seam, lanes: seq<Str>, scripts: seq<LaneScript>, c: Setting, r: Report)
    requires |scripts| == |lanes| && AllResolve(registry, seam, lanes)
  {
    var frozen := Frozen(registry, seam, lanes);
    && r.statuses == StatusesOf(registry, frozen, scripts)
    && r.aggregate == (if c.evidenceValid then StatusForResults(r.statuses) else InfrastructureFailed)
    && Elements(r.fixtureIds) == IdsAfter(registry, frozen, scripts)
    && Binds(r.taint, r.fixtureIds, registry.Keys)
    && r.full == FullStatusOf(
         r.taint, c.fixtureSubject, Elements(lanes) == c.required, r.aggregate, c.evidenceValid, c.sourceMatches)
  }

  predicate AllProduction(registry: Registry, seam: Seam, lanes: seq<Str>) {
    forall i :: 0 <= i < |lanes| ==> Resolve(registry, seam, lanes[i]) == Ok(ProductionSubject)
  }

  /** The lane runs to a passing result, and every look at the seam finds production subjects only. */
  predicate RunsClean(registry: Registry, lanes: seq<Str>, lane: Str, s: LaneScript) {
    && Dispatches(s) && s.finish.None? && s.exit.None?
    && s.ending.Returns? && Severity(s.ending.status) == 0
    && Resolve(registry, s.seamAtBind, lane) == Ok(ProductionSubject)
    && AllProduction(registry, s.seamAfter, lanes)
  }

  predicate IsListedFailure(s: LaneStatus) {
    s != Passed && !s.Unlisted?
  }

  /** Which full status a run ends in, exactly. */
  lemma FullStatusExactly(
      registry: Registry, seam: Seam, lanes: seq<Str>, scripts: seq<LaneScript>, c: Setting, r: Report)
    requires |scripts| == |lanes| && AllResolve(registry, seam, lanes)
    requires IsVerdict(registry, seam, lanes, scripts, c, r)
    ensures var clean := r.fixtureIds == [] && !c.fixtureSubject;
      var complete := forall lane :: lane in lanes <==> lane in c.required;
      var good := c.evidenceValid && c.sourceMatches && forall s :: s in r.statuses ==> !IsListedFailure(s);
      && (r.full == NotClaimableFixture <==> !clean)
      && (r.full == NotEvaluated <==> clean && !complete)
      && (r.full == FullFailed <==> clean && complete && !good)
      && (r.full == FullPassed <==> clean && complete && good)
    ensures !c.evidenceValid ==> r.aggregate == InfrastructureFailed
    ensures c.evidenceValid ==> r.aggregate == StatusForResults(r.statuses)
    ensures forall i, j :: 0 <= i < j < |r.fixtureIds| ==> Precedes(r.fixtureIds[i], r.fixtureIds[j])
  {
    IncreasingExactly(r.fixtureIds);
    hide StatusesOf, IdsAfter, AllResolve, Increasing, Frozen, Precedes;
    SameElements(lanes, c.required);
    hide Elements;
    assert forall s :: s in r.statuses ==> (Severity(s) == 0 <==> !IsListedFailure(s));
  }

  lemma SameElements(lanes: seq<Str>, required: set<Str>)
    ensures Elements(lanes) == required <==> forall lane :: lane in lanes <==> lane in required
  {
    forall lane ensures lane in lanes <==> lane in Elements(lanes) {
      assert lane in Elements(lanes) ==> exists i :: 0 <= i < |lanes| && lanes[i] == lane;
    }
  }

  /** What a contract error, and anything else that is raised, makes of a lane. */
  predicate FailsWith(status: LaneStatus, raised: Raised) {
    if raised == ContractError then status == ContractFailed else status == InfrastructureFailed
  }

  /** How a lane ends, case by case, in the order the causes can occur. */
  lemma LaneEndings(registry: Registry, frozen: Snapshot, entry: (Str, Provenance), s: LaneScript)
    ensures var status := LaneStatusOf(registry, frozen, entry, s);
      var bound := Resolve(registry, s.seamAtBind, entry.0) == Ok(entry.1);
      var kept := forall i :: 0 <= i < |frozen| ==> Resolve(registry, s.seamAfter, frozen[i].0) == Ok(frozen[i].1);
      match s.early
      case Some(NoAdapter) => status == Unsupported
      case Some(InputsMissing) => status == EnvironmentUnavailable
      case Some(_) => status == ContractFailed
      case None =>
        if s.enter.Some? then FailsWith(status, s.enter.value)
        else if s.exit.Some? then FailsWith(status, s.exit.value)
        else if s.opening.OpeningRaises? then FailsWith(status, s.opening.raised)
        else if s.opening.Proceeds? && (!bound || !kept) then status == ContractFailed
        else if s.opening.Proceeds? && s.ending.Raises? then FailsWith(status, s.ending.raised)
        else if s.finish.Some? then FailsWith(status, s.finish.value)
        else status == if s.opening.NotSupported? then Unsupported else s.ending.status
  {
    hide Resolve;
    assert AllAgree(registry, s.seamAfter, frozen) <==>
      forall i :: 0 <= i < |frozen| ==> Resolve(registry, s.seamAfter, frozen[i].0) == Ok(frozen[i].1);
  }

  /** Whatever lanes do to the seam, a run is claimable exactly when no look at it, before the lanes,
      at a binding or after a runner, finds anything but a production subject, every lane passes, and
      the settings allow it. */
  lemma ClaimableExactly(
      registry: Registry, seam: Seam, lanes: seq<Str>, scripts: seq<LaneScript>, c: Setting, r: Report)
    requires |scripts| == |lanes| && AllResolve(registry, seam, lanes)
    requires IsVerdict(registry, seam, lanes, scripts, c, r)
    ensures r.Claimable() <==>
      && !c.fixtureSubject && Elements(lanes) == c.required && c.evidenceValid && c.sourceMatches
      && AllProduction(registry, seam, lanes)
      && forall i :: 0 <= i < |lanes| ==> RunsClean(registry, lanes, lanes[i], scripts[i])
  {
    hide Resolve, LaneStatusOf, LaneIds, RunsClean, AllProduction, Increasing, Elements;
    var frozen := Frozen(registry, seam, lanes);
    EmptyListing(r.fixtureIds);
    IdsOnlyGrow(registry, frozen, scripts, 0);
    assert scripts[..0] == [];
    FrozenIdsAreEmpty(registry, seam, lanes);
    if AllProduction(registry, seam, lanes) {
      forall i | 0 <= i < |lanes|
        ensures Severity(r.statuses[i]) == 0 <==> RunsClean(registry, lanes, lanes[i], scripts[i])
        ensures RunsClean(registry, lanes, lanes[i], scripts[i]) ==>
          LaneIds(registry, frozen, frozen[i], scripts[i]) == {}
      {
        CleanLane(registry, seam, lanes, i, scripts[i]);
      }
      if forall i :: 0 <= i < |lanes| ==> RunsClean(registry, lanes, lanes[i], scripts[i]) {
        NothingSeen(registry, frozen, scripts);
      }
    }
  }

  /** Taint is absorbing: ids bound by the snapshot or by a prefix of the run stay bound. */
  lemma {:induction false} IdsOnlyGrow(registry: Registry, frozen: Snapshot, scripts: seq<LaneScript>, k: nat)
    requires k <= |scripts| <= |frozen|
    ensures FrozenIds(frozen) <= IdsAfter(registry, frozen, scripts[..k]) <= IdsAfter(registry, frozen, scripts)
  {
    hide LaneIds;
    if k < |scripts| {
      var front := scripts[..|scripts| - 1];
      IdsOnlyGrow(registry, frozen, front, k);
      assert front[..k] == scripts[..k];
    } else {
      assert scripts[..k] == scripts;
      if scripts != [] {
        IdsOnlyGrow(registry, frozen, scripts[..k - 1], k - 1);
      }
    }
  }

  lemma {:induction false} NothingSeen(registry: Registry, frozen: Snapshot, scripts: seq<LaneScript>)
    requires |scripts| <= |frozen| && FrozenIds(frozen) == {}
    requires forall i :: 0 <= i < |scripts| ==> LaneIds(registry, frozen, frozen[i], scripts[i]) == {}
    ensures IdsAfter(registry, frozen, scripts) == {}
  {
    hide LaneIds;
    if scripts != [] {
      NothingSeen(registry, frozen, scripts[..|scripts| - 1]);
    }
  }

  lemma {:induction false} NoIdsNoFixtures(frozen: Snapshot)
    ensures FrozenIds(frozen) == {} <==> forall i :: 0 <= i < |frozen| ==> frozen[i].1 == ProductionSubject
  {
    if frozen != [] {
      NoIdsNoFixtures(frozen[..|frozen| - 1]);
    }
  }

  lemma FrozenIdsAreEmpty(registry: Registry, seam: Seam, lanes: seq<Str>)
    requires AllResolve(registry, seam, lanes)
    ensures FrozenIds(Frozen(registry, seam, lanes)) == {} <==> AllProduction(registry, seam, lanes)
  {
    hide Resolve, FrozenIds;
    var frozen := Frozen(registry, seam, lanes);
    NoIdsNoFixtures(frozen);
    assert forall i :: 0 <= i < |lanes| ==> frozen[i].1 == Resolve(registry, seam, lanes[i]).value;
  }

  lemma CleanLane(registry: Registry, seam: Seam, lanes: seq<Str>, i: nat, s: LaneScript)
    requires i < |lanes| && AllResolve(registry, seam, lanes) && AllProduction(registry, seam, lanes)
    ensures var frozen := Frozen(registry, seam, lanes);
      && (Severity(LaneStatusOf(registry, frozen, frozen[i], s)) == 0 <==> RunsClean(registry, lanes, lanes[i], s))
      && (RunsClean(registry, lanes, lanes[i], s) ==> LaneIds(registry, frozen, frozen[i], s) == {})
  {
    hide Resolve, SeenInOrder;
    var frozen := Frozen(registry, seam, lanes);
    assert forall j :: 0 <= j < |lanes| ==> frozen[j] == (lanes[j], ProductionSubject);
    assert AllAgree(registry, s.seamAfter, frozen) <==> AllProduction(registry, s.seamAfter, lanes);
    if AllProduction(registry, s.seamAfter, lanes) {
      ProductionBindsNothing(registry, s.seamAfter, frozen);
    }
  }

  lemma {:induction false} ProductionBindsNothing(registry: Registry, seam: Seam, frozen: Snapshot)
    requires AllAgree(registry, seam, frozen)
    requires forall i :: 0 <= i < |frozen| ==> frozen[i].1 == ProductionSubject
    ensures SeenInOrder(registry, seam, frozen) == {}
  {
    hide Resolve;
    if frozen != [] {
      ProductionBindsNothing(registry, seam, frozen[1..]);
    }
  }

  /** A lane bound to a fixture before the run makes it unclaimable, however every lane goes. */
  lemma SelectedFixtureIsNeverClaimable(registry: Registry, seam: Seam, lanes: seq<Str>,
      scripts: seq<LaneScript>, c: Setting, r: Report, i: nat, id: Str)
    requires |scripts| == |lanes| && AllResolve(registry, seam, lanes)
    requires IsVerdict(registry, seam, lanes, scripts, c, r)
    requires i < |lanes| && Resolve(registry, seam, lanes[i]) == Ok(BenchmarkFixture(id))
    ensures r.taint == FixtureTainted && id in r.fixtureIds && r.full == NotClaimableFixture
  {
    hide Resolve, AllResolve, LaneStatusOf, LaneIds, Increasing;
    var frozen := Frozen(registry, seam, lanes);
    FrozenIdIsBound(frozen, i);
    IdsOnlyGrow(registry, frozen, scripts, 0);
    assert id in Elements(r.fixtureIds);
  }

  lemma {:induction false} FrozenIdIsBound(frozen: Snapshot, i: nat)
    requires i < |frozen|
    ensures frozen[i].1.Ids() <= FrozenIds(frozen)
  {
    var k := |frozen| - 1;
    if i < k {
      FrozenIdIsBound(frozen[..k], i);
    }
  }

  // ---- where taint comes from ----------------------------------------------------------------

  /** Some look at the seam, in the run so far, finds a selected lane bound to the fixture. */
  predicate NamedAtACheckpoint(registry: Registry, seam: Seam, lanes: seq<Str>, scripts: seq<LaneScript>, id: Str) {
    exists i :: 0 <= i < |lanes| &&
      (id in Seen(registry, seam, lanes[i])
       || exists j :: 0 <= j < |scripts| &&
            (id in Seen(registry, scripts[j].seamAtBind, lanes[i])
             || id in Seen(registry, scripts[j].seamAfter, lanes[i])))
  }

  /** A look at every frozen lane reaches lane j, all before it agreeing, and finds the fixture there. */
  ghost predicate FoundAt(registry: Registry, seam: Seam, frozen: Snapshot, j: int, id: Str) {
    && 0 <= j < |frozen|
    && id in Seen(registry, seam, frozen[j].0)
    && forall i :: 0 <= i < j ==> Agrees(registry, seam, frozen[i])
  }

  /** One revalidation taints by a fixture exactly when some lane it reaches is bound to it. */
  lemma {:induction false} SeenInOrderExactly(registry: Registry, seam: Seam, frozen: Snapshot, id: Str)
    ensures id in SeenInOrder(registry, seam, frozen) <==> exists j :: FoundAt(registry, seam, frozen, j, id)
  {
    hide Seen, Agrees;
    if frozen != [] {
      SeenInOrderExactly(registry, seam, frozen[1..], id);
      if id in Seen(registry, seam, frozen[0].0) {
        assert FoundAt(registry, seam, frozen, 0, id);
      }
      forall j | FoundAt(registry, seam, frozen, j, id) && j > 0
        ensures Agrees(registry, seam, frozen[0]) && FoundAt(registry, seam, frozen[1..], j - 1, id)
      {
        assert forall i :: 0 <= i < j - 1 ==> frozen[1..][i] == frozen[i + 1];
      }
      if Agrees(registry, seam, frozen[0]) {
        forall j | FoundAt(registry, seam, frozen[1..], j, id) ensures FoundAt(registry, seam, frozen, j + 1, id) {
          assert forall i :: 0 < i < j + 1 ==> frozen[i] == frozen[1..][i - 1];
        }
      }
    }
  }

  /** A lane adds the fixture: at its binding, or, when the binding agreed, after its runner. */
  ghost predicate LaneFinds(registry: Registry, frozen: Snapshot, entry: (Str, Provenance), s: LaneScript, id: Str) {
    Dispatches(s) &&
    (id in Seen(registry, s.seamAtBind, entry.0)
     || (Agrees(registry, s.seamAtBind, entry) && exists j :: FoundAt(registry, s.seamAfter, frozen, j, id)))
  }

  lemma LaneIdsExactly(registry: Registry, frozen: Snapshot, entry: (Str, Provenance), s: LaneScript, id: Str)
    ensures id in LaneIds(registry, frozen, entry, s) <==> LaneFinds(registry, frozen, entry, s, id)
  {
    hide Seen, Agrees, SeenInOrder, FoundAt;
    SeenInOrderExactly(registry, s.seamAfter, frozen, id);
  }

  lemma {:induction false} FrozenIdsExactly(frozen: Snapshot, id: Str)
    ensures id in FrozenIds(frozen) <==> exists i :: 0 <= i < |frozen| && id in frozen[i].1.Ids()
  {
    if frozen != [] {
      FrozenIdsExactly(frozen[..|frozen| - 1], id);
    }
  }

  lemma {:induction false} IdsAfterExactly(registry: Registry, frozen: Snapshot, scripts: seq<LaneScript>, id: Str)
    requires |scripts| <= |frozen|
    ensures id in IdsAfter(registry, frozen, scripts) <==>
      || id in FrozenIds(frozen)
      || exists k :: 0 <= k < |scripts| && LaneFinds(registry, frozen, frozen[k], scripts[k], id)
  {
    hide LaneIds, LaneFinds, FrozenIds;
    if scripts != [] {
      var n := |scripts| - 1;
      IdsAfterExactly(registry, frozen, scripts[..n], id);
      LaneIdsExactly(registry, frozen, frozen[n], scripts[n], id);
      assert forall k :: 0 <= k < n ==> scripts[..n][k] == scripts[k];
    }
  }

  /** What taints a run, exactly: a fixture is among the reported ids if and only if a selected lane was
      bound to it before the run, or a dispatched lane at its binding, or, after the runner of a lane whose
      binding agreed, some lane with no disagreeing lane before it. */
  lemma TaintedExactly(
      registry: Registry, seam: Seam, lanes: seq<Str>, scripts: seq<LaneScript>, c: Setting, r: Report, id: Str)
    requires |scripts| == |lanes| && AllResolve(registry, seam, lanes)
    requires IsVerdict(registry, seam, lanes, scripts, c, r)
    ensures var frozen := Frozen(registry, seam, lanes);
      id in r.fixtureIds <==>
        || (exists i :: 0 <= i < |lanes| && id in Seen(registry, seam, lanes[i]))
        || exists k :: 0 <= k < |scripts| && LaneFinds(registry, frozen, frozen[k], scripts[k], id)
    ensures id in r.fixtureIds ==> r.taint == FixtureTainted && NamedAtACheckpoint(registry, seam, lanes, scripts, id)
    ensures r.taint == FixtureTainted <==> r.fixtureIds != []
  {
    hide Resolve, Seen, LaneFinds, FrozenIds, IdsAfter, StatusesOf, FullStatusOf, StatusForResults, Increasing,
      AllResolve;
    var frozen := Frozen(registry, seam, lanes);
    IdsAfterExactly(registry, frozen, scripts, id);
    FrozenIdsExactly(frozen, id);
    forall i | 0 <= i < |lanes| ensures frozen[i].1.Ids() == Seen(registry, seam, lanes[i]) {
      FrozenIsSeen(registry, seam, lanes, i);
    }
    assert id in r.fixtureIds <==> id in Elements(r.fixtureIds);
    forall k | 0 <= k < |scripts| && LaneFinds(registry, frozen, frozen[k], scripts[k], id)
      ensures NamedAtACheckpoint(registry, seam, lanes, scripts, id)
    {
      FoundIsNamed(registry, seam, lanes, scripts, k, id);
    }
  }

  lemma FoundIsNamed(registry: Registry, seam: Seam, lanes: seq<Str>, scripts: seq<LaneScript>, k: nat, id: Str)
    requires k < |scripts| == |lanes| && AllResolve(registry, seam, lanes)
    requires var frozen := Frozen(registry, seam, lanes); LaneFinds(registry, frozen, frozen[k], scripts[k], id)
    ensures NamedAtACheckpoint(registry, seam, lanes, scripts, id)
  {
    hide Resolve, Seen, AllResolve, Agrees;
    var frozen := Frozen(registry, seam, lanes);
    if id in Seen(registry, scripts[k].seamAtBind, lanes[k]) {
    } else {
      var j :| FoundAt(registry, scripts[k].seamAfter, frozen, j, id);
      assert id in Seen(registry, scripts[k].seamAfter, lanes[j]);
    }
  }

  lemma FrozenIsSeen(registry: Registry, seam: Seam, lanes: seq<Str>, i: nat)
    requires i < |lanes| && AllResolve(registry, seam, lanes)
    ensures Frozen(registry, seam, lanes)[i].1.Ids() == Seen(registry, seam, lanes[i])
  {
    hide Resolve;
  }

  const DISPATCHED := LaneScript(None, None, Proceeds, map[], map[], {}, Returns(Passed), None, None)

  /** The converse fails. Revalidation stops at its first mismatch, so a runner that breaks an earlier
      lane's binding hides the fixture it gives a later one: the run ends clean, though not claimable. */
  lemma MismatchHidesALaterFixture(registry: Registry, first: Str, second: Str, id: Str, c: Setting, r: Report)
    requires first != second && ValidFixtureId(id) && id in registry && registry[id] == Descriptor(id, true)
    requires var hiding := DISPATCHED.(seamAfter := map[first := NotText, second := Named(id)]);
      IsVerdict(registry, map[], [first, second], [hiding, DISPATCHED], c, r)
    ensures NamedAtACheckpoint(registry, map[], [first, second],
      [DISPATCHED.(seamAfter := map[first := NotText, second := Named(id)]), DISPATCHED], id)
    ensures r.taint == Clean && !r.Claimable()
  {
    var hiding := DISPATCHED.(seamAfter := map[first := NotText, second := Named(id)]);
    var lanes, scripts := [first, second], [hiding, DISPATCHED];
    assert scripts[0].seamAfter == hiding.seamAfter;
    assert id in Seen(registry, scripts[0].seamAfter, lanes[1]);
    var frozen := Frozen(registry, map[], lanes);
    FrozenIdsAreEmpty(registry, map[], lanes);
    assert frozen == [(first, ProductionSubject), (second, ProductionSubject)];
    assert LaneIds(registry, frozen, frozen[0], hiding) == {};
    ProductionBindsNothing(registry, map[], frozen);
    NothingSeen(registry, frozen, scripts);
    EmptyListing(r.fixtureIds);
    ClaimableExactly(registry, map[], lanes, scripts, c, r);
    assert !RunsClean(registry, lanes, lanes[0], scripts[0]);
  }

  // ---- the checked-in seam -------------------------------------------------------------------

  const OWNER_LANE := Chars("protocol-and-owner-lifecycle")
  const OWNER_FIXTURE := Chars("owner-lifecycle-device-executor-v1")
  const FIXTURES: Registry := map[OWNER_FIXTURE := Descriptor(OWNER_FIXTURE, true)]
  const CHECKED_IN_SEAM: Seam := map[OWNER_LANE := Named(OWNER_FIXTURE)]

  /** With the checked-in seam every selection resolves, and one that includes the owner-lifecycle lane
      is reported as tainted by exactly that fixture whatever its lanes do. */
  lemma OwnerLifecycleIsNeverClaimable(
      lanes: seq<Str>, scripts: seq<LaneScript>, c: Setting, r: Report)
    requires |scripts| == |lanes| && OWNER_LANE in lanes
    ensures AllResolve(FIXTURES, CHECKED_IN_SEAM, lanes)
    ensures IsVerdict(FIXTURES, CHECKED_IN_SEAM, lanes, scripts, c, r) ==>
      r.full == NotClaimableFixture && !r.Claimable() && r.fixtureIds == [OWNER_FIXTURE]
  {
    hide IsVerdict;
    OwnerFixtureIsValid();
    assert Resolve(FIXTURES, CHECKED_IN_SEAM, OWNER_LANE) == Ok(BenchmarkFixture(OWNER_FIXTURE));
    var i :| 0 <= i < |lanes| && lanes[i] == OWNER_LANE;
    if IsVerdict(FIXTURES, CHECKED_IN_SEAM, lanes, scripts, c, r) {
      SelectedFixtureIsNeverClaimable(FIXTURES, CHECKED_IN_SEAM, lanes, scripts, c, r, i, OWNER_FIXTURE);
      OnlyOwnerFixture(lanes, scripts, c, r);
    }
  }

  lemma OwnerFixtureIsValid()
    ensures ValidFixtureId(OWNER_FIXTURE)
  {
    assert |OWNER_FIXTURE| == 34;
  }

  lemma OnlyOwnerFixture(lanes: seq<Str>, scripts: seq<LaneScript>, c: Setting, r: Report)
    requires |scripts| == |lanes| && AllResolve(FIXTURES, CHECKED_IN_SEAM, lanes)
    requires IsVerdict(FIXTURES, CHECKED_IN_SEAM, lanes, scripts, c, r) && OWNER_FIXTURE in r.fixtureIds
    ensures r.fixtureIds == [OWNER_FIXTURE]
  {
    hide AllResolve, Frozen, StatusesOf, IdsAfter, Less, FullStatusOf, StatusForResults;
    assert Elements(r.fixtureIds) <= {OWNER_FIXTURE};
    var ids := r.fixtureIds;
    if |ids| > 1 {
      assert ids[0] in Elements(ids) && ids[1] in Elements(ids);
      LessIsIrreflexive(OWNER_FIXTURE);
      assert false;
    }
  }
}
