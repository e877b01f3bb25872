/** The retained-arena ledger and the one-shot fault injector in front of modelled allocations. */
module Arena {
  import opened Text
  import opened Outcomes
  import opened CompileLimits
  import opened Sums
  import Utf8

  // ---- fault injector ------------------------------------------------------------------------

  datatype Injector = Injector(target: Option<nat>, ordinal: nat, fired: bool)

  datatype Trouble = Memory | Arithmetic | Internal | NotUtf8

  /** What the constructor and every later call keep. */
  predicate Armed(j: Injector) {
    && (j.target.Some? ==> j.target.value >= 1)
    && (j.fired ==> j.target.None?)
    && j.ordinal <= U64_MAX
  }

  function Fires(j: Injector): bool {
    j.ordinal < U64_MAX && !j.fired && j.target == Some(j.ordinal + 1)
  }

  function Tick(j: Injector): Injector {
    if j.ordinal == U64_MAX then j
    else if Fires(j) then Injector(None, j.ordinal + 1, true)
    else j.(ordinal := j.ordinal + 1)
  }

  /** How many of the next n allocations are failed. */
  function Failures(j: Injector, n: nat): nat
    decreases n
  {
    if n == 0 then 0 else (if Fires(j) then 1 else 0) + Failures(Tick(j), n - 1)
  }

  /** The injector fails the allocation with the target ordinal, if that many are made, and no other. */
  lemma {:induction false} InjectorFiresOnce(j: Injector, n: nat)
    requires Armed(j)
    ensures Failures(j, n)
         == if j.target.Some? && j.ordinal < j.target.value <= j.ordinal + n && j.target.value <= U64_MAX
            then 1 else 0
    decreases n
  {
    if n > 0 {
      InjectorFiresOnce(Tick(j), n - 1);
    }
  }

  class FaultInjector {
    var target: Option<nat>
    var ordinal: nat
    var fired: bool

    ghost function Value(): Injector
      reads this
    {
      Injector(target, ordinal, fired)
    }

    constructor (target: Option<nat>)
      requires target.Some? ==> target.value >= 1
      ensures Value() == Injector(target, 0, false) && Armed(Value())
    {
      this.target, ordinal, fired := target, 0, false;
    }

    method BeforeModeledAllocation() returns (r: Result<nat, Trouble>)
      requires Armed(Value())
      modifies this
      ensures Armed(Value()) && Value() == Tick(old(Value()))
      ensures r == if old(ordinal) == U64_MAX then Err(Arithmetic)
                   else if Fires(old(Value())) then Err(Memory) else Ok(ordinal)
    {
      var next := CheckedAdd(ordinal, 1);
      if next.Err? {
        return Err(Arithmetic);
      }
      ordinal := next.value;
      if !fired && target == Some(ordinal) {
        fired := true;
        target := None;
        return Err(Memory);
      }
      return Ok(ordinal);
    }
  }

  // ---- ledger --------------------------------------------------------------------------------

  datatype Ledger = Ledger(maximum: nat, used: nat, highWater: nat, lastCandidate: nat)

  /** A reservation, a release, or a modelled allocation with what the injector and the allocator do. */
  datatype Op = Reserve(amount: int) | Release(amount: int) | Allocate(amount: int, fails: bool)

  datatype Outcome = Admitted | Exceeded | Failed(trouble: Trouble)

  function Raise(l: Ledger, candidate: nat): Ledger {
    l.(highWater := if candidate > l.highWater then candidate else l.highWater)
  }

  function OutcomeOf(l: Ledger, op: Op): Outcome {
    match op
    case Release(amount) =>
      if CheckedNonnegative(amount).Err? then Failed(Arithmetic)
      else if amount > l.used then Failed(Internal) else Admitted
    case _ =>
      if CheckedAdd(l.used, op.amount).Err? then Failed(Arithmetic)
      else if l.used + op.amount > l.maximum then Exceeded
      else if op.Allocate? && op.fails then Failed(Memory) else Admitted
  }

  function Apply(l: Ledger, op: Op): Ledger {
    match op
    case Release(amount) => if OutcomeOf(l, op) == Admitted then l.(used := l.used - amount) else l
    case _ =>
      if CheckedAdd(l.used, op.amount).Err? then l
      else
        var candidate := l.used + op.amount;
        var seen := l.(lastCandidate := candidate);
        match OutcomeOf(l, op)
        case Exceeded => Raise(seen, candidate)
        case Admitted => Raise(seen.(used := candidate), candidate)
        case Failed(_) => seen
  }

  predicate Sound(l: Ledger) {
    l.used <= l.maximum <= U64_MAX && l.used <= l.highWater
  }

  /** The signed change of the charge that an operation that goes through makes. */
  function Net(l: Ledger, op: Op): int {
    if OutcomeOf(l, op) != Admitted then 0 else if op.Release? then -op.amount else op.amount
  }

  /** Refused and faulted operations leave the charge alone; the ledger stays within its maximum. */
  lemma ApplyIsSound(l: Ledger, op: Op)
    requires Sound(l)
    ensures Sound(Apply(l, op)) && Apply(l, op).maximum == l.maximum
    ensures Apply(l, op).used == l.used + Net(l, op)
    ensures Apply(l, op).highWater > l.maximum <==> l.highWater > l.maximum || OutcomeOf(l, op) == Exceeded
  {
  }

  /** What an operation does to each number of the ledger. A reservation that would pass the maximum is
      remembered in the high-water mark and the last candidate but not charged; a fault leaves only the
      last candidate; a sum out of range leaves nothing. */
  lemma LedgerRules(l: Ledger, op: Op)
    requires Sound(l)
    ensures var (a, c) := (op.amount, l.used + op.amount);
      var top := if c > l.highWater then c else l.highWater;
      var expected :=
        if op.Release? then
          if a < 0 || a > 0xFFFF_FFFF_FFFF_FFFF then (Failed(Arithmetic), l)
          else if a > l.used then (Failed(Internal), l)
          else (Admitted, Ledger(l.maximum, l.used - a, l.highWater, l.lastCandidate))
        else
          if a < 0 || c > 0xFFFF_FFFF_FFFF_FFFF then (Failed(Arithmetic), l)
          else if c > l.maximum then (Exceeded, Ledger(l.maximum, l.used, top, c))
          else if op.Allocate? && op.fails then (Failed(Memory), Ledger(l.maximum, l.used, l.highWater, c))
          else (Admitted, Ledger(l.maximum, c, top, c));
      (OutcomeOf(l, op), Apply(l, op)) == expected
  {
  }

  function ApplyAll(l: Ledger, ops: seq<Op>): Ledger {
    if ops == [] then l else Apply(ApplyAll(l, ops[..|ops| - 1]), ops[|ops| - 1])
  }

  function NetAll(l: Ledger, ops: seq<Op>): int {
    if ops == [] then 0
    else NetAll(l, ops[..|ops| - 1]) + Net(ApplyAll(l, ops[..|ops| - 1]), ops[|ops| - 1])
  }

  predicate AnyExceeded(l: Ledger, ops: seq<Op>) {
    ops != []
    && (AnyExceeded(l, ops[..|ops| - 1])
        || OutcomeOf(ApplyAll(l, ops[..|ops| - 1]), ops[|ops| - 1]) == Exceeded)
  }

  /** Over any run on a fresh ledger the charge is what was committed less what was released, it never
      passes the maximum, and the high-water mark passes it exactly when something was refused. */
  lemma {:induction false} RunIsConserved(maximum: nat, ops: seq<Op>)
    requires maximum <= U64_MAX
    ensures var start := Ledger(maximum, 0, 0, 0);
      && Sound(ApplyAll(start, ops)) && ApplyAll(start, ops).maximum == maximum
      && ApplyAll(start, ops).used == NetAll(start, ops) <= maximum
      && (ApplyAll(start, ops).highWater > maximum <==> AnyExceeded(start, ops))
  {
    var start := Ledger(maximum, 0, 0, 0);
    if ops != [] {
      var front := ops[..|ops| - 1];
      RunIsConserved(maximum, front);
      ApplyIsSound(ApplyAll(start, front), ops[|ops| - 1]);
    }
  }

  /** Operation k asks for a total charge of h and is granted it or refused it for its size. */
  predicate AsksFor(start: Ledger, ops: seq<Op>, k: int, h: int) {
    && 0 <= k < |ops| && !ops[k].Release?
    && h == ApplyAll(start, ops[..k]).used + ops[k].amount
    && OutcomeOf(ApplyAll(start, ops[..k]), ops[k]) in {Admitted, Exceeded}
  }

  /** The high-water mark is the largest total so asked for, granted or not. */
  lemma {:induction false} HighWaterIsLargest(start: Ledger, ops: seq<Op>)
    requires Sound(start) && start.highWater == 0
    ensures Sound(ApplyAll(start, ops))
    ensures forall k, h :: AsksFor(start, ops, k, h) ==> h <= ApplyAll(start, ops).highWater
    ensures var top := ApplyAll(start, ops).highWater;
      top == 0 || exists k :: AsksFor(start, ops, k, top)
  {
    if ops != [] {
      var n := |ops| - 1;
      var front := ops[..n];
      HighWaterIsLargest(start, front);
      ApplyIsSound(ApplyAll(start, front), ops[n]);
      forall k, h | k != n ensures AsksFor(start, ops, k, h) <==> AsksFor(start, front, k, h) {
        if 0 <= k < n {
          assert ops[..k] == front[..k];
        }
      }
      var before, after := ApplyAll(start, front), ApplyAll(start, ops);
      if after.highWater != before.highWater {
        assert AsksFor(start, ops, n, after.highWater);
      } else if after.highWater > 0 {
        var k :| AsksFor(start, front, k, after.highWater);
        assert AsksFor(start, ops, k, after.highWater);
      }
    }
  }

  class RetainedArena {
    const maximum: nat
    var used: nat
    var highWater: nat
    var lastCandidate: nat

    ghost function Value(): Ledger
      reads this
    {
      Ledger(maximum, used, highWater, lastCandidate)
    }

    constructor (maximum: nat)
      requires maximum <= U64_MAX
      ensures Value() == Ledger(maximum, 0, 0, 0) && Sound(Value())
    {
      this.maximum, used, highWater, lastCandidate := maximum, 0, 0, 0;
    }

    method ReserveCharge(amount: int) returns (outcome: Outcome)
      requires Sound(Value())
      modifies this
      ensures Sound(Value()) && Value() == Apply(old(Value()), Reserve(amount))
      ensures outcome == OutcomeOf(old(Value()), Reserve(amount))
    {
      var candidate := CheckedAdd(used, amount);
      if candidate.Err? {
        return Failed(Arithmetic);
      }
      lastCandidate := candidate.value;
      if candidate.value > maximum {
        highWater := if candidate.value > highWater then candidate.value else highWater;
        return Exceeded;
      }
      used := candidate.value;
      highWater := if used > highWater then used else highWater;
      return Admitted;
    }

    method ReleaseCharge(amount: int) returns (outcome: Outcome)
      requires Sound(Value())
      modifies this
      ensures Sound(Value()) && Value() == Apply(old(Value()), Release(amount))
      ensures outcome == OutcomeOf(old(Value()), Release(amount))
    {
      if CheckedNonnegative(amount).Err? {
        return Failed(Arithmetic);
      }
      if amount > used {
        return Failed(Internal);
      }
      used := used - amount;
      return Admitted;
    }

    /** Guard, then inject or allocate, then commit. allocatorFails says whether the allocator itself
        runs out of memory. */
    method ModeledAllocate(amount: int, injector: FaultInjector?, allocatorFails: bool)
      returns (outcome: Outcome)
      requires Sound(Value()) && (injector != null ==> Armed(injector.Value()))
      modifies this, injector
      ensures Sound(Value())
      ensures var guarded := OutcomeOf(old(Value()), Reserve(amount));
        && (guarded != Admitted ==>
              Value() == Apply(old(Value()), Reserve(amount)) && outcome == guarded
              && (injector != null ==> injector.Value() == old(injector.Value())))
        && (guarded == Admitted ==>
              && (injector != null ==> injector.Value() == Tick(old(injector.Value())))
              && outcome == (
                   if injector != null && old(injector.ordinal) == U64_MAX then Failed(Arithmetic)
                   else if (injector != null && Fires(old(injector.Value()))) || allocatorFails
                     then Failed(Memory)
                   else Admitted)
              && Value() == Apply(old(Value()), Allocate(amount, outcome != Admitted)))
      ensures injector != null ==> Armed(injector.Value())
    {
      var candidate := CheckedAdd(used, amount);
      if candidate.Err? {
        return Failed(Arithmetic);
      }
      lastCandidate := candidate.value;
      if candidate.value > maximum {
        highWater := if candidate.value > highWater then candidate.value else highWater;
        return Exceeded;
      }
      if injector != null {
        var admitted := injector.BeforeModeledAllocation();
        if admitted.Err? {
          return Failed(admitted.error);
        }
      }
      if allocatorFails {
        return Failed(Memory);
      }
      used := candidate.value;
      highWater := if used > highWater then used else highWater;
      return Admitted;
    }

    /** The global intern rule: a hit costs nothing, a miss is charged 16 bytes and the identifier. An
        identifier without UTF-8 bytes fails before anything else. */
    method VisitCaseId(id: Str, interned: set<Str>, injector: FaultInjector?, allocatorFails: bool)
      returns (outcome: Outcome, created: bool, now: set<Str>)
      requires Sound(Value()) && (injector != null ==> Armed(injector.Value()))
      modifies this, injector
      ensures Sound(Value())
      ensures (Value(), now) == Visited(old(Value()), interned, Visit(id, outcome.Failed?))
      ensures outcome == Failed(NotUtf8) <==> !Utf8.SurrogateFree(id)
      ensures injector == null ==> (outcome == Failed(Memory) ==> allocatorFails)
      ensures created <==> now != interned
      ensures id in interned && Utf8.SurrogateFree(id) ==> outcome == Admitted
    {
      if !Utf8.SurrogateFree(id) {
        return Failed(NotUtf8), false, interned;
      }
      if id in interned {
        return Admitted, false, interned;
      }
      var charge := CheckedAdd(16, Utf8Size(id));
      if charge.Err? {
        return Failed(Arithmetic), false, interned;
      }
      outcome := ModeledAllocate(charge.value, injector, allocatorFails);
      if outcome != Admitted {
        return outcome, false, interned;
      }
      assert id in interned + {id};
      return Admitted, true, interned + {id};
    }
  }

  // ---- interning over a run ------------------------------------------------------------------

  datatype Visit = Visit(id: Str, fails: bool)

  function Visited(l: Ledger, interned: set<Str>, v: Visit): (Ledger, set<Str>) {
    if !Utf8.SurrogateFree(v.id) || v.id in interned || CheckedAdd(16, Utf8Size(v.id)).Err? then (l, interned)
    else
      var op := Allocate(16 + Utf8Size(v.id), v.fails);
      (Apply(l, op), if OutcomeOf(l, op) == Admitted then interned + {v.id} else interned)
  }

  function VisitedAll(l: Ledger, interned: set<Str>, visits: seq<Visit>): (Ledger, set<Str>) {
    if visits == [] then (l, interned)
    else
      var (m, s) := VisitedAll(l, interned, visits[..|visits| - 1]);
      Visited(m, s, visits[|visits| - 1])
  }

  function InternCharge(): Str -> nat {
    id => 16 + Utf8Size(id)
  }

  /** A first visit that is admitted charges sixteen bytes and the identifier's bytes. */
  lemma InternChargeIs(l: Ledger, interned: set<Str>, v: Visit)
    requires Sound(l)
    ensures InternCharge()(v.id) == 16 + |Utf8.TextBytes(v.id)|
    ensures var (m, s) := Visited(l, interned, v);
      var c := l.used + 16 + |Utf8.TextBytes(v.id)|;
      && (v.id in s - interned <==>
            v.id !in interned && Utf8.SurrogateFree(v.id) && !v.fails && c <= l.maximum)
      && m.used == (if v.id in s - interned then c else l.used)
      && s == (if v.id in s then interned + {v.id} else interned)
  {
    Utf8.SizeIsByteCount(v.id);
  }

  /** After any visits, whatever failed and however often ids repeat, the arena has grown by exactly
      the charges of the ids newly interned. */
  lemma {:induction false} InterningChargesOnce(l: Ledger, interned: set<Str>, visits: seq<Visit>)
    requires Sound(l)
    ensures var (m, s) := VisitedAll(l, interned, visits);
      && Sound(m) && interned <= s
      && m.used == l.used + Sum(s - interned, InternCharge())
  {
    hide Utf8Size, Utf8.SurrogateFree;
    if visits == [] {
      assert interned - interned == {};
    } else {
      InterningChargesOnce(l, interned, visits[..|visits| - 1]);
      var (m, s) := VisitedAll(l, interned, visits[..|visits| - 1]);
      var v := visits[|visits| - 1];
      var (n, t) := Visited(m, s, v);
      if Utf8.SurrogateFree(v.id) && v.id !in s && CheckedAdd(16, Utf8Size(v.id)).Ok? {
        ApplyIsSound(m, Allocate(16 + Utf8Size(v.id), v.fails));
        SumWithout((s - interned) + {v.id}, InternCharge(), v.id);
        assert (s - interned) + {v.id} - {v.id} == s - interned;
        assert s + {v.id} - interned == (s - interned) + {v.id};
      }
    }
  }
}
