/** Fixed buffers charged to the arena: the scratch slab of big-endian cells, the shared hash buffer,
    and the exact-size output sink. */
module Buffers {
  import opened Text
  import opened Outcomes
  import opened CompileLimits
  import opened Arena

  const SLAB_BYTES := 2_712
  const SWEEP_COUNTERS := 339
  const JUDGE_OWNERS := 46
  const GATE_OWNERS := 58
  const HASH_BUFFER := 65_536
  const OUTPUT_MAX := 33_554_432
  const CHUNK_MAX := 65_536
  const PLATFORM_MAX := 0x7FFF_FFFF_FFFF_FFFF

  // ---- big-endian integers -------------------------------------------------------------------

  /** The value of bytes, most significant first. */
  function BigEndian(b: seq<Byte>): nat {
    if b == [] then 0 else BigEndian(b[..|b| - 1]) * 0x100 + b[|b| - 1]
  }

  /** A value in exactly n bytes, high bits dropped. */
  function Pack(v: nat, n: nat): (b: seq<Byte>)
    ensures |b| == n
  {
    if n == 0 then [] else Pack(v / 0x100, n - 1) + [v % 0x100]
  }

  function Power(n: nat): nat {
    if n == 0 then 1 else 0x100 * Power(n - 1)
  }

  lemma {:induction false} PackInverts(v: nat, n: nat)
    requires v < Power(n)
    ensures BigEndian(Pack(v, n)) == v
  {
    if n > 0 {
      PackInverts(v / 0x100, n - 1);
      assert Pack(v, n)[..n - 1] == Pack(v / 0x100, n - 1);
    }
  }

  /** Every byte string is the packing of its value: cells and bytes determine each other. */
  lemma {:induction false} UnpackInverts(b: seq<Byte>)
    ensures BigEndian(b) < Power(|b|) && Pack(BigEndian(b), |b|) == b
  {
    if b != [] {
      UnpackInverts(b[..|b| - 1]);
      assert b == b[..|b| - 1] + [b[|b| - 1]];
    }
  }

  lemma EightBytes()
    ensures Power(8) == U64_MAX + 1
  {
    assert Power(4) == 0x1_0000_0000;
  }

  lemma {:induction false} ZeroBytes(b: seq<Byte>)
    requires forall i :: 0 <= i < |b| ==> b[i] == 0
    ensures BigEndian(b) == 0
  {
    if b != [] {
      ZeroBytes(b[..|b| - 1]);
    }
  }

  // ---- scratch slab --------------------------------------------------------------------------

  function Cell(bytes: seq<Byte>, i: nat): nat
    requires (i + 1) * 8 <= |bytes|
  {
    BigEndian(bytes[i * 8..i * 8 + 8])
  }

  /** A cell is eight bytes, most significant first. */
  lemma CellIsBigEndian(bytes: seq<Byte>, i: nat)
    requires (i + 1) * 8 <= |bytes|
    ensures Cell(bytes, i) ==
      bytes[8 * i] as int * 0x100_0000_0000_0000 + bytes[8 * i + 1] as int * 0x1_0000_0000_0000
      + bytes[8 * i + 2] as int * 0x100_0000_0000 + bytes[8 * i + 3] as int * 0x1_0000_0000
      + bytes[8 * i + 4] as int * 0x100_0000 + bytes[8 * i + 5] as int * 0x1_0000
      + bytes[8 * i + 6] as int * 0x100 + bytes[8 * i + 7]
  {
    var b := bytes[i * 8..i * 8 + 8];
    assert BigEndian(b[..0]) == 0;
    PrefixValue(b, 0);
    PrefixValue(b, 1);
    PrefixValue(b, 2);
    PrefixValue(b, 3);
    PrefixValue(b, 4);
    PrefixValue(b, 5);
    PrefixValue(b, 6);
    PrefixValue(b, 7);
    assert b[..8] == b;
  }

  lemma PrefixValue(b: seq<Byte>, k: nat)
    requires k < |b|
    ensures BigEndian(b[..k + 1]) == BigEndian(b[..k]) * 0x100 + b[k]
  {
    assert b[..k + 1][..k] == b[..k];
  }

  class PhaseBScratch {
    const slab: array<Byte>
    var scratchUsed: nat

    ghost predicate Valid()
      reads this
    {
      slab.Length == SLAB_BYTES && scratchUsed <= SLAB_BYTES
    }

    /** The slab read as its 339 cells. */
    ghost function Cells(): (c: seq<nat>)
      requires Valid()
      reads this, slab
      ensures |c| == 339
    {
      var bytes := slab[..];
      seq(SWEEP_COUNTERS, i requires 0 <= i < SWEEP_COUNTERS => Cell(bytes, i))
    }

    /** A cell is live when it ends inside the carved region. */
    predicate Live(index: int)
      reads this
    {
      index >= 0 && (index + 1) * 8 <= scratchUsed
    }

    constructor ()
      ensures Valid() && fresh(slab) && scratchUsed == 0
      ensures forall i :: 0 <= i < 339 ==> Cells()[i] == 0
    {
      slab := new Byte[SLAB_BYTES](_ => 0);
      scratchUsed := 0;
      new;
      forall i | 0 <= i < SWEEP_COUNTERS ensures Cell(slab[..], i) == 0 {
        ZeroBytes(slab[..][i * 8..i * 8 + 8]);
      }
    }

    /** One charge of the whole slab, kept exactly when a slab comes back. */
    static method Allocate(arena: RetainedArena, injector: FaultInjector?, allocatorFails: bool)
      returns (r: Result<PhaseBScratch?, Trouble>)
      requires Sound(arena.Value()) && (injector != null ==> Armed(injector.Value()))
      modifies arena, injector
      ensures Sound(arena.Value())
      ensures r.Ok? && r.value != null ==>
        fresh(r.value) && fresh(r.value.slab) && r.value.Valid() && r.value.scratchUsed == 0
      ensures arena.used == old(arena.used) + if r.Ok? && r.value != null then 2_712 else 0
      ensures r == Ok(null) <==> OutcomeOf(old(arena.Value()), Reserve(2_712)) == Exceeded
      ensures r.Ok? && r.value != null <==>
        && OutcomeOf(old(arena.Value()), Reserve(2_712)) == Admitted && !allocatorFails
        && (injector != null ==> old(injector.ordinal) < U64_MAX && !Fires(old(injector.Value())))
    {
      var outcome := arena.ModeledAllocate(SLAB_BYTES, injector, allocatorFails);
      match outcome
      case Admitted =>
        var scratch := new PhaseBScratch();
        return Ok(scratch);
      case Exceeded => return Ok(null);
      case Failed(trouble) => return Err(trouble);
    }

    method Carve(count: int) returns (r: Result<(), Trouble>)
      requires Valid()
      modifies this`scratchUsed
      ensures Valid()
      ensures r.Ok? <==> 0 <= count && old(scratchUsed) + count <= 2_712
      ensures scratchUsed == if r.Ok? then old(scratchUsed) + count else old(scratchUsed)
    {
      var candidate := CheckedAdd(scratchUsed, count);
      if candidate.Err? {
        return Err(Arithmetic);
      }
      if candidate.value > SLAB_BYTES {
        return Err(Internal);
      }
      scratchUsed := candidate.value;
      return Ok(());
    }

    /** Zeroes the first cells of the slab and makes exactly them live. */
    method ClearCells(count: nat)
      requires Valid() && count <= SWEEP_COUNTERS
      modifies this`scratchUsed, slab
      ensures Valid() && scratchUsed == count * 8
      ensures forall i :: 0 <= i < count ==> Cells()[i] == 0
      ensures forall i :: count <= i < SWEEP_COUNTERS ==> Cells()[i] == old(Cells())[i]
    {
      scratchUsed := 0;
      var carved := Carve(count * 8);
      ghost var before := slab[..];
      for k := 0 to count * 8
        invariant scratchUsed == count * 8
        invariant forall i :: 0 <= i < k ==> slab[i] == 0
        invariant forall i :: k <= i < slab.Length ==> slab[i] == before[i]
      {
        slab[k] := 0;
      }
      forall i | 0 <= i < SWEEP_COUNTERS
        ensures Cell(slab[..], i) == if i < count then 0 else Cell(before, i)
      {
        if i < count {
          ZeroBytes(slab[..][i * 8..i * 8 + 8]);
        } else {
          assert slab[..][i * 8..i * 8 + 8] == before[i * 8..i * 8 + 8];
        }
      }
    }

    method ClearCounterBlock()
      requires Valid()
      modifies this`scratchUsed, slab
      ensures Valid() && scratchUsed == 2_712
      ensures forall i :: 0 <= i < 339 ==> Cells()[i] == 0 && Live(i)
    {
      ClearCells(SWEEP_COUNTERS);
    }

    method ClearMappingTable(owners: int) returns (r: Result<(), Trouble>)
      requires Valid()
      modifies this`scratchUsed, slab
      ensures Valid()
      ensures r.Ok? <==> owners == 46 || owners == 58
      ensures r.Err? ==> scratchUsed == old(scratchUsed) && slab[..] == old(slab[..])
      ensures r.Ok? ==>
        && (forall i :: 0 <= i < owners ==> Cells()[i] == 0)
        && (forall i :: owners <= i < SWEEP_COUNTERS ==> Cells()[i] == old(Cells())[i])
        && forall i :: Live(i) <==> 0 <= i < owners
    {
      if owners != JUDGE_OWNERS && owners != GATE_OWNERS {
        return Err(Internal);
      }
      ClearCells(owners);
      return Ok(());
    }

    method GetU64(index: int) returns (r: Result<nat, Trouble>)
      requires Valid()
      ensures r == if Live(index) && index < SWEEP_COUNTERS then Ok(Cells()[index]) else Err(Internal)
    {
      if index < 0 || (index + 1) * 8 > scratchUsed {
        return Err(Internal);
      }
      var v: nat := 0;
      for k := 0 to 8
        invariant v == BigEndian(slab[index * 8..index * 8 + k])
      {
        assert slab[index * 8..index * 8 + k + 1][..k] == slab[index * 8..index * 8 + k];
        v := v * 0x100 + slab[index * 8 + k];
      }
      assert slab[..][index * 8..index * 8 + 8] == slab[index * 8..index * 8 + 8];
      return Ok(v);
    }

    /** Writes one live cell and no other. */
    method SetU64(index: int, value: int) returns (r: Result<(), Trouble>)
      requires Valid()
      modifies slab
      ensures Valid()
      ensures r == if !Live(index) then Err(Internal)
                   else if !(0 <= value <= U64_MAX) then Err(Arithmetic) else Ok(())
      ensures r.Err? ==> slab[..] == old(slab[..])
      ensures r.Ok? ==> index < SWEEP_COUNTERS && Cells() == old(Cells())[index := value]
    {
      if index < 0 || (index + 1) * 8 > scratchUsed {
        return Err(Internal);
      }
      if CheckedNonnegative(value).Err? {
        return Err(Arithmetic);
      }
      ghost var before := slab[..];
      ghost var cells := Cells();
      var packed := Pack(value, 8);
      for k := 0 to 8
        invariant forall j :: 0 <= j < k ==> slab[index * 8 + j] == packed[j]
        invariant forall j :: 0 <= j < slab.Length && !(index * 8 <= j < index * 8 + k) ==> slab[j] == before[j]
      {
        slab[index * 8 + k] := packed[k];
      }
      EightBytes();
      PackInverts(value, 8);
      assert slab[..][index * 8..index * 8 + 8] == packed;
      forall i | 0 <= i < SWEEP_COUNTERS ensures Cells()[i] == cells[index := value][i] {
        if i != index {
          assert slab[..][i * 8..i * 8 + 8] == before[i * 8..i * 8 + 8];
        }
      }
      return Ok(());
    }
  }

  // ---- shared hash buffer --------------------------------------------------------------------

  function ChargeWhile(live: bool): nat {
    if live then HASH_BUFFER else 0
  }

  class SharedHashBuffer {
    var live: bool

    constructor ()
      ensures live
    {
      live := true;
    }

    /** Allocation charges the arena exactly when it yields a buffer, which is then live. */
    static method AllocatePhaseA(arena: RetainedArena, injector: FaultInjector?, allocatorFails: bool)
      returns (r: Result<SharedHashBuffer?, Trouble>)
      requires Sound(arena.Value()) && (injector != null ==> Armed(injector.Value()))
      modifies arena, injector
      ensures Sound(arena.Value())
      ensures r.Ok? && r.value != null ==> fresh(r.value) && r.value.live
      ensures arena.used
           == old(arena.used) + ChargeWhile(r.Ok? && r.value != null)
      ensures r == Ok(null) <==> OutcomeOf(old(arena.Value()), Reserve(65_536)) == Exceeded
      ensures r.Ok? && r.value != null <==>
        && OutcomeOf(old(arena.Value()), Reserve(65_536)) == Admitted && !allocatorFails
        && (injector != null ==> old(injector.ordinal) < U64_MAX && !Fires(old(injector.Value())))
    {
      var outcome := arena.ModeledAllocate(HASH_BUFFER, injector, allocatorFails);
      match outcome
      case Admitted =>
        var buffer := new SharedHashBuffer();
        return Ok(buffer);
      case Exceeded => return Ok(null);
      case Failed(trouble) => return Err(trouble);
    }

    /** The rest of the arena's charge never moves: the buffer is charged exactly while live. */
    method LogicalRelease(arena: RetainedArena) returns (r: Result<(), Trouble>)
      requires Sound(arena.Value())
      modifies this, arena
      ensures Sound(arena.Value())
      ensures arena.used - ChargeWhile(live) == old(arena.used) - ChargeWhile(old(live))
      ensures r.Ok? <==> old(live) && old(arena.used) >= 65_536
      ensures live == (old(live) && r.Err?)
    {
      if !live {
        return Err(Internal);
      }
      var outcome := arena.ReleaseCharge(HASH_BUFFER);
      if outcome != Admitted {
        return Err(Internal);
      }
      live := false;
      return Ok(());
    }

    method LogicalReservePhaseD(arena: RetainedArena) returns (r: Result<bool, Trouble>)
      requires Sound(arena.Value())
      modifies this, arena
      ensures Sound(arena.Value())
      ensures arena.used - ChargeWhile(live) == old(arena.used) - ChargeWhile(old(live))
      ensures old(live) ==> r == Err(Internal) && live
      ensures !old(live) ==>
        match OutcomeOf(old(arena.Value()), Reserve(65_536))
        case Admitted => r == Ok(true) && live
        case Exceeded => r == Ok(false) && !live
        case Failed(trouble) => r == Err(trouble) && !live
    {
      if live {
        return Err(Internal);
      }
      var outcome := arena.ReserveCharge(HASH_BUFFER);
      if outcome.Failed? {
        return Err(outcome.trouble);
      }
      live := outcome == Admitted;
      return Ok(live);
    }
  }

  // ---- output sink ---------------------------------------------------------------------------

  class OutputSink {
    const buffer: array<Byte>
    const chunkMax: nat
    var offset: nat

    ghost predicate Valid()
      reads this
    {
      offset <= buffer.Length <= U64_MAX
    }

    /** The accepted chunks so far, in order. */
    ghost function Written(): seq<Byte>
      requires Valid()
      reads this, buffer
    {
      buffer[..offset]
    }

    constructor (size: nat, chunkMax: nat)
      requires size <= U64_MAX
      ensures Valid() && fresh(buffer) && Written() == []
      ensures buffer.Length == size && this.chunkMax == chunkMax
    {
      buffer := new Byte[size](_ => 0);
      this.chunkMax, offset := chunkMax, 0;
    }

    /** The sink exists only for a size within the output cap, and past the injector. */
    static method Open(candidateSize: int, maximum: nat, chunkMax: nat, injector: FaultInjector?,
        allocatorFails: bool)
      returns (r: Result<OutputSink, Trouble>)
      requires maximum <= 33_554_432 && (injector != null ==> Armed(injector.Value()))
      modifies injector
      ensures r.Ok? ==>
        && fresh(r.value) && fresh(r.value.buffer) && r.value.Valid() && r.value.Written() == []
        && r.value.buffer.Length == candidateSize <= maximum && r.value.chunkMax == chunkMax
      ensures r.Ok? <==>
        && 0 <= candidateSize <= maximum && !allocatorFails
        && (injector != null ==> old(injector.ordinal) < U64_MAX && !Fires(old(injector.Value())))
      ensures injector != null && 0 <= candidateSize <= maximum ==> injector.Value() == Tick(old(injector.Value()))
    {
      if CheckedNonnegative(candidateSize).Err? || candidateSize > PLATFORM_MAX {
        return Err(Arithmetic);
      }
      if candidateSize > maximum {
        return Err(Internal);
      }
      if injector != null {
        var admitted := injector.BeforeModeledAllocation();
        if admitted.Err? {
          return Err(admitted.error);
        }
      }
      if allocatorFails {
        return Err(Memory);
      }
      var sink := new OutputSink(candidateSize, chunkMax);
      return Ok(sink);
    }

    /** A chunk is accepted whole or not at all. */
    method Write(chunk: seq<Byte>) returns (r: Result<(), Trouble>)
      requires Valid()
      modifies this`offset, buffer
      ensures Valid()
      ensures r.Ok? <==> |chunk| <= chunkMax && |old(Written())| + |chunk| <= buffer.Length
      ensures Written() == if r.Ok? then old(Written()) + chunk else old(Written())
    {
      if |chunk| > chunkMax {
        return Err(Internal);
      }
      var end := CheckedAdd(offset, |chunk|);
      if end.Err? {
        return Err(Arithmetic);
      }
      if end.value > buffer.Length {
        return Err(Internal);
      }
      ghost var before := buffer[..offset];
      var start := offset;
      for i := 0 to |chunk|
        invariant start + |chunk| <= buffer.Length && buffer[..start + i] == before + chunk[..i]
      {
        buffer[start + i] := chunk[i];
      }
      offset := end.value;
      return Ok(());
    }

    method Finish() returns (r: Result<seq<Byte>, Trouble>)
      requires Valid()
      ensures r == if |Written()| == buffer.Length then Ok(Written()) else Err(Internal)
    {
      if offset != buffer.Length {
        return Err(Internal);
      }
      assert buffer[..] == buffer[..offset];
      return Ok(buffer[..]);
    }
  }

  /** Chunks no longer than the cap whose lengths add up to the declared size come back joined, byte
      for byte; anything else is refused. */
  method StreamOut(size: int, chunks: seq<seq<Byte>>) returns (r: Result<seq<Byte>, Trouble>)
    ensures r.Ok? <==>
      && |Join(chunks)| == size <= 33_554_432
      && forall i :: 0 <= i < |chunks| ==> |chunks[i]| <= 65_536
    ensures r.Ok? ==> r.value == Join(chunks)
  {
    hide Join;
    var sink :- OutputSink.Open(size, OUTPUT_MAX, CHUNK_MAX, null, false);
    NothingJoined(chunks);
    for i := 0 to |chunks|
      invariant sink.Valid() && fresh(sink) && fresh(sink.buffer) && sink.buffer.Length == size
      invariant sink.chunkMax == CHUNK_MAX
      invariant sink.Written() == Join(chunks[..i])
      invariant forall j :: 0 <= j < i ==> |chunks[j]| <= CHUNK_MAX
    {
      OneMoreChunk(chunks, i);
      var written := sink.Write(chunks[i]);
      if written.Err? {
        FrontIsShorter(chunks, i + 1);
        return Err(written.error);
      }
    }
    assert chunks[..|chunks|] == chunks;
    r := sink.Finish();
  }

  lemma NothingJoined(chunks: seq<seq<Byte>>)
    ensures Join(chunks[..0]) == []
  {
  }

  lemma OneMoreChunk(chunks: seq<seq<Byte>>, i: nat)
    requires i < |chunks|
    ensures Join(chunks[..i + 1]) == Join(chunks[..i]) + chunks[i]
  {
    assert chunks[..i + 1] == chunks[..i] + [chunks[i]];
    JoinOfConcat(chunks[..i], [chunks[i]]);
    JoinOfOne(chunks[i]);
  }

  lemma FrontIsShorter(chunks: seq<seq<Byte>>, i: nat)
    requires i <= |chunks|
    ensures |Join(chunks[..i])| <= |Join(chunks)|
  {
    assert chunks == chunks[..i] + chunks[i..];
    JoinOfConcat(chunks[..i], chunks[i..]);
  }
}
