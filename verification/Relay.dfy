/** The worker proxy's relay loop: bytes between the daemon and the worker, with back-pressure,
    partial writes, half-close and one optional duplicated frame. Readiness, received chunks and
    send counts come from an arbitrary script. */
module Relay {
  import opened Text
  import opened Outcomes
  import opened Framing

  /** The two sockets. Daemon is the daemon's endpoint, Worker the proxy's end of the pair. */
  datatype Side = Daemon | Worker

  function Other(side: Side): Side {
    if side == Daemon then Worker else Daemon
  }

  /** A dictionary keyed by the two endpoints. */
  datatype Both<T> = Both(daemon: T, worker: T) {
    function At(side: Side): T {
      if side == Daemon then daemon else worker
    }

    function With(side: Side, value: T): Both<T> {
      if side == Daemon then this.(daemon := value) else this.(worker := value)
    }
  }

  /** Modes that reach the relay loop; the others exit before it. */
  datatype Mode = Plain | CrashDuringTurn | DuplicateReceipt(index: int)

  const CHUNK := 0x1_0000

  /** No single receive returns more than it was asked for. */
  type Chunk = b: seq<Byte> | |b| <= CHUNK witness []

  datatype Recv = WouldBlock | Data(bytes: Chunk) | Broken

  datatype Send = SendBlocks | Sent(count: nat) | SendBroken

  /** What one endpoint would do if the loop touched it now. */
  datatype Offer = Offer(readable: bool, writable: bool, recv: Recv, send: Send)

  /** One return of select: which endpoint is listed first, and whether the child has exited. */
  datatype Batch = Batch(daemonFirst: bool, offers: Both<Offer>, exited: bool)

  datatype Interest = Interest(read: bool, write: bool)

  datatype Fault = PartialFrame | OversizeFrame | SocketError | CrashExit

  datatype Outcome = StillRunning | Drained | ChildGone | MissingReceipt | Faulted(fault: Fault)

  /** What the daemon should get of the worker's bytes. */
  function Forwarded(mode: Mode, received: seq<Byte>, maxFrame: nat): seq<Byte> {
    if mode.DuplicateReceipt? then Join(Duplicated(CutFrames(received, maxFrame).frames, mode.index))
    else received
  }

  lemma IncompleteIsShort(b: seq<Byte>, limit: nat)
    requires IsIncomplete(b, limit)
    ensures |b| < 4 + limit
  {
  }

  lemma TailOf(a: seq<Byte>, b: seq<Byte>)
    ensures (a + b)[|a|..] == b && |a| <= |a + b|
  {
  }

  lemma SameFault(a: Option<Fault>, b: Option<Fault>)
    requires a == Some(PartialFrame) <==> b == Some(PartialFrame)
    requires a == Some(OversizeFrame) <==> b == Some(OversizeFrame)
    requires a == Some(SocketError) <==> b == Some(SocketError)
    requires a == Some(CrashExit) <==> b == Some(CrashExit)
    ensures a == b
  {
    match a {
      case None =>
        match b {
          case None =>
          case Some(PartialFrame) =>
          case Some(OversizeFrame) =>
          case Some(SocketError) =>
          case Some(CrashExit) =>
        }
      case Some(PartialFrame) =>
      case Some(OversizeFrame) =>
      case Some(SocketError) =>
      case Some(CrashExit) =>
    }
  }

  // ---- the loop as a function of its script --------------------------------------------------

  /** What has come in and gone out so far; buffers and registrations follow from it. */
  datatype Progress = Progress(received: Both<seq<Byte>>, delivered: Both<seq<Byte>>, readOpen: Both<bool>)

  /** What one endpoint does in an event, once its mask is applied. */
  datatype Touch = Touch(recv: Recv, send: Send)

  function Arriving(recv: Recv): seq<Byte> {
    if recv.Data? then recv.bytes else []
  }

  /** How many pending bytes a send takes. */
  function Leaving(buffer: seq<Byte>, send: Send): (k: nat)
    ensures k <= |buffer|
  {
    if !send.Sent? then 0 else if send.count <= |buffer| then send.count else |buffer|
  }

  /** What the event mask lets an entry do. */
  function Masked(mask: Interest, offer: Offer): Touch {
    Touch(if mask.read && offer.readable then offer.recv else WouldBlock,
          if mask.write && offer.writable then offer.send else SendBlocks)
  }

  predicate HasEvent(mask: Interest, offer: Offer) {
    (mask.read && offer.readable) || (mask.write && offer.writable)
  }

  /** The bytes owed to a side, given everything received from the other. */
  function OwedTo(mode: Mode, maxFrame: nat, p: Progress, side: Side): seq<Byte> {
    if side == Worker then p.received.daemon else Forwarded(mode, p.received.worker, maxFrame)
  }

  function PendingFor(mode: Mode, maxFrame: nat, p: Progress, side: Side): seq<Byte> {
    var owed := OwedTo(mode, maxFrame, p, side);
    if |p.delivered.At(side)| <= |owed| then owed[|p.delivered.At(side)|..] else []
  }

  function WantedIn(mode: Mode, maxFrame: nat, p: Progress, side: Side): Interest {
    Interest(
      p.readOpen.At(side) && |PendingFor(mode, maxFrame, p, Other(side))| < Max(CHUNK, maxFrame + 4),
      PendingFor(mode, maxFrame, p, side) != [])
  }

  function ReadFault(mode: Mode, maxFrame: nat, p: Progress, side: Side, recv: Recv): Option<Fault> {
    var whole := CutFrames(p.received.worker + Arriving(recv), maxFrame);
    match recv
    case WouldBlock => None
    case Broken => Some(SocketError)
    case Data(bytes) =>
      if bytes == [] then
        if side == Worker && mode.DuplicateReceipt? && whole.rest != [] then Some(PartialFrame) else None
      else if mode.CrashDuringTurn? && side == Daemon then Some(CrashExit)
      else if mode.DuplicateReceipt? && side == Worker && whole.oversize then Some(OversizeFrame)
      else None
  }

  function AfterRead(p: Progress, side: Side, recv: Recv): Progress {
    p.(received := p.received.With(side, p.received.At(side) + Arriving(recv)),
       readOpen := if recv == Data([]) then p.readOpen.With(side, false) else p.readOpen)
  }

  function AfterWrite(mode: Mode, maxFrame: nat, p: Progress, side: Side, send: Send): Progress {
    var buffer := PendingFor(mode, maxFrame, p, side);
    p.(delivered := p.delivered.With(side, p.delivered.At(side) + buffer[..Leaving(buffer, send)]))
  }

  function AfterTouch(mode: Mode, maxFrame: nat, p: Progress, side: Side, touch: Touch): Result<Progress, Fault> {
    var fault := ReadFault(mode, maxFrame, p, side, touch.recv);
    if fault.Some? then Err(fault.value)
    else
      var q := AfterRead(p, side, touch.recv);
      if PendingFor(mode, maxFrame, p, side) != [] && touch.send.SendBroken? then Err(SocketError)
      else Ok(AfterWrite(mode, maxFrame, q, side, touch.send))
  }

  function AfterEntry(mode: Mode, maxFrame: nat, p: Progress, side: Side, mask: Interest, offer: Offer)
    : Result<Progress, Fault>
  {
    if HasEvent(mask, offer) then AfterTouch(mode, maxFrame, p, side, Masked(mask, offer)) else Ok(p)
  }

  /** One select batch: both entries under the interest registered before it. */
  function AfterBatch(mode: Mode, maxFrame: nat, p: Progress, batch: Batch): Result<Progress, Fault> {
    var first := if batch.daemonFirst then Daemon else Worker;
    var second := Other(first);
    var q :- AfterEntry(mode, maxFrame, p, first, WantedIn(mode, maxFrame, p, first), batch.offers.At(first));
    AfterEntry(mode, maxFrame, q, second, WantedIn(mode, maxFrame, p, second), batch.offers.At(second))
  }

  /** A batch acts on the interest it began with: what was not wanted then is not read, and an endpoint
      with no backlog then is sent nothing, even if the other entry gives it one. */
  lemma BatchKeepsToInterest(mode: Mode, maxFrame: nat, p: Progress, batch: Batch, side: Side)
    requires AfterBatch(mode, maxFrame, p, batch).Ok?
    ensures var q := AfterBatch(mode, maxFrame, p, batch).value;
      && (PendingFor(mode, maxFrame, p, side) == [] ==> q.delivered.At(side) == p.delivered.At(side))
      && (!p.readOpen.At(side) || |PendingFor(mode, maxFrame, p, Other(side))| >= Max(0x1_0000, maxFrame + 4) ==>
            q.received.At(side) == p.received.At(side) && q.readOpen.At(side) == p.readOpen.At(side))
  {
    hide PendingFor, ReadFault;
    var first := if batch.daemonFirst then Daemon else Worker;
    var second := Other(first);
    var mask, offer := WantedIn(mode, maxFrame, p, first), batch.offers.At(first);
    var middle := AfterEntry(mode, maxFrame, p, first, mask, offer).value;
    EntryKeepsToInterest(mode, maxFrame, p, first, mask, offer);
    EntryKeepsToInterest(mode, maxFrame, middle, second, WantedIn(mode, maxFrame, p, second),
      batch.offers.At(second));
  }

  /** An entry touches its own side only, and of that only what its mask allows. */
  lemma EntryKeepsToInterest(mode: Mode, maxFrame: nat, p: Progress, side: Side, mask: Interest, offer: Offer)
    requires AfterEntry(mode, maxFrame, p, side, mask, offer).Ok?
    ensures var q := AfterEntry(mode, maxFrame, p, side, mask, offer).value;
      && q.received.At(Other(side)) == p.received.At(Other(side))
      && q.delivered.At(Other(side)) == p.delivered.At(Other(side))
      && q.readOpen.At(Other(side)) == p.readOpen.At(Other(side))
      && (!mask.write ==> q.delivered.At(side) == p.delivered.At(side))
      && (!mask.read ==> q.received.At(side) == p.received.At(side) && q.readOpen.At(side) == p.readOpen.At(side))
  {
    hide PendingFor;
  }

  function AfterBatches(mode: Mode, maxFrame: nat, p: Progress, script: seq<Batch>): Result<Progress, Fault> {
    if script == [] then Ok(p)
    else
      var q :- AfterBatches(mode, maxFrame, p, script[..|script| - 1]);
      AfterBatch(mode, maxFrame, q, script[|script| - 1])
  }

  class RelayLoop {
    const mode: Mode
    const maxFrame: nat
    const pendingLimit: int
    const workerBuffer: ByteBuffer

    var readOpen: Both<bool>
    var pending: Both<seq<Byte>>
    var shutdownPending: Both<bool>
    var writeClosed: Both<bool>
    var interest: Both<Interest>
    var workerFrames: nat

    ghost var received: Both<seq<Byte>>
    ghost var delivered: Both<seq<Byte>>

    /** The bytes owed to a side, given everything received from the other. */
    ghost function Owed(side: Side): seq<Byte>
      reads this
    {
      OwedTo(mode, maxFrame, Seen(), side)
    }

    ghost function Seen(): Progress
      reads this
    {
      Progress(received, delivered, readOpen)
    }

    /** The buffers and the registrations are the ones that follow from what has been seen. */
    lemma SeenDetermines(side: Side)
      requires Valid()
      ensures pending.At(side) == PendingFor(mode, maxFrame, Seen(), side)
      ensures WantedInterest(side) == WantedIn(mode, maxFrame, Seen(), side)
    {
      hide CutFrames, Join, Duplicated, Forwarded, Frames, Holds;
      assert SideValid(side) && SideValid(Other(side));
      TailOf(delivered.At(side), pending.At(side));
      TailOf(delivered.At(Other(side)), pending.At(Other(side)));
    }

    /** An endpoint is read while it is open and the other side's backlog is below 64 KiB or one frame of
        the largest size, whichever is more; it is written while it has a backlog. */
    lemma WantedExactly(side: Side)
      requires Valid()
      ensures WantedInterest(side).read <==>
        readOpen.At(side) && (|pending.At(Other(side))| < 65_536 || |pending.At(Other(side))| < maxFrame + 4)
      ensures WantedInterest(side).write <==> |pending.At(side)| > 0
    {
      hide SideValid, Frames, Holds;
    }

    /** How far a pending buffer can grow. */
    function Bound(side: Side): int {
      pendingLimit + CHUNK
      + if side == Daemon && mode.DuplicateReceipt? then 2 * (maxFrame + 4) else 0
    }

    /** One side's books: nothing lost, closed exactly when it should be, buffer bounded. */
    ghost predicate SideValid(side: Side)
      reads this
    {
      && delivered.At(side) + pending.At(side) == Owed(side)
      && shutdownPending.At(side) == !readOpen.At(Other(side))
      && writeClosed.At(side) == (shutdownPending.At(side) && pending.At(side) == [])
      && |pending.At(side)| < Bound(side)
    }

    ghost predicate Frames()
      reads this, workerBuffer
    {
      if mode.DuplicateReceipt? then
        var cut := CutFrames(received.worker, maxFrame);
        && !cut.oversize && workerBuffer.bytes == cut.rest && workerFrames == |cut.frames|
        && (!readOpen.worker ==> cut.rest == [])
      else
        workerBuffer.bytes == [] && workerFrames == 0
    }

    /** Nothing from the daemon gets past a crash-during-turn proxy. */
    ghost predicate Holds()
      reads this
    {
      mode.CrashDuringTurn? ==> received.daemon == []
    }

    ghost predicate Valid()
      reads this, workerBuffer
    {
      && pendingLimit == Max(CHUNK, maxFrame + 4)
      && SideValid(Daemon) && SideValid(Worker) && Frames() && Holds()
    }

    /** What holds even after a fault: every side has got a beginning of what it is owed. */
    ghost predicate Safe()
      reads this
    {
      delivered.daemon <= Owed(Daemon) && delivered.worker <= Owed(Worker) && Holds()
    }

    lemma ValidIsSafe()
      requires Valid()
      ensures Safe()
    {
      hide CutFrames, Join, Duplicated;
    }

    /** Registrations agree with the state. */
    ghost predicate Registered()
      reads this
    {
      interest.daemon == WantedInterest(Daemon) && interest.worker == WantedInterest(Worker)
    }

    function WantedInterest(side: Side): Interest
      reads this
    {
      Interest(readOpen.At(side) && |pending.At(Other(side))| < pendingLimit, pending.At(side) != [])
    }

    constructor (mode: Mode, maxFrame: nat)
      ensures Valid() && Registered() && fresh(workerBuffer)
      ensures this.mode == mode && this.maxFrame == maxFrame
      ensures Seen() == Progress(Both([], []), Both([], []), Both(true, true))
    {
      this.mode, this.maxFrame := mode, maxFrame;
      pendingLimit := Max(CHUNK, maxFrame + 4);
      workerBuffer := new ByteBuffer();
      readOpen, pending := Both(true, true), Both([], []);
      shutdownPending, writeClosed := Both(false, false), Both(false, false);
      interest := Both(Interest(true, false), Interest(true, false));
      workerFrames := 0;
      received, delivered := Both([], []), Both([], []);
    }

    method FinishHalfClose(side: Side)
      modifies this`writeClosed
      ensures writeClosed == old(writeClosed).With(side,
        old(writeClosed).At(side) || (shutdownPending.At(side) && pending.At(side) == []))
    {
      if shutdownPending.At(side) && pending.At(side) == [] && !writeClosed.At(side) {
        writeClosed := writeClosed.With(side, true);
      }
    }

    method RefreshRegistration(side: Side)
      modifies this`interest
      ensures interest == old(interest).With(side, WantedInterest(side))
      ensures old(Valid()) ==> Valid()
    {
      var read := readOpen.At(side) && |pending.At(Other(side))| < pendingLimit;
      var write := pending.At(side) != [];
      interest := interest.With(side, Interest(read, write));
    }

    /** Worker bytes in duplicate mode: whole frames go on, the chosen one twice. */
    method ForwardFrames(data: Chunk) returns (fault: Option<Fault>)
      requires Valid() && mode.DuplicateReceipt?
      requires |pending.daemon| < pendingLimit && readOpen.worker
      modifies this`pending, this`workerFrames, this`received, workerBuffer
      ensures fault.None? ==>
        && Valid()
        && received == old(received).(worker := old(received).worker + data)
        && pending.worker == old(pending).worker
      ensures fault.Some? ==> fault == Some(OversizeFrame) && unchanged(this)
      ensures fault.Some? <==> CutFrames(old(received).worker + data, maxFrame).oversize
    {
      hide CutFrames, Join, Duplicated, IsFrame, IsIncomplete, IsOversize;
      ghost var before := CutFrames(received.worker, maxFrame);
      CutResumes(received.worker, data, maxFrame);
      CutIsComplete(received.worker, maxFrame);
      IncompleteIsShort(workerBuffer.bytes, maxFrame);
      workerBuffer.bytes := workerBuffer.bytes + data;
      CutIsComplete(workerBuffer.bytes, maxFrame);
      var popped := PopU32beFrames(workerBuffer, maxFrame);
      if popped.Err? {
        return Some(OversizeFrame);
      }
      AppendFrames(popped.value, before.frames);
      received := received.(worker := received.worker + data);
      assert SideValid(Daemon) && SideValid(Worker);
      return None;
    }

    method AppendFrames(frames: seq<seq<Byte>>, ghost earlier: seq<seq<Byte>>)
      requires mode.DuplicateReceipt? && workerFrames == |earlier|
      requires delivered.daemon + pending.daemon == Join(Duplicated(earlier, mode.index))
      requires forall i :: 0 <= i < |frames| ==> IsFrame(frames[i], maxFrame)
      modifies this`pending, this`workerFrames
      ensures workerFrames == |earlier + frames|
      ensures delivered.daemon + pending.daemon == Join(Duplicated(earlier + frames, mode.index))
      ensures pending.worker == old(pending).worker
      ensures |pending.daemon| <= |old(pending).daemon| + |Join(frames)| + maxFrame + 4
    {
      assert earlier + frames[..0] == earlier;
      for k := 0 to |frames|
        invariant workerFrames == |earlier + frames[..k]|
        invariant delivered.daemon + pending.daemon == Join(Duplicated(earlier + frames[..k], mode.index))
        invariant pending.worker == old(pending).worker
        invariant |pending.daemon| == |old(pending).daemon| + |Join(frames[..k])|
          + if |earlier| < mode.index <= |earlier| + k then |frames[mode.index - |earlier| - 1]| else 0
      {
        var frame := frames[k];
        assert frames[..k + 1] == frames[..k] + [frame];
        Assoc(earlier, frames[..k], [frame]);
        DuplicatedGrows(earlier + frames[..k], frame, mode.index);
        JoinOfConcat(frames[..k], [frame]);
        JoinOfOne(frame);
        Assoc(delivered.daemon, pending.daemon, frame);
        Assoc(delivered.daemon, pending.daemon + frame, frame);
        workerFrames := workerFrames + 1;
        pending := pending.(daemon := pending.daemon + frame);
        if workerFrames == mode.index {
          pending := pending.(daemon := pending.daemon + frame);
        }
      }
      assert frames[..|frames|] == frames;
    }

    /** The read half of one event. */
    method Read(side: Side, recv: Recv) returns (fault: Option<Fault>)
      requires Valid()
      requires recv.Data? ==> readOpen.At(side) && |pending.At(Other(side))| < pendingLimit
      modifies this, workerBuffer
      ensures delivered == old(delivered) && interest == old(interest)
      ensures fault.None? ==> Valid() && pending.At(side) == old(pending).At(side)
      ensures fault.None? ==>
        && received == old(received).With(side, old(received).At(side) + Arriving(recv))
        && readOpen == (if recv == Data([]) then old(readOpen).With(side, false) else old(readOpen))
        && readOpen.At(Other(side)) == old(readOpen).At(Other(side))
      ensures fault == Some(SocketError) <==> recv.Broken?
      ensures fault == Some(PartialFrame) <==>
        recv == Data([]) && side == Worker && old(workerBuffer.bytes) != []
      ensures fault == Some(CrashExit) <==>
        recv.Data? && recv.bytes != [] && mode.CrashDuringTurn? && side == Daemon
      ensures fault == Some(OversizeFrame) <==>
        && recv.Data? && recv.bytes != [] && mode.DuplicateReceipt? && side == Worker
        && CutFrames(old(received).worker + recv.bytes, maxFrame).oversize
      ensures Safe()
    {
      hide CutFrames, Join, Duplicated;
      ValidIsSafe();
      assert received.At(side) + [] == received.At(side);
      match recv
      case WouldBlock => return None;
      case Broken => return Some(SocketError);
      case Data(data) =>
        if data == [] {
          if side == Worker && workerBuffer.bytes != [] {
            return Some(PartialFrame);
          }
          readOpen := readOpen.With(side, false);
          shutdownPending := shutdownPending.With(Other(side), true);
          FinishHalfClose(Other(side));
          assert SideValid(side) && SideValid(Other(side));
          ValidIsSafe();
          return None;
        }
        if mode.CrashDuringTurn? && side == Daemon {
          return Some(CrashExit);
        }
        if mode.DuplicateReceipt? && side == Worker {
          fault := ForwardFrames(data);
          if fault.None? {
            ValidIsSafe();
          }
          return fault;
        }
        Assoc(delivered.At(Other(side)), pending.At(Other(side)), data);
        pending := pending.With(Other(side), pending.At(Other(side)) + data);
        received := received.With(side, received.At(side) + data);
        assert SideValid(side) && SideValid(Other(side));
        ValidIsSafe();
        return None;
    }

    /** The write half of one event: some prefix of the pending buffer leaves. */
    method Write(side: Side, send: Send) returns (fault: Option<Fault>)
      requires Valid()
      modifies this`pending, this`delivered, this`writeClosed
      ensures Valid()
      ensures pending.At(Other(side)) == old(pending).At(Other(side))
      ensures delivered == old(delivered).With(side,
        old(delivered).At(side) + old(pending).At(side)[..Leaving(old(pending).At(side), send)])
      ensures pending.At(side) == old(pending).At(side)[Leaving(old(pending).At(side), send)..]
      ensures fault == if old(pending).At(side) != [] && send.SendBroken? then Some(SocketError) else None
    {
      hide CutFrames, Join, Duplicated;
      var buffer := pending.At(side);
      assert delivered.At(side) + buffer[..0] == delivered.At(side);
      if buffer == [] {
        return None;
      }
      if send == SendBroken {
        return Some(SocketError);
      }
      var written := Leaving(buffer, send);
      if written > 0 {
        assert delivered.At(side) + buffer[..written] + buffer[written..] == delivered.At(side) + buffer;
        delivered := delivered.With(side, delivered.At(side) + buffer[..written]);
        pending := pending.With(side, buffer[written..]);
        FinishHalfClose(side);
        assert SideValid(side) && SideValid(Other(side));
      }
      return None;
    }

    /** Read, then write, before the registrations are refreshed. */
    method Transfer(side: Side, touch: Touch) returns (fault: Option<Fault>)
      requires Valid()
      requires touch.recv.Data? ==> readOpen.At(side) && |pending.At(Other(side))| < pendingLimit
      modifies this, workerBuffer
      ensures Safe()
      ensures fault.None? ==>
        && Valid() && readOpen.At(Other(side)) == old(readOpen).At(Other(side))
        && |pending.At(side)| <= |old(pending).At(side)|
      ensures AfterTouch(mode, maxFrame, old(Seen()), side, touch)
           == if fault.None? then Ok(Seen()) else Err(fault.value)
    {
      hide Safe, Valid, PendingFor;
      ghost var before := Seen();
      SeenDetermines(side);
      ReadFaultIs(side, touch.recv);
      fault := Read(side, touch.recv);
      SameFault(fault, ReadFault(mode, maxFrame, before, side, touch.recv));
      if fault.Some? {
        return;
      }
      assert Seen() == AfterRead(before, side, touch.recv);
      SeenDetermines(side);
      fault := Write(side, touch.send);
      ValidIsSafe();
    }

    /** The fault of a read, by what has been seen. */
    lemma ReadFaultIs(side: Side, recv: Recv)
      requires Valid()
      ensures var fault := ReadFault(mode, maxFrame, Seen(), side, recv);
        && (fault == Some(SocketError) <==> recv.Broken?)
        && (fault == Some(PartialFrame) <==> recv == Data([]) && side == Worker && workerBuffer.bytes != [])
        && (fault == Some(CrashExit) <==> recv.Data? && recv.bytes != [] && mode.CrashDuringTurn? && side == Daemon)
        && (fault == Some(OversizeFrame) <==>
              && recv.Data? && recv.bytes != [] && mode.DuplicateReceipt? && side == Worker
              && CutFrames(received.worker + recv.bytes, maxFrame).oversize)
    {
      hide CutFrames, SideValid, Holds;
      assert received.worker + [] == received.worker;
    }

    /** One entry of a select batch, under the interest select was called with. */
    method HandleEvent(side: Side, mask: Interest, offer: Offer) returns (fault: Option<Fault>)
      requires Valid()
      requires mask.read ==> readOpen.At(side) && |pending.At(Other(side))| < pendingLimit
      modifies this, workerBuffer
      ensures Safe()
      ensures fault.None? ==>
        && Valid() && Registered()
        && readOpen.At(Other(side)) == old(readOpen).At(Other(side))
        && |pending.At(side)| <= |old(pending).At(side)|
      ensures AfterTouch(mode, maxFrame, old(Seen()), side, Masked(mask, offer))
           == if fault.None? then Ok(Seen()) else Err(fault.value)
    {
      hide Safe, Valid, AfterTouch;
      fault := Transfer(side, Masked(mask, offer));
      if fault.Some? {
        return;
      }
      RefreshRegistration(Daemon);
      RefreshRegistration(Worker);
      ValidIsSafe();
    }

    /** One select batch. The interest used for both entries is the one registered before it. */
    method HandleBatch(batch: Batch) returns (fault: Option<Fault>)
      requires Valid() && Registered()
      modifies this, workerBuffer
      ensures Safe()
      ensures fault.None? ==> Valid() && Registered()
      ensures AfterBatch(mode, maxFrame, old(Seen()), batch)
           == if fault.None? then Ok(Seen()) else Err(fault.value)
    {
      hide Safe, SideValid, Frames, Holds, AfterTouch, WantedIn;
      ValidIsSafe();
      SeenDetermines(Daemon);
      SeenDetermines(Worker);
      var masks := interest;
      var first := if batch.daemonFirst then Daemon else Worker;
      fault := None;
      if HasEvent(masks.At(first), batch.offers.At(first)) {
        fault := HandleEvent(first, masks.At(first), batch.offers.At(first));
        if fault.Some? {
          return;
        }
      }
      var second := Other(first);
      if HasEvent(masks.At(second), batch.offers.At(second)) {
        fault := HandleEvent(second, masks.At(second), batch.offers.At(second));
      }
    }

    /** Both directions done: all that came in has gone out and both write sides are closed. */
    ghost predicate FullyRelayed()
      reads this
    {
      && delivered.worker == received.daemon
      && delivered.daemon == Forwarded(mode, received.worker, maxFrame)
      && (mode.DuplicateReceipt? ==> Join(CutFrames(received.worker, maxFrame).frames) == received.worker)
      && pending == Both([], [])
      && !readOpen.daemon && !readOpen.worker
      && writeClosed == Both(true, true)
    }

    predicate NothingRegistered()
      reads this
    {
      interest == Both(Interest(false, false), Interest(false, false))
    }

    /** The early end: something is registered, nothing happens to it, the child has exited, the worker is
        read to its end, and no byte is pending. The daemon may still be open. */
    ghost predicate QuietEnd(batch: Batch)
      reads this
    {
      && Registered() && !NothingRegistered()
      && !HasEvent(interest.daemon, batch.offers.daemon) && !HasEvent(interest.worker, batch.offers.worker)
      && batch.exited && pending == Both([], []) && !readOpen.worker && writeClosed.daemon
      && delivered.worker == received.daemon
      && delivered.daemon == Forwarded(mode, received.worker, maxFrame)
      && (mode.DuplicateReceipt? ==> Join(CutFrames(received.worker, maxFrame).frames) == received.worker)
    }

    /** Once the worker is read to its end, everything it sent was whole frames. */
    lemma EndedInWholeFrames()
      requires Frames() && !readOpen.worker && mode.DuplicateReceipt?
      ensures Join(CutFrames(received.worker, maxFrame).frames) == received.worker
    {
      hide CutFrames;
      CutIsComplete(received.worker, maxFrame);
      var frames := CutFrames(received.worker, maxFrame).frames;
      assert Join(frames) + [] == Join(frames);
    }

    lemma EmptyMapIsFullyRelayed()
      requires Valid() && Registered() && NothingRegistered()
      ensures FullyRelayed()
    {
      hide CutFrames, Join, Duplicated;
      if mode.DuplicateReceipt? {
        EndedInWholeFrames();
      }
      assert delivered.daemon + [] == delivered.daemon && delivered.worker + [] == delivered.worker;
    }

    /** The select loop over any script of batches. It goes through exactly the states the script
        determines, stops at the first fault, and stops early only when nothing is left to do. */
    method Run(script: seq<Batch>) returns (outcome: Outcome, consumed: nat)
      requires Valid() && Registered()
      modifies this, workerBuffer
      ensures Safe()
      ensures !outcome.Faulted? ==> Valid()
      ensures consumed <= |script| && (outcome == StillRunning ==> consumed == |script|)
      ensures AfterBatches(mode, maxFrame, old(Seen()), script[..consumed])
           == if outcome.Faulted? then Err(outcome.fault) else Ok(Seen())
      ensures outcome.Faulted? ==>
        consumed > 0 && AfterBatches(mode, maxFrame, old(Seen()), script[..consumed - 1]).Ok?
      ensures outcome == Drained ==> FullyRelayed()
      ensures outcome == ChildGone ==>
        consumed > 0 && QuietEnd(script[consumed - 1])
        && AfterBatches(mode, maxFrame, old(Seen()), script[..consumed - 1]) == Ok(Seen())
      ensures outcome == MissingReceipt ==>
        || FullyRelayed()
        || (consumed > 0 && QuietEnd(script[consumed - 1])
            && AfterBatches(mode, maxFrame, old(Seen()), script[..consumed - 1]) == Ok(Seen()))
      ensures outcome == StillRunning ==> Registered() && !NothingRegistered()
      ensures outcome == MissingReceipt <==>
        && mode.DuplicateReceipt? && !outcome.Faulted? && outcome != StillRunning
        && |CutFrames(received.worker, maxFrame).frames| < mode.index
      ensures mode.CrashDuringTurn? ==> delivered.worker == []
    {
      hide CutFrames, Join, Duplicated, AfterBatch;
      ValidIsSafe();
      consumed := 0;
      ghost var start := Seen();
      while consumed < |script|
        invariant consumed <= |script| && Valid() && Registered() && Safe()
        invariant AfterBatches(mode, maxFrame, start, script[..consumed]) == Ok(Seen())
      {
        if NothingRegistered() {
          break;
        }
        var batch := script[consumed];
        assert script[..consumed + 1][..consumed] == script[..consumed];
        consumed := consumed + 1;
        var quiet := !HasEvent(interest.daemon, batch.offers.daemon)
                     && !HasEvent(interest.worker, batch.offers.worker);
        if quiet && batch.exited && !readOpen.worker && pending == Both([], []) {
          assert delivered.daemon + [] == delivered.daemon && delivered.worker + [] == delivered.worker;
          QuietBatch(batch);
          if mode.DuplicateReceipt? {
            EndedInWholeFrames();
          }
          return if MissedReceipt() then MissingReceipt else ChildGone, consumed;
        }
        var fault := HandleBatch(batch);
        if fault.Some? {
          return Faulted(fault.value), consumed;
        }
      }
      if !NothingRegistered() {
        return StillRunning, consumed;
      }
      EmptyMapIsFullyRelayed();
      return if MissedReceipt() then MissingReceipt else Drained, consumed;
    }

    lemma QuietBatch(batch: Batch)
      requires Valid() && Registered()
      requires !HasEvent(interest.daemon, batch.offers.daemon) && !HasEvent(interest.worker, batch.offers.worker)
      ensures AfterBatch(mode, maxFrame, Seen(), batch) == Ok(Seen())
    {
      hide AfterTouch, WantedIn;
      SeenDetermines(Daemon);
      SeenDetermines(Worker);
    }

    predicate MissedReceipt()
      reads this
    {
      mode.DuplicateReceipt? && workerFrames < mode.index
    }
  }
}
