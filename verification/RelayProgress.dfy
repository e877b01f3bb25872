/** The relay loop finishes: when every registered endpoint is ready in every batch and both sources send
    what they have and close, the selector map empties within a stated number of batches. */
module RelayProgress {
  import opened Text
  import opened Outcomes
  import opened Framing
  import opened Relay

  /** Streams the mode relays to their ends without a fault. */
  predicate Benign(mode: Mode, maxFrame: nat, src: Both<seq<Byte>>) {
    && (mode.CrashDuringTurn? ==> src.daemon == [])
    && (mode.DuplicateReceipt? ==>
          !CutFrames(src.worker, maxFrame).oversize && CutFrames(src.worker, maxFrame).rest == [])
  }

  /** The source's next receive: some of what it has left, and the end of file once nothing is. */
  predicate NextOf(p: Progress, src: Both<seq<Byte>>, side: Side, recv: Recv) {
    && recv.Data?
    && p.received.At(side) + recv.bytes <= src.At(side)
    && (recv.bytes == [] <==> p.received.At(side) == src.At(side))
  }

  /** What is registered is ready, and a send takes at least one byte. */
  predicate Ready(want: Interest, p: Progress, src: Both<seq<Byte>>, side: Side, offer: Offer) {
    && (want.read ==> offer.readable && NextOf(p, src, side, offer.recv))
    && (want.write ==> offer.writable && offer.send.Sent? && offer.send.count > 0)
  }

  predicate Serves(mode: Mode, maxFrame: nat, p: Progress, src: Both<seq<Byte>>, batch: Batch) {
    && Ready(WantedIn(mode, maxFrame, p, Daemon), p, src, Daemon, batch.offers.daemon)
    && Ready(WantedIn(mode, maxFrame, p, Worker), p, src, Worker, batch.offers.worker)
  }

  /** Every batch of the script serves the state the batches before it lead to. */
  ghost predicate ServedThroughout(mode: Mode, maxFrame: nat, p: Progress, src: Both<seq<Byte>>, script: seq<Batch>) {
    forall k :: 0 <= k < |script| ==>
      var reached := AfterBatches(mode, maxFrame, p, script[..k]);
      reached.Ok? ==> Serves(mode, maxFrame, reached.value, src, script[k])
  }

  predicate NothingWanted(mode: Mode, maxFrame: nat, p: Progress) {
    && WantedIn(mode, maxFrame, p, Daemon) == Interest(false, false)
    && WantedIn(mode, maxFrame, p, Worker) == Interest(false, false)
  }

  /** A state on the way: beginnings of both streams received, beginnings of what is owed delivered. */
  predicate Follows(mode: Mode, maxFrame: nat, p: Progress, src: Both<seq<Byte>>) {
    && FollowsSide(mode, maxFrame, p, src, Daemon) && FollowsSide(mode, maxFrame, p, src, Worker)
  }

  predicate FollowsSide(mode: Mode, maxFrame: nat, p: Progress, src: Both<seq<Byte>>, side: Side) {
    && p.received.At(side) <= src.At(side)
    && (!p.readOpen.At(side) ==> p.received.At(side) == src.At(side))
    && p.delivered.At(side) <= OwedTo(mode, maxFrame, p, side)
  }

  /** All a side will ever be owed. */
  function Final(mode: Mode, maxFrame: nat, src: Both<seq<Byte>>, side: Side): seq<Byte> {
    if side == Worker then src.daemon else Forwarded(mode, src.worker, maxFrame)
  }

  /** What one source still has to send, its end of file included, and one destination to get. */
  function WorkOf(mode: Mode, maxFrame: nat, p: Progress, src: Both<seq<Byte>>, side: Side): int {
    |src.At(side)| - |p.received.At(side)| + (if p.readOpen.At(side) then 1 else 0)
    + |Final(mode, maxFrame, src, side)| - |p.delivered.At(side)|
  }

  function Work(mode: Mode, maxFrame: nat, p: Progress, src: Both<seq<Byte>>): int {
    WorkOf(mode, maxFrame, p, src, Daemon) + WorkOf(mode, maxFrame, p, src, Worker)
  }

  // ---- what is owed only grows ---------------------------------------------------------------

  lemma {:induction false} DuplicatedExtends(frames: seq<seq<Byte>>, more: seq<seq<Byte>>, index: int)
    ensures Join(Duplicated(frames, index)) <= Join(Duplicated(frames + more, index))
  {
    hide Duplicated, Join;
    if more == [] {
      assert frames + more == frames;
    } else {
      var n := |more| - 1;
      DuplicatedExtends(frames, more[..n], index);
      DuplicatedGrows(frames + more[..n], more[n], index);
      assert frames + more == frames + more[..n] + [more[n]];
    }
  }

  lemma ForwardedExtends(mode: Mode, maxFrame: nat, a: seq<Byte>, b: seq<Byte>)
    requires mode.DuplicateReceipt? ==> !CutFrames(a + b, maxFrame).oversize
    ensures Forwarded(mode, a, maxFrame) <= Forwarded(mode, a + b, maxFrame)
    ensures mode.DuplicateReceipt? ==> !CutFrames(a, maxFrame).oversize
  {
    hide CutFrames, Duplicated, Join;
    if mode.DuplicateReceipt? {
      CutResumes(a, b, maxFrame);
      var first := CutFrames(a, maxFrame);
      DuplicatedExtends(first.frames, CutFrames(first.rest + b, maxFrame).frames, mode.index);
    }
  }

  lemma OwedIsBeginning(mode: Mode, maxFrame: nat, p: Progress, src: Both<seq<Byte>>, side: Side)
    requires Benign(mode, maxFrame, src)
    requires p.received.worker <= src.worker && p.received.daemon <= src.daemon
    ensures OwedTo(mode, maxFrame, p, side) <= Final(mode, maxFrame, src, side)
  {
    hide Forwarded, CutFrames;
    var a := p.received.worker;
    assert src.worker == a + src.worker[|a|..];
    ForwardedExtends(mode, maxFrame, a, src.worker[|a|..]);
  }

  // ---- one event -----------------------------------------------------------------------------

  /** A ready read meets no fault, keeps the state on its way, and takes work off its source. */
  lemma ReadServes(mode: Mode, maxFrame: nat, p: Progress, src: Both<seq<Byte>>, side: Side, recv: Recv)
    requires Benign(mode, maxFrame, src) && Follows(mode, maxFrame, p, src)
    requires NextOf(p, src, side, recv) && p.readOpen.At(side)
    ensures ReadFault(mode, maxFrame, p, side, recv) == None
    ensures var q := AfterRead(p, side, recv);
      && Follows(mode, maxFrame, q, src)
      && WorkOf(mode, maxFrame, q, src, side) < WorkOf(mode, maxFrame, p, src, side)
      && WorkOf(mode, maxFrame, q, src, Other(side)) == WorkOf(mode, maxFrame, p, src, Other(side))
  {
    hide Forwarded, CutFrames;
    var q := AfterRead(p, side, recv);
    assert p.received.At(side) + [] == p.received.At(side);
    NoReadFault(mode, maxFrame, p, src, side, recv);
    OwedGrows(mode, maxFrame, p, src, side, recv);
  }

  lemma NoReadFault(mode: Mode, maxFrame: nat, p: Progress, src: Both<seq<Byte>>, side: Side, recv: Recv)
    requires Benign(mode, maxFrame, src) && NextOf(p, src, side, recv)
    ensures ReadFault(mode, maxFrame, p, side, recv) == None
  {
    hide Forwarded, CutFrames;
    assert p.received.At(side) + [] == p.received.At(side);
    if side == Worker {
      var seen := p.received.worker + recv.bytes;
      assert src.worker == seen + src.worker[|seen|..];
      ForwardedExtends(mode, maxFrame, seen, src.worker[|seen|..]);
    }
  }

  lemma OwedGrows(mode: Mode, maxFrame: nat, p: Progress, src: Both<seq<Byte>>, side: Side, recv: Recv)
    requires Benign(mode, maxFrame, src) && NextOf(p, src, side, recv)
    ensures var q := AfterRead(p, side, recv);
      && OwedTo(mode, maxFrame, p, Daemon) <= OwedTo(mode, maxFrame, q, Daemon)
      && OwedTo(mode, maxFrame, p, Worker) <= OwedTo(mode, maxFrame, q, Worker)
  {
    hide Forwarded, CutFrames;
    if side == Worker {
      var seen := p.received.worker + recv.bytes;
      assert src.worker == seen + src.worker[|seen|..];
      ForwardedExtends(mode, maxFrame, seen, src.worker[|seen|..]);
      ForwardedExtends(mode, maxFrame, p.received.worker, recv.bytes);
    }
  }

  /** A ready write takes at least a byte of work off its destination. */
  lemma WriteServes(mode: Mode, maxFrame: nat, p: Progress, src: Both<seq<Byte>>, side: Side, send: Send)
    requires Follows(mode, maxFrame, p, src)
    requires send.Sent? && send.count > 0 && PendingFor(mode, maxFrame, p, side) != []
    ensures var q := AfterWrite(mode, maxFrame, p, side, send);
      && Follows(mode, maxFrame, q, src)
      && WorkOf(mode, maxFrame, q, src, side) < WorkOf(mode, maxFrame, p, src, side)
      && WorkOf(mode, maxFrame, q, src, Other(side)) == WorkOf(mode, maxFrame, p, src, Other(side))
  {
    hide Forwarded;
    var owed, done := OwedTo(mode, maxFrame, p, side), p.delivered.At(side);
    var buffer := PendingFor(mode, maxFrame, p, side);
    assert done + buffer == owed;
    assert done + buffer[..Leaving(buffer, send)] <= owed;
  }

  predicate Registered(mode: Mode, maxFrame: nat, p: Progress, side: Side, mask: Interest) {
    && (mask.read ==> p.readOpen.At(side))
    && (mask.write ==> PendingFor(mode, maxFrame, p, side) != [])
  }

  lemma NothingTouched(mode: Mode, maxFrame: nat, p: Progress, side: Side)
    ensures AfterRead(p, side, WouldBlock) == p
    ensures AfterWrite(mode, maxFrame, p, side, SendBlocks) == p
    ensures ReadFault(mode, maxFrame, p, side, WouldBlock) == None
  {
    hide PendingFor, CutFrames;
    assert p.received.At(side) + [] == p.received.At(side) && p.delivered.At(side) + [] == p.delivered.At(side);
  }

  /** One served entry: no fault, less work when anything was registered, and the other endpoint as ready
      for the rest of the batch as it was. */
  lemma EntryServes(mode: Mode, maxFrame: nat, p: Progress, src: Both<seq<Byte>>, side: Side, mask: Interest,
      offer: Offer)
    requires Benign(mode, maxFrame, src) && Follows(mode, maxFrame, p, src)
    requires Registered(mode, maxFrame, p, side, mask) && Ready(mask, p, src, side, offer)
    ensures var r := AfterEntry(mode, maxFrame, p, side, mask, offer);
      && r.Ok? && Follows(mode, maxFrame, r.value, src)
      && Work(mode, maxFrame, r.value, src)
         <= Work(mode, maxFrame, p, src) - (if mask == Interest(false, false) then 0 else 1)
      && (mask == Interest(false, false) ==> r.value == p)
      && r.value.received.At(Other(side)) == p.received.At(Other(side))
      && r.value.readOpen.At(Other(side)) == p.readOpen.At(Other(side))
      && (PendingFor(mode, maxFrame, p, Other(side)) != [] ==> PendingFor(mode, maxFrame, r.value, Other(side)) != [])
  {
    hide Forwarded, CutFrames, Benign, ReadFault, Follows, PendingFor, WorkOf, AfterRead, AfterWrite;
    if mask != Interest(false, false) {
      var touch := Masked(mask, offer);
      NothingTouched(mode, maxFrame, p, side);
      if mask.read {
        ReadServes(mode, maxFrame, p, src, side, touch.recv);
      }
      var q := AfterRead(p, side, touch.recv);
      ReadFields(mode, maxFrame, p, src, side, touch.recv, mask.read);
      NothingTouched(mode, maxFrame, q, side);
      if mask.write {
        WriteServes(mode, maxFrame, q, src, side, touch.send);
      }
      WriteFields(mode, maxFrame, q, side, touch.send);
    }
  }

  lemma ReadFields(mode: Mode, maxFrame: nat, p: Progress, src: Both<seq<Byte>>, side: Side, recv: Recv, reading: bool)
    requires Benign(mode, maxFrame, src) && Follows(mode, maxFrame, p, src)
    requires if reading then NextOf(p, src, side, recv) else recv == WouldBlock
    ensures var q := AfterRead(p, side, recv);
      && q.received.At(Other(side)) == p.received.At(Other(side))
      && q.readOpen.At(Other(side)) == p.readOpen.At(Other(side))
      && PendingFor(mode, maxFrame, q, side) == PendingFor(mode, maxFrame, p, side)
      && |PendingFor(mode, maxFrame, q, Other(side))| >= |PendingFor(mode, maxFrame, p, Other(side))|
  {
    hide Forwarded, CutFrames, Benign;
    NothingTouched(mode, maxFrame, p, side);
    if reading {
      OwedGrows(mode, maxFrame, p, src, side, recv);
    }
  }

  lemma WriteFields(mode: Mode, maxFrame: nat, p: Progress, side: Side, send: Send)
    ensures var q := AfterWrite(mode, maxFrame, p, side, send);
      && q.received == p.received && q.readOpen == p.readOpen
      && PendingFor(mode, maxFrame, q, Other(side)) == PendingFor(mode, maxFrame, p, Other(side))
  {
    hide Forwarded;
  }

  // ---- batches -------------------------------------------------------------------------------

  lemma BatchServes(mode: Mode, maxFrame: nat, p: Progress, src: Both<seq<Byte>>, batch: Batch)
    requires Benign(mode, maxFrame, src) && Follows(mode, maxFrame, p, src) && Serves(mode, maxFrame, p, src, batch)
    ensures var r := AfterBatch(mode, maxFrame, p, batch);
      && r.Ok? && Follows(mode, maxFrame, r.value, src)
      && (if NothingWanted(mode, maxFrame, p) then r.value == p
          else Work(mode, maxFrame, r.value, src) < Work(mode, maxFrame, p, src))
  {
    hide AfterEntry, Benign, Follows, Work, PendingFor;
    var first := if batch.daemonFirst then Daemon else Worker;
    var second := Other(first);
    var want, later := WantedIn(mode, maxFrame, p, first), WantedIn(mode, maxFrame, p, second);
    EntryServes(mode, maxFrame, p, src, first, want, batch.offers.At(first));
    var q := AfterEntry(mode, maxFrame, p, first, want, batch.offers.At(first)).value;
    EntryServes(mode, maxFrame, q, src, second, later, batch.offers.At(second));
  }

  lemma WorkIsPositive(mode: Mode, maxFrame: nat, p: Progress, src: Both<seq<Byte>>)
    requires Benign(mode, maxFrame, src) && Follows(mode, maxFrame, p, src)
    ensures Work(mode, maxFrame, p, src) >= 0
    ensures !NothingWanted(mode, maxFrame, p) ==> Work(mode, maxFrame, p, src) > 0
  {
    hide Forwarded, CutFrames, Benign;
    OwedIsBeginning(mode, maxFrame, p, src, Daemon);
    OwedIsBeginning(mode, maxFrame, p, src, Worker);
  }

  lemma {:induction false} ServedPrefix(mode: Mode, maxFrame: nat, p: Progress, src: Both<seq<Byte>>,
      script: seq<Batch>, k: nat)
    requires Benign(mode, maxFrame, src) && Follows(mode, maxFrame, p, src)
    requires ServedThroughout(mode, maxFrame, p, src, script) && k <= |script|
    ensures var r := AfterBatches(mode, maxFrame, p, script[..k]);
      && r.Ok? && Follows(mode, maxFrame, r.value, src)
      && (NothingWanted(mode, maxFrame, r.value)
          || Work(mode, maxFrame, r.value, src) <= Work(mode, maxFrame, p, src) - k)
  {
    hide AfterBatch, Benign, Follows, Work, NothingWanted, Serves;
    if k > 0 {
      ServedPrefix(mode, maxFrame, p, src, script, k - 1);
      assert script[..k][..k - 1] == script[..k - 1];
      var q := AfterBatches(mode, maxFrame, p, script[..k - 1]).value;
      BatchServes(mode, maxFrame, q, src, script[k - 1]);
    }
  }

  /** Nothing wanted on the way means both streams are through. */
  lemma DoneMeansDelivered(mode: Mode, maxFrame: nat, p: Progress, src: Both<seq<Byte>>)
    requires Benign(mode, maxFrame, src) && Follows(mode, maxFrame, p, src) && NothingWanted(mode, maxFrame, p)
    ensures p.received == src && !p.readOpen.daemon && !p.readOpen.worker
    ensures p.delivered == Both(Forwarded(mode, src.worker, maxFrame), src.daemon)
  {
    hide Forwarded, CutFrames, Benign;
    assert FollowsSide(mode, maxFrame, p, src, Daemon) && FollowsSide(mode, maxFrame, p, src, Worker);
    assert p.delivered.daemon + PendingFor(mode, maxFrame, p, Daemon) == OwedTo(mode, maxFrame, p, Daemon);
    assert p.delivered.worker + PendingFor(mode, maxFrame, p, Worker) == OwedTo(mode, maxFrame, p, Worker);
    assert p.delivered.daemon + [] == p.delivered.daemon && p.delivered.worker + [] == p.delivered.worker;
  }

  /** Served batches, as many as there is work, bring both streams through: every source byte is received,
      every owed byte delivered, both ends of file are seen, and no fault occurs. */
  lemma ServedRunDrains(mode: Mode, maxFrame: nat, p: Progress, src: Both<seq<Byte>>, script: seq<Batch>)
    requires Benign(mode, maxFrame, src) && Follows(mode, maxFrame, p, src)
    requires ServedThroughout(mode, maxFrame, p, src, script) && |script| >= Work(mode, maxFrame, p, src)
    ensures var r := AfterBatches(mode, maxFrame, p, script);
      && r.Ok? && NothingWanted(mode, maxFrame, r.value)
      && r.value.received == src && !r.value.readOpen.daemon && !r.value.readOpen.worker
      && r.value.delivered == Both(Forwarded(mode, src.worker, maxFrame), src.daemon)
  {
    hide AfterBatches, Benign, Follows, Work, NothingWanted, ServedThroughout;
    assert script[..|script|] == script;
    ServedPrefix(mode, maxFrame, p, src, script, |script|);
    var q := AfterBatches(mode, maxFrame, p, script).value;
    WorkIsPositive(mode, maxFrame, q, src);
    DoneMeansDelivered(mode, maxFrame, q, src);
  }

  // ---- the loop ------------------------------------------------------------------------------

  const START := Progress(Both([], []), Both([], []), Both(true, true))

  lemma StartFollows(mode: Mode, maxFrame: nat, src: Both<seq<Byte>>)
    ensures Follows(mode, maxFrame, START, src)
    ensures Work(mode, maxFrame, START, src)
         == 2 * |src.daemon| + |src.worker| + |Forwarded(mode, src.worker, maxFrame)| + 2
  {
    hide Forwarded;
  }

  /** A relay served throughout ends by itself, within as many batches as there is work at the start, with
      both streams delivered and both write sides closed. */
  method RelayStreams(mode: Mode, maxFrame: nat, src: Both<seq<Byte>>, script: seq<Batch>)
    returns (loop: RelayLoop, outcome: Outcome)
    requires Benign(mode, maxFrame, src) && ServedThroughout(mode, maxFrame, START, src, script)
    requires |script| >= 2 * |src.daemon| + |src.worker| + |Forwarded(mode, src.worker, maxFrame)| + 2
    ensures outcome == Drained || outcome == MissingReceipt
    ensures outcome == MissingReceipt <==>
      mode.DuplicateReceipt? && |CutFrames(src.worker, maxFrame).frames| < mode.index
    ensures fresh(loop) && loop.writeClosed == Both(true, true)
    ensures loop.delivered == Both(Forwarded(mode, src.worker, maxFrame), src.daemon)
  {
    hide Benign, Follows, Work, AfterBatches, ServedThroughout, CutFrames, Forwarded;
    loop := new RelayLoop(mode, maxFrame);
    assert loop.Seen() == START;
    var consumed: nat;
    outcome, consumed := loop.Run(script);
    StartFollows(mode, maxFrame, src);
    ServedPrefix(mode, maxFrame, START, src, script, consumed);
    ServedRunDrains(mode, maxFrame, START, src, script);
    assert script[..|script|] == script;
    if outcome == StillRunning {
      loop.SeenDetermines(Daemon);
      loop.SeenDetermines(Worker);
      assert false;
    }
    if outcome == ChildGone || (outcome == MissingReceipt && !loop.FullyRelayed()) {
      NotQuiet(loop, mode, maxFrame, src, script, consumed);
      assert false;
    }
    FullMeansWhole(mode, maxFrame, loop.Seen(), src);
  }

  /** A served batch is never the quiet one of an early end. */
  lemma NotQuiet(loop: RelayLoop, mode: Mode, maxFrame: nat, src: Both<seq<Byte>>, script: seq<Batch>, consumed: nat)
    requires loop.Valid() && loop.mode == mode && loop.maxFrame == maxFrame && 0 < consumed <= |script|
    requires ServedThroughout(mode, maxFrame, START, src, script)
    requires AfterBatches(mode, maxFrame, START, script[..consumed - 1]) == Ok(loop.Seen())
    ensures !loop.QuietEnd(script[consumed - 1])
  {
    hide AfterBatches, CutFrames, Forwarded;
    loop.SeenDetermines(Daemon);
    loop.SeenDetermines(Worker);
    assert Serves(mode, maxFrame, loop.Seen(), src, script[consumed - 1]);
  }

  lemma FullMeansWhole(mode: Mode, maxFrame: nat, p: Progress, src: Both<seq<Byte>>)
    requires Follows(mode, maxFrame, p, src) && !p.readOpen.daemon && !p.readOpen.worker
    ensures p.received == src
  {
    hide Forwarded;
  }
}
