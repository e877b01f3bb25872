/** The bounded drain of a child process's two output pipes. */
module Drain {
  import opened Text
  import opened Outcomes

  datatype Error = TimedOut | ReadFailed | OverBounded | TerminationFailed

  // ---- what the system may do ----------------------------------------------------------------

  /** A pipe select names or does not; a ready pipe's read fails, or returns up to this many bytes, at
      least one before the end. */
  datatype Readiness = NotReady | Fails | Grants(bytes: nat)

  /** One turn of the loop. */
  datatype Turn = DeadlinePassed | Interrupted | SelectFails | Ready(stdout: Readiness, stderr: Readiness)

  datatype Kill = Killed | AlreadyGone | KillFails

  /** How ending the child goes: whether poll still sees it, what kill says, whether the wait fails. */
  datatype Ending = Ending(running: bool, kill: Kill, waitFails: bool)

  /** The final wait: the deadline has passed before it, it times out, or the child exits. */
  datatype Final = TooLate | WaitTimesOut | Exits

  /** How many turns grant a read of a pipe. */
  function Granted(turns: seq<Turn>, stderr: bool): nat {
    if turns == [] then 0
    else
      var last := turns[|turns| - 1];
      Granted(turns[..|turns| - 1], stderr)
      + if last.Ready? && (if stderr then last.stderr else last.stdout).Grants? then 1 else 0
  }

  lemma NoneGranted(turns: seq<Turn>)
    ensures Granted(turns[..0], false) == Granted(turns[..0], true) == 0
  {
  }

  lemma GrantedNext(turns: seq<Turn>, i: nat, stderr: bool)
    requires i < |turns|
    ensures var t := turns[i];
      Granted(turns[..i + 1], stderr) == Granted(turns[..i], stderr)
        + if t.Ready? && (if stderr then t.stderr else t.stdout).Grants? then 1 else 0
  {
    assert turns[..i + 1][..i] == turns[..i];
  }

  predicate Failing(t: Turn) {
    t == SelectFails || (t.Ready? && (t.stdout.Fails? || t.stderr.Fails?))
  }

  /** Termination did not provably succeed. */
  predicate Unended(e: Ending) {
    (e.running && e.kill == KillFails) || e.waitFails
  }

  class Child {
    var reaped: bool

    constructor ()
      ensures !reaped
    {
      reaped := false;
    }

    /** Success means reaped; a kill or a wait that fails is never passed off as one. */
    method KillAndReap(e: Ending) returns (r: Result<(), Error>)
      modifies this
      ensures r == if Unended(e) then Err(TerminationFailed) else Ok(())
      ensures r.Ok? <==> !e.waitFails && (e.running ==> e.kill == Killed || e.kill == AlreadyGone)
      ensures reaped == (r.Ok? || old(reaped))
    {
      if e.running && e.kill == KillFails {
        return Err(TerminationFailed);
      }
      if e.waitFails {
        return Err(TerminationFailed);
      }
      reaped := true;
      return Ok(());
    }

    /** Ends the child before an error is reported. */
    method Abort(error: Error, e: Ending) returns (r: Error)
      modifies this
      ensures r == if Unended(e) then TerminationFailed else error
      ensures !Unended(e) ==> reaped
    {
      var ended := KillAndReap(e);
      return if ended.Err? then ended.error else error;
    }
  }

  /** One entry of the stream table: a pipe, its cap, its buffer, and whether it is still drained. */
  class Stream {
    const cap: nat
    /** Everything the child writes before it closes the pipe; nothing when there is no pipe. */
    const total: seq<Byte>
    var unread: seq<Byte>
    var buffer: seq<Byte>
    var active: bool

    /** In every state: no byte lost or reordered, and at most one byte held beyond the cap. */
    ghost predicate Bounded()
      reads this
    {
      buffer + unread == total && |buffer| <= cap + 1
    }

    /** While draining goes on: within the cap, and given up only at the end of the pipe. */
    ghost predicate Valid()
      reads this
    {
      Bounded() && |buffer| <= cap && (!active ==> unread == [])
    }

    constructor (piped: bool, cap: nat, output: seq<Byte>)
      ensures Valid() && this.cap == cap && total == if piped then output else []
    {
      this.cap, total := cap, if piped then output else [];
      unread, buffer, active := if piped then output else [], [], piped;
    }

    /** os.read: as much as is granted; empty at the end of the pipe, and if nothing is asked for. */
    method Read(limit: nat, granted: nat) returns (chunk: seq<Byte>)
      modifies this`unread
      ensures old(unread) == chunk + unread && |chunk| <= limit
      ensures chunk == [] <==> old(unread) == [] || limit == 0
    {
      var n := if granted == 0 then 1 else granted;
      n := if n > limit then limit else n;
      n := if n > |unread| then |unread| else n;
      chunk := unread[..n];
      unread := unread[n..];
    }

    /** One ready pipe. At least one byte is always asked for, so an empty read is the end. */
    method Take(how: Readiness) returns (r: Result<(), Error>)
      requires Valid() && active && how != NotReady
      modifies this
      ensures Bounded() && (r.Ok? ==> Valid())
      ensures r == Err(OverBounded) ==> |total| > cap
      ensures r.Err? <==> r == Err(OverBounded) || how.Fails?
      ensures how.Fails? <==> r == Err(ReadFailed)
      ensures r.Ok? && active ==> |buffer| > |old(buffer)|
      ensures |buffer| <= |old(buffer)| + 65_536
    {
      if how.Fails? {
        return Err(ReadFailed);
      }
      var limit := if cap + 1 - |buffer| < 65_536 then cap + 1 - |buffer| else 65_536;
      assert limit > 0;
      var chunk := Read(limit, how.bytes);
      Assoc(buffer, chunk, unread);
      if chunk == [] {
        active := false;
        return Ok(());
      }
      buffer := buffer + chunk;
      if |buffer| > cap {
        return Err(OverBounded);
      }
      return Ok(());
    }
  }

  /** The readable pipes of one turn, standard output first. A granted pipe gains a byte or is at its
      end. */
  method TakeReady(stdout: Stream, stderr: Stream, turn: Turn) returns (r: Result<(), Error>)
    requires turn.Ready? && stdout != stderr && stdout.Valid() && stderr.Valid()
    modifies stdout, stderr
    ensures stdout.Bounded() && stderr.Bounded() && (r.Ok? ==> stdout.Valid() && stderr.Valid())
    ensures r == Err(OverBounded) ==> |stdout.total| > stdout.cap || |stderr.total| > stderr.cap
    ensures r == Err(ReadFailed) ==> Failing(turn)
    ensures r.Err? ==> r.error in {OverBounded, ReadFailed}
    ensures r.Ok? && stdout.active ==>
      old(stdout.active) && |stdout.buffer| >= |old(stdout.buffer)| + if turn.stdout.Grants? then 1 else 0
    ensures r.Ok? && stderr.active ==>
      old(stderr.active) && |stderr.buffer| >= |old(stderr.buffer)| + if turn.stderr.Grants? then 1 else 0
  {
    var readErr := stderr.active && turn.stderr != NotReady;
    if stdout.active && turn.stdout != NotReady {
      r := stdout.Take(turn.stdout);
      if r.Err? {
        return;
      }
    }
    if readErr {
      r := stderr.Take(turn.stderr);
      return;
    }
    return Ok(());
  }

  /** Too few turns grant a read to bring a pipe to its end. */
  ghost predicate Starved(stream: Stream, turns: seq<Turn>, stderr: bool)
    reads stream
  {
    stream.active && Granted(turns, stderr) <= |stream.unread|
  }

  /** Drains both pipes to their ends, or ends the child. The turns run out when the deadline does; used
      counts those taken. Only a deadline, a failing call, a stream over its cap or a child that does not
      exit keeps it from giving both streams back. */
  method DrainBounded(child: Child, stdout: Stream, stderr: Stream, turns: seq<Turn>, final: Final, e: Ending)
    returns (r: Result<(seq<Byte>, seq<Byte>), Error>, ghost used: nat)
    requires stdout != stderr && stdout.Valid() && stderr.Valid()
    modifies child, stdout, stderr
    ensures stdout.Bounded() && stderr.Bounded()
    ensures used <= |turns| && forall k :: 0 <= k < used ==> turns[k] != DeadlinePassed
    ensures r.Ok? ==> r.value == (stdout.total, stderr.total) && final == Exits
    ensures r.Ok? ==> |stdout.total| <= stdout.cap && |stderr.total| <= stderr.cap
    ensures child.reaped || r == Err(TerminationFailed)
    ensures r == Err(OverBounded) ==> |stdout.total| > stdout.cap || |stderr.total| > stderr.cap
    ensures r == Err(ReadFailed) ==> used > 0 && Failing(turns[used - 1])
    ensures r == Err(TerminationFailed) ==> Unended(e)
    ensures r == Err(TimedOut) ==>
      || (used < |turns| && turns[used] == DeadlinePassed)
      || (used == |turns| && (old(Starved(stdout, turns, false)) || old(Starved(stderr, turns, true))))
      || (final != Exits && !stdout.active && !stderr.active)
    ensures r.Err? ==>
      || (used < |turns| && turns[used] == DeadlinePassed) || (used > 0 && Failing(turns[used - 1]))
      || (used == |turns| && (old(Starved(stdout, turns, false)) || old(Starved(stderr, turns, true))))
      || |stdout.total| > stdout.cap || |stderr.total| > stderr.cap
      || (final != Exits && !stdout.active && !stderr.active)
  {
    hide Granted;
    used := 0;
    var i := 0;
    NoneGranted(turns);
    while stdout.active || stderr.active
      invariant i == used <= |turns| && stdout.Valid() && stderr.Valid()
      invariant forall k :: 0 <= k < i ==> turns[k] != DeadlinePassed
      invariant stdout.active ==>
        old(stdout.active) && |old(stdout.buffer)| + Granted(turns[..i], false) <= |stdout.buffer|
      invariant stderr.active ==>
        old(stderr.active) && |old(stderr.buffer)| + Granted(turns[..i], true) <= |stderr.buffer|
      decreases |turns| - i
    {
      if i == |turns| || turns[i] == DeadlinePassed {
        if i == |turns| {
          assert turns[..i] == turns;
          assert |stdout.buffer| <= |stdout.total| && |stderr.buffer| <= |stderr.total|;
          assert stdout.active ==> old(Starved(stdout, turns, false));
          assert stderr.active ==> old(Starved(stderr, turns, true));
        }
        var error := child.Abort(TimedOut, e);
        return Err(error), used;
      }
      var turn := turns[i];
      GrantedNext(turns, i, false);
      GrantedNext(turns, i, true);
      i, used := i + 1, used + 1;
      if turn == Interrupted {
        continue;
      }
      if turn == SelectFails {
        var error := child.Abort(ReadFailed, e);
        return Err(error), used;
      }
      var taken := TakeReady(stdout, stderr, turn);
      if taken.Err? {
        var error := child.Abort(taken.error, e);
        return Err(error), used;
      }
    }
    if final != Exits {
      var error := child.Abort(TimedOut, e);
      return Err(error), used;
    }
    assert stdout.buffer + [] == stdout.buffer && stderr.buffer + [] == stderr.buffer;
    child.reaped := true;
    return Ok((stdout.buffer, stderr.buffer)), used;
  }
}
