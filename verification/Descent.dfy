/** No-follow descent: one component at a time, a bounded number of descriptors, and everything opened
    on the way given back whatever fails. */
module Descent {
  import opened Text
  import opened Outcomes
  import opened Os

  datatype Error =
    | OsFailure
    | SymlinkComponent
    | NotADirectory
    | NotARegularFile
    | CloseFailure
    | NoncanonicalRoot
    | RootChanged
    | TooManyPaths
    | PathNotUtf8
    | PathTooLong
    | PathsTooLong
    | FileTooBig
    | SourcesTooBig
    | TooManyFiles
    | FileDigestMismatch
    | EmptySection
    | SectionPastEnd
    | TooManySections
    | SectionsTooBig
    | SectionDigestMismatch
    | Truncated
    | SumOverflow

  /** Where a path leads when every step is a real directory, the last one perhaps a regular file. */
  ghost function Reach(node: Node, components: seq<Str>, finalFile: bool): Option<Node>
    decreases |components|
  {
    if components == [] then Some(node)
    else if !HasEntry(node, components[0]) then None
    else
      var child := node.entries[components[0]];
      if !GoodStep(child, finalFile && |components| == 1) then None
      else Reach(child, components[1..], finalFile)
  }

  predicate GoodStep(child: Node, wantFile: bool) {
    if wantFile then child.File? else child.Dir?
  }

  /** Stat, open and fstat one component. A child that was opened is handed back even on failure. */
  method OpenChild(os: Kernel, parent: nat, name: Str, wantFile: bool)
    returns (child: Option<nat>, failure: Option<Error>)
    requires os.Valid() && parent in os.table
    modifies os
    ensures os.Valid() && os.peak <= Max(old(os.peak), |old(os.table)| + 1)
    ensures failure != Some(SumOverflow)
    ensures child.None? ==> os.table == old(os.table) && failure.Some?
    ensures child.Some? ==>
      && child.value !in old(os.table) && |os.table| == |old(os.table)| + 1
      && HasEntry(old(os.table)[parent].node, name)
      && GoodStep(old(os.table)[parent].node.entries[name], wantFile)
      && os.table == old(os.table)[child.value := Handle(old(os.table)[parent].node.entries[name], 0)]
    ensures os.FaultFree() ==>
      (failure.None? <==> (HasEntry(old(os.table)[parent].node, name)
        && GoodStep(old(os.table)[parent].node.entries[name], wantFile)))
  {
    var pre := os.StatAt(parent, name);
    if pre.Err? {
      return None, Some(OsFailure);
    }
    if pre.value.Link? {
      return None, Some(SymlinkComponent);
    }
    if !GoodStep(pre.value, wantFile) {
      return None, Some(if wantFile then NotARegularFile else NotADirectory);
    }
    var handle := os.OpenAt(parent, name, !wantFile);
    if handle.Err? {
      return None, Some(OsFailure);
    }
    var post := os.Fstat(handle.value);
    return Some(handle.value), if post.Ok? then None else Some(OsFailure);
  }

  /** Descriptors a descent must account for: all it tracks, less a base it only borrows. */
  ghost function Mine(fds: seq<nat>, base: nat, closeBase: bool): set<nat> {
    set i | 0 <= i < |fds| && (closeBase || fds[i] != base) :: fds[i]
  }

  /** The table without the tracked descriptors is the table the caller is to get back. */
  ghost predicate Accounted(before: Table, now: Table, fds: seq<nat>, base: nat, closeBase: bool) {
    && (forall i :: 0 <= i < |fds| ==> fds[i] in now)
    && (forall i, j :: 0 <= i < j < |fds| ==> fds[i] != fds[j])
    && now - Mine(fds, base, closeBase) == Without(before, base, closeBase)
    && (forall fd :: fd in Mine(fds, base, closeBase) ==> fd !in Without(before, base, closeBase))
  }

  ghost function Without(before: Table, base: nat, closeBase: bool): Table {
    if closeBase then before - {base} else before
  }

  /** The cleanup of a failed descent: every tracked descriptor is closed once, errors ignored. */
  method CloseTracked(os: Kernel, fds: seq<nat>, base: nat, closeBase: bool, ghost before: Table)
    requires os.Valid() && Accounted(before, os.table, fds, base, closeBase)
    modifies os
    ensures os.Valid() && os.table == Without(before, base, closeBase) && os.peak == old(os.peak)
  {
    hide Accounted, Mine, Without;
    var rest := fds;
    while rest != []
      invariant os.Valid() && os.peak == old(os.peak)
      invariant Accounted(before, os.table, rest, base, closeBase)
    {
      AccountedRest(before, os.table, rest, base, closeBase);
      if closeBase || rest[0] != base {
        var ignored := os.Close(rest[0]);
      }
      rest := rest[1..];
    }
    AccountedNone(before, os.table, rest, base, closeBase);
  }

  lemma AccountedNone(before: Table, now: Table, fds: seq<nat>, base: nat, closeBase: bool)
    requires Accounted(before, now, fds, base, closeBase) && fds == []
    ensures now == Without(before, base, closeBase)
  {
    assert now - {} == now;
  }

  lemma AccountedRest(before: Table, now: Table, fds: seq<nat>, base: nat, closeBase: bool)
    requires Accounted(before, now, fds, base, closeBase) && fds != []
    ensures fds[0] in now
    ensures Accounted(before, if closeBase || fds[0] != base then now - {fds[0]} else now, fds[1..],
                      base, closeBase)
  {
    hide Without, Mine;
    TrackedSplits(fds, base, closeBase);
    TrackedAre(fds[1..], base, closeBase);
    var x, rest := fds[0], Mine(fds[1..], base, closeBase);
    if closeBase || x != base {
      assert (now - {x}) - rest == now - (rest + {x});
    } else {
      assert rest + {} == rest;
    }
    forall i | 0 <= i < |fds[1..]| ensures fds[1..][i] in now && fds[1..][i] != x {
      assert fds[1..][i] == fds[i + 1];
    }
  }

  lemma TrackedAre(fds: seq<nat>, base: nat, closeBase: bool)
    ensures forall fd :: fd in Mine(fds, base, closeBase) ==> fd in fds
  {
  }

  lemma TrackedSplits(fds: seq<nat>, base: nat, closeBase: bool)
    requires fds != []
    requires forall i, j :: 0 <= i < j < |fds| ==> fds[i] != fds[j]
    ensures Mine(fds, base, closeBase)
         == Mine(fds[1..], base, closeBase) + if closeBase || fds[0] != base then {fds[0]} else {}
    ensures fds[0] !in Mine(fds[1..], base, closeBase)
  {
    var a, b := Mine(fds, base, closeBase), Mine(fds[1..], base, closeBase);
    forall fd | fd in a ensures fd in b || fd == fds[0] {
      var i :| 0 <= i < |fds| && (closeBase || fds[i] != base) && fds[i] == fd;
      if i > 0 {
        assert fds[1..][i - 1] == fd;
      }
    }
    forall fd | fd in b ensures fd in a && fd != fds[0] {
      var i :| 0 <= i < |fds[1..]| && (closeBase || fds[1..][i] != base) && fds[1..][i] == fd;
      assert fds[i + 1] == fd;
    }
  }

  lemma AccountedMore(before: Table, now: Table, fds: seq<nat>, base: nat, closeBase: bool,
                      child: nat, handle: Handle)
    requires Accounted(before, now, fds, base, closeBase)
    requires child !in now && (closeBase || base in now)
    ensures Accounted(before, now[child := handle], fds + [child], base, closeBase)
  {
    var longer, later := fds + [child], now[child := handle];
    var mine, more := Mine(fds, base, closeBase), Mine(longer, base, closeBase);
    assert more == mine + {child} by {
      assert longer[|fds|] == child;
      assert forall i :: 0 <= i < |fds| ==> longer[i] == fds[i];
    }
    TrackedAre(fds, base, closeBase);
    assert later - more == now - mine;
    assert Without(before, base, closeBase).Keys <= now.Keys by {
      assert Without(before, base, closeBase) == now - mine;
    }
  }

  /** Dropping the descriptor just above the last one, once it has been closed. */
  lemma AccountedDrop(before: Table, now: Table, fds: seq<nat>, base: nat, closeBase: bool)
    requires Accounted(before, now, fds, base, closeBase) && |fds| >= 2
    requires closeBase || fds[|fds| - 2] != base
    ensures Accounted(before, now - {fds[|fds| - 2]}, fds[..|fds| - 2] + [fds[|fds| - 1]], base, closeBase)
  {
    var k := |fds| - 2;
    var doomed, fewer := fds[k], fds[..k] + [fds[k + 1]];
    var mine, less := Mine(fds, base, closeBase), Mine(fewer, base, closeBase);
    assert mine == less + {doomed} && doomed !in less by {
      assert forall i :: 0 <= i < |fewer| ==> fewer[i] == fds[if i < k then i else k + 1];
      forall fd | fd in mine ensures fd in less || fd == doomed {
        var i :| 0 <= i < |fds| && (closeBase || fds[i] != base) && fds[i] == fd;
        assert i < k ==> fewer[i] == fd;
        assert i == k + 1 ==> fewer[k] == fd;
      }
    }
    assert (now - {doomed}) - less == now - mine;
  }

  /** The descriptor stack between steps: the directory just reached, above a borrowed base. */
  ghost predicate Stacked(before: Table, now: Table, fds: seq<nat>, base: nat, closeBase: bool) {
    && Accounted(before, now, fds, base, closeBase)
    && fds != []
    && (if closeBase then |fds| == 1 else fds[0] == base && |fds| <= 2)
    && |now| == |before| + |fds| - 1
  }

  /** One component of a descent: its child goes on the stack and the directory it was found in comes
      off, unless that is a borrowed base. */
  method DescendStep(os: Kernel, fds: seq<nat>, base: nat, closeBase: bool, name: Str, wantFile: bool,
                     ghost before: Table)
    returns (stack: seq<nat>, failure: Option<Error>)
    requires os.Valid() && Stacked(before, os.table, fds, base, closeBase)
    modifies os
    ensures os.Valid() && os.peak <= Max(old(os.peak), |before| + if closeBase then 1 else 2)
    ensures failure != Some(SumOverflow)
    ensures Accounted(before, os.table, stack, base, closeBase)
    ensures var parent := old(os.table)[fds[|fds| - 1]].node;
      && (failure.None? ==>
        && Stacked(before, os.table, stack, base, closeBase)
        && HasEntry(parent, name) && GoodStep(parent.entries[name], wantFile)
        && (!closeBase ==> |stack| == 2)
        && os.table[stack[|stack| - 1]] == Handle(parent.entries[name], 0))
      && (os.FaultFree() ==>
            (failure.None? <==> (HasEntry(parent, name) && GoodStep(parent.entries[name], wantFile))))
  {
    hide Mine, Without, Accounted;
    AccountedIn(before, os.table, fds, base, closeBase);
    ghost var was := os.table;
    var child, trouble := OpenChild(os, fds[|fds| - 1], name, wantFile);
    stack, failure := fds, trouble;
    if child.None? {
      return;
    }
    AccountedMore(before, was, fds, base, closeBase, child.value, os.table[child.value]);
    stack := fds + [child.value];
    if failure.None? && (closeBase || |stack| >= 3) {
      var closed;
      stack, closed := CloseBelowTop(os, stack, base, closeBase, before);
      if !closed {
        failure := Some(CloseFailure);
      }
    }
  }

  /** Closes the directory under the one just opened. */
  method CloseBelowTop(os: Kernel, fds: seq<nat>, base: nat, closeBase: bool, ghost before: Table)
    returns (stack: seq<nat>, ok: bool)
    requires os.Valid() && Accounted(before, os.table, fds, base, closeBase) && |fds| >= 2
    requires closeBase || fds[|fds| - 2] != base
    modifies os
    ensures os.Valid() && os.peak == old(os.peak) && |os.table| == |old(os.table)| - 1
    ensures stack == fds[..|fds| - 2] + [fds[|fds| - 1]]
    ensures Accounted(before, os.table, stack, base, closeBase)
    ensures fds[|fds| - 1] in old(os.table) && fds[|fds| - 1] in os.table
    ensures os.table[fds[|fds| - 1]] == old(os.table)[fds[|fds| - 1]]
    ensures os.FaultFree() ==> ok
  {
    hide Mine, Without, Accounted;
    var n := |fds|;
    AccountedIn(before, os.table, fds, base, closeBase);
    AccountedDrop(before, os.table, fds, base, closeBase);
    stack := fds[..n - 2] + [fds[n - 1]];
    ok := os.Close(fds[n - 2]);
  }

  lemma AccountedIn(before: Table, now: Table, fds: seq<nat>, base: nat, closeBase: bool)
    requires Accounted(before, now, fds, base, closeBase)
    ensures forall i :: 0 <= i < |fds| ==> fds[i] in now
    ensures forall i, j :: 0 <= i < j < |fds| ==> fds[i] != fds[j]
  {
  }

  /** Both descent loops of the source: directories only, or a regular file at the end. Whatever
      fails, the caller's table comes back as it was (less a base given up), at most two descriptors
      beyond the caller's (one when the base is given up) are ever open, and with no failing call the
      descent succeeds exactly when the path leads somewhere. */
  method Descend(os: Kernel, base: nat, components: seq<Str>, closeBase: bool, finalFile: bool)
    returns (r: Result<nat, Error>)
    requires os.Valid() && base in os.table && (closeBase ==> !finalFile)
    modifies os
    ensures os.Valid()
    ensures os.peak <= Max(old(os.peak), |old(os.table)| + if closeBase then 1 else 2)
    ensures r != Err(SumOverflow)
    ensures r.Err? ==> os.table == Without(old(os.table), base, closeBase)
    ensures r.Ok? ==>
      && var reached := Reach(old(os.table)[base].node, components, finalFile);
      && reached.Some?
      && if components == [] then r.value == base && os.table == old(os.table)
         else
           && r.value !in Without(old(os.table), base, closeBase)
           && os.table == Without(old(os.table), base, closeBase)[r.value := Handle(reached.value, 0)]
    ensures os.FaultFree() ==>
      (r.Ok? <==> Reach(old(os.table)[base].node, components, finalFile).Some?)
  {
    hide Mine, Without, Accounted;
    ghost var before := os.table;
    ghost var start := os.table[base].node;
    var fds := [base];
    AccountedStart(before, base, closeBase);
    assert components[0..] == components;
    for i := 0 to |components|
      invariant os.Valid()
      invariant os.peak <= Max(old(os.peak), |before| + if closeBase then 1 else 2)
      invariant Stacked(before, os.table, fds, base, closeBase)
      invariant i == 0 ==> fds == [base] && os.table == before
      invariant i > 0 && !closeBase ==> |fds| == 2
      invariant fds[|fds| - 1] in os.table && (i > 0 ==> os.table[fds[|fds| - 1]].pos == 0)
      invariant Reach(start, components, finalFile)
             == Reach(os.table[fds[|fds| - 1]].node, components[i..], finalFile)
    {
      assert components[i..][0] == components[i] && components[i..][1..] == components[i + 1..];
      var stack, failure :=
        DescendStep(os, fds, base, closeBase, components[i], finalFile && i == |components| - 1, before);
      fds := stack;
      if failure.Some? {
        CloseTracked(os, fds, base, closeBase, before);
        return Err(failure.value);
      }
      AccountedIn(before, os.table, fds, base, closeBase);
    }
    if components != [] {
      AccountedEnd(before, os.table, fds, base, closeBase);
    }
    return Ok(fds[|fds| - 1]);
  }

  lemma AccountedStart(before: Table, base: nat, closeBase: bool)
    requires base in before
    ensures Accounted(before, before, [base], base, closeBase)
  {
    assert Mine([base], base, closeBase) == if closeBase then {base} else {} by {
      assert [base][0] == base;
    }
    assert before - {} == before;
  }

  lemma AccountedEnd(before: Table, now: Table, fds: seq<nat>, base: nat, closeBase: bool)
    requires Accounted(before, now, fds, base, closeBase)
    requires if closeBase then |fds| == 1 else |fds| == 2 && fds[0] == base
    ensures fds[|fds| - 1] !in Without(before, base, closeBase)
    ensures now == Without(before, base, closeBase)[fds[|fds| - 1] := now[fds[|fds| - 1]]]
  {
    var fd := fds[|fds| - 1];
    assert Mine(fds, base, closeBase) == {fd} by {
      assert fds[|fds| - 1] == fd;
    }
    assert now == (now - {fd})[fd := now[fd]];
  }
}
