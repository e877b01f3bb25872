/** Length-prefixed frames: four big-endian bytes of payload size, then the payload. */
module Framing {
  import opened Text
  import opened Outcomes

  function Header(b: seq<Byte>): (size: int)
    requires |b| >= 4
    ensures 0 <= size < 0x1_0000_0000
  {
    b[0] as int * 0x100_0000 + b[1] as int * 0x1_0000 + b[2] as int * 0x100 + b[3] as int
  }

  /** Complete frames taken off the front, what is left, and whether it starts with a header that
      declares too much. */
  datatype Cut = Cut(frames: seq<seq<Byte>>, rest: seq<Byte>, oversize: bool)

  function CutFrames(b: seq<Byte>, limit: nat): Cut
    decreases |b|
  {
    if |b| < 4 then Cut([], b, false)
    else if Header(b) > limit then Cut([], b, true)
    else if |b| < 4 + Header(b) then Cut([], b, false)
    else
      var more := CutFrames(b[4 + Header(b)..], limit);
      Cut([b[..4 + Header(b)]] + more.frames, more.rest, more.oversize)
  }

  predicate IsFrame(f: seq<Byte>, limit: nat) {
    |f| >= 4 && Header(f) <= limit && |f| == 4 + Header(f)
  }

  /** A proper beginning of a frame that is within the limit. */
  predicate IsIncomplete(b: seq<Byte>, limit: nat) {
    |b| < 4 || (Header(b) <= limit && |b| < 4 + Header(b))
  }

  predicate IsOversize(b: seq<Byte>, limit: nat) {
    |b| >= 4 && Header(b) > limit
  }

  class ByteBuffer {
    var bytes: seq<Byte>

    constructor ()
      ensures bytes == []
    {
      bytes := [];
    }
  }

  /** Takes every complete frame off the buffer in place; a declared size over the limit is an error
      that leaves the buffer at the offending header. */
  method PopU32beFrames(buffer: ByteBuffer, limit: nat) returns (r: Result<seq<seq<Byte>>, ()>)
    modifies buffer
    ensures var cut := CutFrames(old(buffer.bytes), limit);
      && buffer.bytes == cut.rest
      && r == if cut.oversize then Err(()) else Ok(cut.frames)
  {
    var frames: seq<seq<Byte>> := [];
    while |buffer.bytes| >= 4
      invariant var now, whole := CutFrames(buffer.bytes, limit), CutFrames(old(buffer.bytes), limit);
        whole == Cut(frames + now.frames, now.rest, now.oversize)
      decreases |buffer.bytes|
    {
      var size := Header(buffer.bytes);
      if size > limit {
        return Err(());
      }
      if |buffer.bytes| < 4 + size {
        break;
      }
      frames := frames + [buffer.bytes[..4 + size]];
      buffer.bytes := buffer.bytes[4 + size..];
    }
    assert frames + [] == frames;
    return Ok(frames);
  }

  lemma HeaderOfPrefix(a: seq<Byte>, b: seq<Byte>)
    requires |a| >= 4
    ensures Header(a + b) == Header(a)
  {
  }

  lemma FirstFrame(f: seq<Byte>, tail: seq<Byte>, limit: nat)
    requires IsFrame(f, limit)
    ensures var more := CutFrames(tail, limit);
      CutFrames(f + tail, limit) == Cut([f] + more.frames, more.rest, more.oversize)
  {
    hide Header;
    Split(f, tail);
    HeaderOfPrefix(f, tail);
  }

  /** A buffer with a whole frame in front is that frame and the rest. */
  lemma FrontFrame(b: seq<Byte>, limit: nat) returns (f: seq<Byte>, tail: seq<Byte>)
    requires |b| >= 4 && Header(b) <= limit && |b| >= 4 + Header(b)
    ensures b == f + tail && IsFrame(f, limit) && |tail| < |b|
  {
    hide Header;
    f, tail := b[..4 + Header(b)], b[4 + Header(b)..];
    HeaderOfPrefix(f, tail);
    assert b == f + tail;
  }

  /** The declared size is the four header bytes, most significant first. */
  lemma HeaderIsBigEndian(b: seq<Byte>, n: nat)
    requires |b| >= 4 && n < 0x1_0000_0000
    ensures Header(b) == n <==>
      b[..4] == [n / 0x100_0000, n / 0x1_0000 % 0x100, n / 0x100 % 0x100, n % 0x100]
  {
    var w: seq<Byte> := [n / 0x100_0000, n / 0x1_0000 % 0x100, n / 0x100 % 0x100, n % 0x100];
    FourDigits(n);
    assert Header(w) == n;
    if Header(b) == Header(w) {
      SameHeader(b, w);
    }
    assert b[..4] == w ==> b[0] == w[0] && b[1] == w[1] && b[2] == w[2] && b[3] == w[3];
  }

  lemma FourDigits(n: nat)
    ensures n / 0x100_0000 * 0x100_0000 + n / 0x1_0000 % 0x100 * 0x1_0000 + n / 0x100 % 0x100 * 0x100 + n % 0x100 == n
  {
    assert n / 0x100 / 0x100 == n / 0x1_0000;
    assert n / 0x1_0000 / 0x100 == n / 0x100_0000;
  }

  lemma SameHeader(a: seq<Byte>, b: seq<Byte>)
    requires |a| >= 4 && |b| >= 4 && Header(a) == Header(b)
    ensures a[..4] == b[..4]
  {
    assert a[0] == b[0];
    assert a[1] == b[1];
  }

  /** A payload within the limit, behind its size in four bytes, is cut off as one frame. */
  lemma WrittenFrameIsCut(p: seq<Byte>, rest: seq<Byte>, limit: nat)
    requires |p| <= limit && |p| < 0x1_0000_0000
    ensures var n := |p|;
      var f := [n / 0x100_0000, n / 0x1_0000 % 0x100, n / 0x100 % 0x100, n % 0x100] + p;
      var more := CutFrames(rest, limit);
      CutFrames(f + rest, limit) == Cut([f] + more.frames, more.rest, more.oversize)
  {
    var n := |p|;
    var f: seq<Byte> := [n / 0x100_0000, n / 0x1_0000 % 0x100, n / 0x100 % 0x100, n % 0x100] + p;
    HeaderIsBigEndian(f, n);
    hide Header;
    FirstFrame(f, rest, limit);
  }

  /** A buffer is refused at once exactly when its first four bytes come after the limit's four bytes. */
  lemma OversizeExactly(b: seq<Byte>, limit: nat)
    requires |b| >= 4 && limit < 0x1_0000_0000
    ensures CutFrames(b, limit) == Cut([], b, true) <==>
      var (l0, l1, l2, l3) := (limit / 0x100_0000, limit / 0x1_0000 % 0x100, limit / 0x100 % 0x100, limit % 0x100);
      b[0] > l0 || (b[0] == l0 && (b[1] > l1 || (b[1] == l1 && (b[2] > l2 || (b[2] == l2 && b[3] > l3)))))
  {
    FourDigits(limit);
  }

  /** Cutting loses and invents nothing, yields only whole frames, and stops only where it must. */
  lemma {:induction false} CutIsComplete(b: seq<Byte>, limit: nat)
    ensures var cut := CutFrames(b, limit);
      && Join(cut.frames) + cut.rest == b
      && (forall i :: 0 <= i < |cut.frames| ==> IsFrame(cut.frames[i], limit))
      && (if cut.oversize then IsOversize(cut.rest, limit) else IsIncomplete(cut.rest, limit))
    decreases |b|
  {
    hide Header, IsFrame;
    if |b| >= 4 && Header(b) <= limit && |b| >= 4 + Header(b) {
      var f, tail := FrontFrame(b, limit);
      FirstFrame(f, tail, limit);
      CutIsComplete(tail, limit);
      var more := CutFrames(tail, limit);
      assert ([f] + more.frames)[1..] == more.frames;
      Assoc(f, Join(more.frames), more.rest);
    }
  }

  /** Cutting a joined list of frames gives the list back, whatever incomplete piece follows. */
  lemma {:induction false} CutInvertsJoin(frames: seq<seq<Byte>>, rest: seq<Byte>, limit: nat)
    requires forall i :: 0 <= i < |frames| ==> IsFrame(frames[i], limit)
    requires IsIncomplete(rest, limit)
    ensures CutFrames(Join(frames) + rest, limit) == Cut(frames, rest, false)
  {
    hide Header, IsFrame;
    if frames == [] {
      assert Join(frames) + rest == rest;
    } else {
      var f, tail := frames[0], Join(frames[1..]) + rest;
      CutInvertsJoin(frames[1..], rest, limit);
      Assoc(f, Join(frames[1..]), rest);
      FirstFrame(f, tail, limit);
      assert frames == [f] + frames[1..];
    }
  }

  /** Cutting a stream that arrives in two pieces: the first piece's frames, then the cut of its rest
      with the second piece behind it. */
  lemma {:induction false} CutResumes(a: seq<Byte>, b: seq<Byte>, limit: nat)
    ensures var first, whole := CutFrames(a, limit), CutFrames(a + b, limit);
      if first.oversize then whole == Cut(first.frames, first.rest + b, true)
      else
        var then_ := CutFrames(first.rest + b, limit);
        whole == Cut(first.frames + then_.frames, then_.rest, then_.oversize)
    decreases |a|
  {
    hide Header, IsFrame;
    if |a| >= 4 && Header(a) <= limit && |a| >= 4 + Header(a) {
      var f, tail := FrontFrame(a, limit);
      FirstFrame(f, tail, limit);
      FirstFrame(f, tail + b, limit);
      Assoc(f, tail, b);
      CutResumes(tail, b, limit);
      var more := CutFrames(tail, limit);
      if !more.oversize {
        Assoc([f], more.frames, CutFrames(more.rest + b, limit).frames);
      }
    } else if |a| >= 4 {
      HeaderOfPrefix(a, b);
    }
  }

  /** The relay's use of the framer: one call per chunk. A failing call loses its own frames. */
  function Feed(held: seq<Byte>, chunks: seq<seq<Byte>>, limit: nat): Cut
    decreases |chunks|
  {
    if chunks == [] then Cut([], held, false)
    else
      var cut := CutFrames(held + chunks[0], limit);
      if cut.oversize then cut.(frames := [])
      else
        var more := Feed(cut.rest, chunks[1..], limit);
        Cut(cut.frames + more.frames, more.rest, more.oversize)
  }

  /** However a stream is chunked, the calls fail exactly when the whole stream holds an oversize
      header; when none does they give the same frames and rest, and otherwise a beginning of them. */
  lemma {:induction false} FeedIgnoresChunking(held: seq<Byte>, chunks: seq<seq<Byte>>, limit: nat)
    requires IsIncomplete(held, limit)
    ensures var fed, whole := Feed(held, chunks, limit), CutFrames(held + Join(chunks), limit);
      && fed.oversize == whole.oversize
      && (if fed.oversize then fed.frames <= whole.frames else fed == whole)
    decreases |chunks|
  {
    hide CutFrames, IsIncomplete;
    if chunks == [] {
      assert held + Join(chunks) == held;
      IncompleteIsUncut(held, limit);
    } else {
      var a := held + chunks[0];
      CutResumes(a, Join(chunks[1..]), limit);
      Assoc(held, chunks[0], Join(chunks[1..]));
      CutIsComplete(a, limit);
      var cut := CutFrames(a, limit);
      if !cut.oversize {
        FeedIgnoresChunking(cut.rest, chunks[1..], limit);
      }
    }
  }

  lemma IncompleteIsUncut(b: seq<Byte>, limit: nat)
    requires IsIncomplete(b, limit)
    ensures CutFrames(b, limit) == Cut([], b, false)
  {
  }

  // ---- duplication ---------------------------------------------------------------------------

  /** The frame sequence with frame number index, counting from one, sent twice. */
  function Duplicated(frames: seq<seq<Byte>>, index: int): seq<seq<Byte>> {
    if 1 <= index <= |frames| then frames[..index] + [frames[index - 1]] + frames[index..] else frames
  }

  /** What one more frame adds to the duplicated stream. */
  lemma DuplicatedGrows(frames: seq<seq<Byte>>, f: seq<Byte>, index: int)
    ensures Join(Duplicated(frames + [f], index))
         == Join(Duplicated(frames, index)) + f + if index == |frames| + 1 then f else []
  {
    var more := frames + [f];
    JoinOfOne(f);
    if index == |frames| + 1 {
      assert more[..index] == more && more[index..] == [];
      assert Duplicated(more, index) == more + [f];
      JoinOfConcat(more, [f]);
      JoinOfConcat(frames, [f]);
    } else if 1 <= index <= |frames| {
      assert Duplicated(more, index) == Duplicated(frames, index) + [f];
      JoinOfConcat(Duplicated(frames, index), [f]);
    } else {
      JoinOfConcat(frames, [f]);
    }
  }
}
