/** Verification of cited sources: whole files and sections hashed through descriptors, under caps. */
module ObligationSources {
  import opened Text
  import opened Outcomes
  import opened Os
  import opened Descent
  import opened CompileLimits
  import opened Listings
  import opened Sums
  import Utf8

  type Digest = Str

  type Hash = seq<Byte> -> Digest

  datatype Obligation = Obligation(
    path: Str,
    fileDigest: Digest,
    start: nat,
    end: nat,
    sectionDigest: Digest)

  datatype Summary = Summary(
    pathCount: nat,
    sourceBytes: nat,
    sectionCount: nat,
    sectionBytes: nat,
    root: Node)

  const SLASH: CodePoint := 0x2F

  /** text.split("/"). */
  function SplitPath(text: Str): (parts: seq<Str>)
    ensures parts != []
  {
    if text == [] then [[]]
    else
      var rest := SplitPath(text[1..]);
      if text[0] == SLASH then [[]] + rest else [[text[0]] + rest[0]] + rest[1..]
  }

  /** The components of an absolute canonical root, or nothing. */
  function RootComponents(text: Str): Option<seq<Str>> {
    var parts := SplitPath(text);
    if parts[0] != [] || |parts| == 1 then None
    else if exists i :: 1 <= i < |parts| && (parts[i] == [] || parts[i] == [0x2E] || parts[i] == [0x2E, 0x2E])
      then None
    else Some(parts[1..])
  }

  // ---- specification -------------------------------------------------------------------------

  /** The directory a canonical root text names. */
  ghost function RootNode(filesystem: Node, text: Str): Option<Node> {
    if !filesystem.Dir? || RootComponents(text).None? then None
    else Reach(filesystem, RootComponents(text).value, false)
  }

  /** The bytes of a cited file. */
  ghost function Content(root: Node, path: Str): (bytes: Option<seq<Byte>>) {
    match Reach(root, SplitPath(path), true)
    case Some(File(b)) => Some(b)
    case _ => None
  }

  function Paths(obligations: seq<Obligation>): set<Str> {
    set i | 0 <= i < |obligations| :: obligations[i].path
  }

  lemma ElementsOfPrefix(s: seq<Str>, i: nat)
    requires i < |s| && Increasing(s)
    ensures Elements(s[..i + 1]) == Elements(s[..i]) + {s[i]}
    ensures s[i] !in Elements(s[..i]) && Elements(s[..i + 1]) <= Elements(s)
    ensures |Elements(s[..i + 1])| == |Elements(s[..i])| + 1
  {
    var a, b := Elements(s[..i]), Elements(s[..i + 1]);
    assert b == a + {s[i]} by {
      assert s[..i + 1][i] == s[i];
      forall x | x in a ensures x in b {
        var j :| 0 <= j < i && s[..i][j] == x;
        assert s[..i + 1][j] == x;
      }
    }
    if s[i] in a {
      var j :| 0 <= j < i && s[..i][j] == s[i];
      LessIsIrreflexive(s[i]);
    }
  }

  lemma SumOfPrefix(s: seq<Str>, i: nat, f: Str -> nat)
    requires i < |s| && Increasing(s)
    ensures Sum(Elements(s[..i + 1]), f) == Sum(Elements(s[..i]), f) + f(s[i]) <= Sum(Elements(s), f)
  {
    var a, b := Elements(s[..i]), Elements(s[..i + 1]);
    ElementsOfPrefix(s, i);
    SumWithout(b, f, s[i]);
    assert b - {s[i]} == a;
    SumOfSubset(b, Elements(s), f);
  }

  ghost function FileSize(root: Node, path: Str): nat {
    match Content(root, path)
    case Some(bytes) => |bytes|
    case None => 0
  }

  ghost function SizeIn(root: Node): Str -> nat {
    p => FileSize(root, p)
  }

  ghost function SourceBytes(root: Node, paths: set<Str>): nat {
    Sum(paths, SizeIn(root))
  }

  ghost function PathBytes(paths: set<Str>): nat {
    Sum(paths, Utf8Size)
  }

  function SectionBytes(obligations: seq<Obligation>): int {
    if obligations == [] then 0
    else
      var last := obligations[|obligations| - 1];
      SectionBytes(obligations[..|obligations| - 1]) + (last.end - last.start)
  }

  ghost predicate FileVerifies(root: Node, path: Str, obligations: seq<Obligation>, l: Limits, hash: Hash) {
    && Content(root, path).Some?
    && |Content(root, path).value| <= l.fileBytes
    && forall i :: 0 <= i < |obligations| && obligations[i].path == path ==>
         obligations[i].fileDigest == hash(Content(root, path).value)
  }

  ghost predicate SectionVerifies(root: Node, o: Obligation, hash: Hash) {
    && Content(root, o.path).Some?
    && o.start < o.end <= |Content(root, o.path).value|
    && hash(Content(root, o.path).value[o.start..o.end]) == o.sectionDigest
  }

  /** What a catalogue of obligations must satisfy under a held root: files counted once, sections
      with multiplicity. */
  ghost predicate SourcesVerify(root: Node, obligations: seq<Obligation>, l: Limits, hash: Hash) {
    var paths := Paths(obligations);
    && |paths| <= l.pathCount
    && (forall p :: p in paths ==> Utf8.SurrogateFree(p) && Utf8Size(p) <= l.pathBytes)
    && PathBytes(paths) <= l.pathBytesTotal
    && (forall p :: p in paths ==> FileVerifies(root, p, obligations, l, hash))
    && SourceBytes(root, paths) <= l.totalBytes
    && |paths| <= l.fileCount
    && (forall i :: 0 <= i < |obligations| ==> SectionVerifies(root, obligations[i], hash))
    && |obligations| <= l.sectionCount
    && SectionBytes(obligations) <= l.sectionBytesTotal
  }

  ghost predicate Accepts(filesystem: Node, rootText: Str, obligations: seq<Obligation>, l: Limits,
                          hash: Hash) {
    RootNode(filesystem, rootText).Some?
    && SourcesVerify(RootNode(filesystem, rootText).value, obligations, l, hash)
  }

  ghost function SummaryOf(root: Node, obligations: seq<Obligation>): Summary
    requires SectionBytes(obligations) >= 0
  {
    Summary(|Paths(obligations)|, SourceBytes(root, Paths(obligations)), |obligations|,
            SectionBytes(obligations), root)
  }

  // ---- hashing through a descriptor ----------------------------------------------------------

  /** A chunked pass: some bytes at a time until count are in, whatever the buffer and the grants. */
  method ReadExactly(os: Kernel, fd: nat, count: nat, buffer: nat) returns (r: Result<seq<Byte>, Error>)
    requires os.Valid() && fd in os.table && os.table[fd].node.File? && buffer > 0
    modifies os
    ensures r != Err(SumOverflow)
    ensures os.Valid() && os.peak == old(os.peak)
    ensures fd in os.table && os.table - {fd} == old(os.table) - {fd}
    ensures os.table[fd].node == old(os.table)[fd].node
    ensures var h := old(os.table)[fd];
      && (r.Ok? && count == 0 ==> r.value == [])
      && (r.Ok? && count > 0 ==>
            h.pos + count <= |h.node.bytes| && r.value == h.node.bytes[h.pos..h.pos + count])
      && (os.FaultFree() ==> (r.Ok? <==> (count == 0 || h.pos + count <= |h.node.bytes|)))
  {
    ghost var h := os.table[fd];
    var data, remaining := [], count;
    while remaining > 0
      invariant 0 <= remaining <= count && os.Valid() && os.peak == old(os.peak)
      invariant fd in os.table && os.table - {fd} == old(os.table) - {fd}
      invariant os.table[fd] == Handle(h.node, h.pos + count - remaining)
      invariant remaining < count ==> h.pos + count - remaining <= |h.node.bytes|
      invariant data == if remaining == count then [] else h.node.bytes[h.pos..h.pos + count - remaining]
      decreases remaining
    {
      var chunk := os.Read(fd, if buffer < remaining then buffer else remaining);
      if chunk.Err? {
        return Err(OsFailure);
      }
      if chunk.value == [] {
        return Err(Truncated);
      }
      data := data + chunk.value;
      remaining := remaining - |chunk.value|;
    }
    return Ok(data);
  }

  method HashFile(os: Kernel, fd: nat, maxBytes: int, buffer: nat, hash: Hash)
    returns (r: Result<(nat, Digest), Error>)
    requires os.Valid() && fd in os.table && os.table[fd].pos == 0 && buffer > 0
    modifies os
    ensures r != Err(SumOverflow)
    ensures os.Valid() && os.peak == old(os.peak)
    ensures fd in os.table && os.table - {fd} == old(os.table) - {fd}
    ensures var node := old(os.table)[fd].node;
      && (r.Ok? ==> node.File? && |node.bytes| <= maxBytes && r.value == (|node.bytes|, hash(node.bytes)))
      && (os.FaultFree() ==> (r.Ok? <==> (node.File? && |node.bytes| <= maxBytes)))
  {
    var before := os.Fstat(fd);
    if before.Err? {
      return Err(OsFailure);
    }
    if !before.value.File? {
      return Err(NotARegularFile);
    }
    var size := |before.value.bytes|;
    if size > maxBytes {
      return Err(FileTooBig);
    }
    var data := ReadExactly(os, fd, size, buffer);
    if data.Err? {
      return Err(data.error);
    }
    var after := os.Fstat(fd);
    if after.Err? {
      return Err(OsFailure);
    }
    assert data.value == before.value.bytes;
    return Ok((size, hash(data.value)));
  }

  method HashRange(os: Kernel, fd: nat, start: nat, end: nat, buffer: nat, hash: Hash)
    returns (r: Result<Digest, Error>)
    requires os.Valid() && fd in os.table && os.table[fd].node.File? && buffer > 0
    modifies os
    ensures r != Err(SumOverflow)
    ensures os.Valid() && os.peak == old(os.peak)
    ensures fd in os.table && os.table - {fd} == old(os.table) - {fd}
    ensures var bytes := old(os.table)[fd].node.bytes;
      && (r.Ok? ==> start < end <= |bytes| && r.value == hash(bytes[start..end]))
      && (os.FaultFree() ==> (r.Ok? <==> start < end <= |bytes|))
  {
    var before := os.Fstat(fd);
    if before.Err? {
      return Err(OsFailure);
    }
    if start >= end {
      return Err(EmptySection);
    }
    var sought := os.Seek(fd, start);
    if !sought {
      return Err(OsFailure);
    }
    var data := ReadExactly(os, fd, end - start, buffer);
    if data.Err? {
      return Err(data.error);
    }
    var after := os.Fstat(fd);
    if after.Err? {
      return Err(OsFailure);
    }
    return Ok(hash(data.value));
  }

  // ---- the pass ------------------------------------------------------------------------------

  /** Runs a check on an opened descriptor's outcome after closing it: a close failure is reported
      only when nothing else has failed. */
  method CloseAfter<T>(os: Kernel, fd: nat, outcome: Result<T, Error>) returns (r: Result<T, Error>)
    requires os.Valid() && fd in os.table
    modifies os
    ensures os.Valid() && os.table == old(os.table) - {fd} && os.peak == old(os.peak)
    ensures r.Ok? ==> r == outcome
    ensures r.Err? ==> r == outcome || r == Err(CloseFailure)
    ensures outcome.Err? ==> r == outcome
    ensures os.FaultFree() ==> r == outcome
  {
    var closed := os.Close(fd);
    return if outcome.Ok? && !closed then Err(CloseFailure) else outcome;
  }

  lemma TableComesBack(before: Table, middle: Table, after: Table, fd: nat)
    requires fd !in before && fd in middle
    requires middle - {fd} == before && after - {fd} == middle - {fd}
    ensures after - {fd} == before
  {
  }

  method OpenSource(os: Kernel, rootFd: nat, path: Str) returns (r: Result<nat, Error>)
    requires os.Valid() && rootFd in os.table
    modifies os
    ensures r != Err(SumOverflow)
    ensures os.Valid() && os.peak <= Max(old(os.peak), |old(os.table)| + 2)
    ensures r.Err? ==> os.table == old(os.table)
    ensures r.Ok? ==>
      && r.value !in old(os.table) && r.value in os.table && os.table - {r.value} == old(os.table)
      && Content(old(os.table)[rootFd].node, path).Some?
      && os.table[r.value] == Handle(File(Content(old(os.table)[rootFd].node, path).value), 0)
    ensures os.FaultFree() ==> (r.Ok? <==> Content(old(os.table)[rootFd].node, path).Some?)
  {
    hide Reach;
    ReachEndsInFile(os.table[rootFd].node, SplitPath(path));
    r := Descend(os, rootFd, SplitPath(path), false, true);
    if r.Ok? {
      assert os.table - {r.value} == old(os.table);
    }
  }

  lemma {:induction false} ReachEndsInFile(node: Node, components: seq<Str>)
    requires components != []
    ensures Reach(node, components, true).Some? ==> Reach(node, components, true).value.File?
    decreases |components|
  {
    if |components| > 1 && HasEntry(node, components[0]) {
      ReachEndsInFile(node.entries[components[0]], components[1..]);
    }
  }

  /** One cited file: its size and digest, with the descriptor table as before. */
  method VerifyFile(os: Kernel, rootFd: nat, path: Str, obligations: seq<Obligation>, l: Limits, hash: Hash)
    returns (r: Result<nat, Error>)
    requires os.Valid() && rootFd in os.table && l.hashBuffer > 0
    modifies os
    ensures r != Err(SumOverflow)
    ensures os.Valid() && os.table == old(os.table)
    ensures os.peak <= Max(old(os.peak), |old(os.table)| + 2)
    ensures var root := old(os.table)[rootFd].node;
      && (r.Ok? ==> FileVerifies(root, path, obligations, l, hash) && r.value == FileSize(root, path))
      && (os.FaultFree() ==> (r.Ok? <==> FileVerifies(root, path, obligations, l, hash)))
  {
    hide Content;
    var handle := OpenSource(os, rootFd, path);
    if handle.Err? {
      return Err(handle.error);
    }
    ghost var middle := os.table;
    var outcome := HashFile(os, handle.value, l.fileBytes, l.hashBuffer, hash);
    TableComesBack(old(os.table), middle, os.table, handle.value);
    outcome := CloseAfter(os, handle.value, outcome);
    if outcome.Err? {
      return Err(outcome.error);
    }
    var (size, digest) := outcome.value;
    var cited := MatchDigests(path, obligations, digest);
    if cited.Err? {
      return Err(cited.error);
    }
    return Ok(size);
  }

  /** Every obligation that cites the file cites its digest. */
  method MatchDigests(path: Str, obligations: seq<Obligation>, digest: Digest) returns (r: Result<(), Error>)
    ensures r == if forall j :: 0 <= j < |obligations| && obligations[j].path == path ==>
                      obligations[j].fileDigest == digest
                 then Ok(()) else Err(FileDigestMismatch)
  {
    for i := 0 to |obligations|
      invariant forall j :: 0 <= j < i && obligations[j].path == path ==> obligations[j].fileDigest == digest
    {
      if obligations[i].path == path && obligations[i].fileDigest != digest {
        return Err(FileDigestMismatch);
      }
    }
    return Ok(());
  }

  method VerifySection(os: Kernel, rootFd: nat, o: Obligation, l: Limits, hash: Hash)
    returns (r: Result<(), Error>)
    requires os.Valid() && rootFd in os.table && l.hashBuffer > 0
    modifies os
    ensures r != Err(SumOverflow)
    ensures os.Valid() && os.table == old(os.table)
    ensures os.peak <= Max(old(os.peak), |old(os.table)| + 2)
    ensures var root := old(os.table)[rootFd].node;
      && (r.Ok? ==> SectionVerifies(root, o, hash))
      && (os.FaultFree() ==> (r.Ok? <==> SectionVerifies(root, o, hash)))
  {
    hide Content;
    var handle := OpenSource(os, rootFd, o.path);
    if handle.Err? {
      return Err(handle.error);
    }
    ghost var middle := os.table;
    ghost var bytes := Content(old(os.table)[rootFd].node, o.path).value;
    assert os.table[handle.value].node == File(bytes);
    var outcome := HashRange(os, handle.value, o.start, o.end, l.hashBuffer, hash);
    assert outcome.Ok? ==> o.start < o.end <= |bytes| && outcome.value == hash(bytes[o.start..o.end]);
    TableComesBack(old(os.table), middle, os.table, handle.value);
    outcome := CloseAfter(os, handle.value, outcome);
    if outcome.Err? {
      return Err(outcome.error);
    }
    if outcome.value != o.sectionDigest {
      return Err(SectionDigestMismatch);
    }
    return Ok(());
  }

  /** sorted(by_path): each cited path once, in order. */
  method SortedPaths(obligations: seq<Obligation>) returns (paths: seq<Str>)
    ensures Increasing(paths) && Elements(paths) == Paths(obligations) && |paths| == |Paths(obligations)|
  {
    paths := [];
    ghost var seen: set<Str> := {};
    for i := 0 to |obligations|
      invariant seen == Paths(obligations[..i]) && Elements(paths) == seen
      invariant Increasing(paths) && |paths| == |seen|
    {
      var path := obligations[i].path;
      PathsOfPrefix(obligations, i);
      paths := Insert(path, paths);
      seen := seen + {path};
    }
    assert obligations[..|obligations|] == obligations;
  }

  lemma PathsOfPrefix(obligations: seq<Obligation>, i: nat)
    requires i < |obligations|
    ensures Paths(obligations[..i + 1]) == Paths(obligations[..i]) + {obligations[i].path}
  {
    var a, b := Paths(obligations[..i]), Paths(obligations[..i + 1]);
    assert obligations[..i + 1][i] == obligations[i];
    forall p | p in a ensures p in b {
      var j :| 0 <= j < i && obligations[..i][j].path == p;
      assert obligations[..i + 1][j].path == p;
    }
    forall p | p in b ensures p in a + {obligations[i].path} {
      var j :| 0 <= j <= i && obligations[..i + 1][j].path == p;
      if j < i {
        assert obligations[..i][j].path == p;
      }
    }
  }

  /** The path caps, before anything is opened. */
  method CheckPaths(paths: seq<Str>, l: Limits) returns (r: Result<(), Error>)
    requires Increasing(paths) && CompileLimits.Valid(l)
    ensures r.Ok? <==>
      && |paths| <= l.pathCount
      && (forall p :: p in Elements(paths) ==> Utf8.SurrogateFree(p) && Utf8Size(p) <= l.pathBytes)
      && PathBytes(Elements(paths)) <= l.pathBytesTotal
    ensures r != Err(SumOverflow)
  {
    if |paths| > l.pathCount {
      return Err(TooManyPaths);
    }
    var total := 0;
    assert Elements(paths[..0]) == {};
    for i := 0 to |paths|
      invariant 0 <= total == PathBytes(Elements(paths[..i])) <= l.pathBytesTotal
      invariant forall j :: 0 <= j < i ==> Utf8.SurrogateFree(paths[j]) && Utf8Size(paths[j]) <= l.pathBytes
    {
      var size := Utf8Size(paths[i]);
      SumOfPrefix(paths, i, Utf8Size);
      assert paths[i] in Elements(paths);
      if !Utf8.SurrogateFree(paths[i]) {
        return Err(PathNotUtf8);
      }
      if size > l.pathBytes {
        return Err(PathTooLong);
      }
      var sum := CheckedAdd(total, size);
      if sum.Err? {
        return Err(SumOverflow);
      }
      total := sum.value;
      if total > l.pathBytesTotal {
        return Err(PathsTooLong);
      }
    }
    assert paths[..|paths|] == paths;
    return Ok(());
  }

  method VerifyFiles(os: Kernel, rootFd: nat, paths: seq<Str>, obligations: seq<Obligation>, l: Limits,
                     hash: Hash)
    returns (r: Result<(nat, map<Str, nat>), Error>)
    requires os.Valid() && rootFd in os.table && Increasing(paths) && CompileLimits.Valid(l)
    modifies os
    ensures os.Valid() && os.table == old(os.table)
    ensures os.peak <= Max(old(os.peak), |old(os.table)| + 2)
    ensures r != Err(SumOverflow)
    ensures var root := old(os.table)[rootFd].node;
      && (r.Ok? ==>
        && (forall p :: p in Elements(paths) ==> FileVerifies(root, p, obligations, l, hash))
        && r.value.0 == SourceBytes(root, Elements(paths)) <= l.totalBytes
        && |Elements(paths)| <= l.fileCount
        && (forall p :: p in Elements(paths) ==> p in r.value.1 && r.value.1[p] == FileSize(root, p)))
      && (os.FaultFree() && r.Err? ==>
           !((forall p :: p in Elements(paths) ==> FileVerifies(root, p, obligations, l, hash))
             && SourceBytes(root, Elements(paths)) <= l.totalBytes
             && |Elements(paths)| <= l.fileCount))
  {
    hide FileVerifies, SourceBytes, Increasing, Elements, FilesVerify, SizesKnown;
    ghost var root := os.table[rootFd].node;
    var total, sizes: map<Str, nat> := 0, map[];
    NoSourceBytes(root, paths, obligations, l, hash);
    FilesOfElements(root, paths, obligations, l, hash);
    for i := 0 to |paths|
      invariant os.Valid() && os.table == old(os.table)
      invariant os.peak <= Max(old(os.peak), |old(os.table)| + 2)
      invariant 0 <= total == SourceBytes(root, Elements(paths[..i])) <= l.totalBytes
      invariant |Elements(paths[..i])| == i && (i > 0 ==> i <= l.fileCount)
      invariant FilesVerify(root, paths[..i], obligations, l, hash) && SizesKnown(root, paths[..i], sizes)
    {
      SourceBytesOfPrefix(root, paths, i);
      FilesOfPrefix(root, paths, i, obligations, l, hash);
      var size := VerifyFile(os, rootFd, paths[i], obligations, l, hash);
      if size.Err? {
        return Err(size.error);
      }
      FileSizeIsCapped(root, paths[i], obligations, l, hash);
      SizesOfPrefix(root, paths, i, sizes);
      sizes := sizes[paths[i] := size.value];
      var sum := CheckedAdd(total, size.value);
      if sum.Err? {
        return Err(SumOverflow);
      }
      total := sum.value;
      if total > l.totalBytes {
        return Err(SourcesTooBig);
      }
      if i + 1 > l.fileCount {
        FewerElements(paths, i + 1);
        return Err(TooManyFiles);
      }
    }
    assert paths[..|paths|] == paths;
    SizesOfElements(root, paths, sizes);
    return Ok((total, sizes));
  }

  ghost predicate FilesVerify(root: Node, paths: seq<Str>, obligations: seq<Obligation>, l: Limits, hash: Hash) {
    forall j :: 0 <= j < |paths| ==> FileVerifies(root, paths[j], obligations, l, hash)
  }

  ghost predicate SizesKnown(root: Node, paths: seq<Str>, sizes: map<Str, nat>) {
    forall j :: 0 <= j < |paths| ==> paths[j] in sizes && sizes[paths[j]] == FileSize(root, paths[j])
  }

  lemma FilesOfElements(root: Node, paths: seq<Str>, obligations: seq<Obligation>, l: Limits, hash: Hash)
    ensures FilesVerify(root, paths, obligations, l, hash)
       <==> forall p :: p in Elements(paths) ==> FileVerifies(root, p, obligations, l, hash)
  {
    hide FileVerifies;
    assert forall j :: 0 <= j < |paths| ==> paths[j] in Elements(paths);
  }

  lemma FilesOfPrefix(root: Node, paths: seq<Str>, i: nat, obligations: seq<Obligation>, l: Limits, hash: Hash)
    requires i < |paths| && FilesVerify(root, paths[..i], obligations, l, hash)
    ensures FilesVerify(root, paths[..i + 1], obligations, l, hash)
       <==> FileVerifies(root, paths[i], obligations, l, hash)
    ensures FilesVerify(root, paths, obligations, l, hash) ==> FileVerifies(root, paths[i], obligations, l, hash)
  {
    hide FileVerifies;
    assert paths[..i + 1][i] == paths[i];
  }

  lemma SizesOfPrefix(root: Node, paths: seq<Str>, i: nat, sizes: map<Str, nat>)
    requires i < |paths| && SizesKnown(root, paths[..i], sizes)
    ensures SizesKnown(root, paths[..i + 1], sizes[paths[i] := FileSize(root, paths[i])])
  {
    hide FileSize;
    var a, b := paths[..i], paths[..i + 1];
    assert b[i] == paths[i] && forall j :: 0 <= j < i ==> b[j] == a[j];
  }

  lemma SizesOfElements(root: Node, paths: seq<Str>, sizes: map<Str, nat>)
    requires SizesKnown(root, paths, sizes)
    ensures forall p :: p in Elements(paths) ==> p in sizes && sizes[p] == FileSize(root, p)
  {
    hide FileSize;
  }

  lemma NoSourceBytes(root: Node, paths: seq<Str>, obligations: seq<Obligation>, l: Limits, hash: Hash)
    ensures SourceBytes(root, Elements(paths[..0])) == 0 && |Elements(paths[..0])| == 0
    ensures FilesVerify(root, paths[..0], obligations, l, hash) && SizesKnown(root, paths[..0], map[])
  {
    assert Elements(paths[..0]) == {};
  }

  lemma SourceBytesOfPrefix(root: Node, paths: seq<Str>, i: nat)
    requires i < |paths| && Increasing(paths)
    ensures SourceBytes(root, Elements(paths[..i + 1]))
         == SourceBytes(root, Elements(paths[..i])) + FileSize(root, paths[i])
         <= SourceBytes(root, Elements(paths))
    ensures |Elements(paths[..i + 1])| == |Elements(paths[..i])| + 1
    ensures paths[i] in Elements(paths)
  {
    SumOfPrefix(paths, i, SizeIn(root));
    ElementsOfPrefix(paths, i);
  }

  lemma FileSizeIsCapped(root: Node, path: Str, obligations: seq<Obligation>, l: Limits, hash: Hash)
    requires FileVerifies(root, path, obligations, l, hash)
    ensures FileSize(root, path) <= l.fileBytes
  {
  }

  lemma FewerElements(s: seq<Str>, i: nat)
    requires i <= |s|
    ensures |Elements(s[..i])| <= |Elements(s)|
  {
    assert Elements(s[..i]) <= Elements(s) by {
      forall x | x in Elements(s[..i]) ensures x in Elements(s) {
        var j :| 0 <= j < i && s[..i][j] == x;
        assert s[j] == x;
      }
    }
    SubsetIsSmaller(Elements(s[..i]), Elements(s));
  }

  lemma {:induction false} SectionBytesGrow(root: Node, obligations: seq<Obligation>, hash: Hash, i: nat)
    requires i <= |obligations|
    requires forall j :: 0 <= j < |obligations| ==> SectionVerifies(root, obligations[j], hash)
    ensures 0 <= SectionBytes(obligations[..i]) <= SectionBytes(obligations)
    decreases |obligations|
  {
    var n := |obligations|;
    if n > 0 {
      var front := obligations[..n - 1];
      assert forall j :: 0 <= j < n - 1 ==> front[j] == obligations[j];
      assert SectionVerifies(root, obligations[n - 1], hash);
      if i < n {
        assert front[..i] == obligations[..i];
        SectionBytesGrow(root, front, hash, i);
      } else {
        assert obligations[..i] == obligations;
        SectionBytesGrow(root, front, hash, 0);
      }
    }
  }

  /** Every section, counted and summed with multiplicity before it is read. */
  method VerifySections(os: Kernel, rootFd: nat, obligations: seq<Obligation>, sizes: map<Str, nat>,
                        l: Limits, hash: Hash)
    returns (r: Result<nat, Error>)
    requires os.Valid() && rootFd in os.table && CompileLimits.Valid(l)
    requires var root := os.table[rootFd].node;
      forall i :: 0 <= i < |obligations| ==>
        && obligations[i].path in sizes
        && sizes[obligations[i].path] == FileSize(root, obligations[i].path) <= l.fileBytes
    modifies os
    ensures r != Err(SumOverflow)
    ensures os.Valid() && os.table == old(os.table)
    ensures os.peak <= Max(old(os.peak), |old(os.table)| + 2)
    ensures var root := old(os.table)[rootFd].node;
      && (r.Ok? ==>
        && (forall i :: 0 <= i < |obligations| ==> SectionVerifies(root, obligations[i], hash))
        && |obligations| <= l.sectionCount
        && r.value == SectionBytes(obligations) <= l.sectionBytesTotal)
      && (os.FaultFree() && r.Err? ==>
           !((forall i :: 0 <= i < |obligations| ==> SectionVerifies(root, obligations[i], hash))
             && |obligations| <= l.sectionCount
             && SectionBytes(obligations) <= l.sectionBytesTotal))
  {
    hide SectionVerifies, FileSize;
    ghost var root := os.table[rootFd].node;
    var total := 0;
    for i := 0 to |obligations|
      invariant os.Valid() && os.table == old(os.table)
      invariant os.peak <= Max(old(os.peak), |old(os.table)| + 2)
      invariant i <= l.sectionCount
      invariant 0 <= total == SectionBytes(obligations[..i]) <= l.sectionBytesTotal
      invariant forall j :: 0 <= j < i ==> SectionVerifies(root, obligations[j], hash)
    {
      var o := obligations[i];
      SectionFits(root, o, hash);
      if o.start >= o.end {
        return Err(EmptySection);
      }
      if o.end > sizes[o.path] {
        return Err(SectionPastEnd);
      }
      if i + 1 > l.sectionCount {
        return Err(TooManySections);
      }
      assert obligations[..i + 1][..i] == obligations[..i];
      var sum := CheckedAdd(total, o.end - o.start);
      if sum.Err? {
        return Err(SumOverflow);
      }
      total := sum.value;
      if total > l.sectionBytesTotal {
        if forall j :: 0 <= j < |obligations| ==> SectionVerifies(root, obligations[j], hash) {
          SectionBytesGrow(root, obligations, hash, i + 1);
        }
        return Err(SectionsTooBig);
      }
      var verified := VerifySection(os, rootFd, o, l, hash);
      if verified.Err? {
        return Err(verified.error);
      }
    }
    assert obligations[..|obligations|] == obligations;
    return Ok(total);
  }

  lemma SectionFits(root: Node, o: Obligation, hash: Hash)
    ensures SectionVerifies(root, o, hash) ==> o.start < o.end <= FileSize(root, o.path)
  {
  }

  /** Opens an absolute canonical root component by component; nothing stays open on failure. */
  method OpenCanonicalRoot(os: Kernel, text: Str) returns (r: Result<(nat, Node), Error>)
    requires os.Valid()
    modifies os
    ensures r != Err(SumOverflow)
    ensures os.Valid() && os.peak <= Max(old(os.peak), |old(os.table)| + 2)
    ensures r.Err? ==> os.table == old(os.table)
    ensures r.Ok? ==>
      && RootNode(os.root, text) == Some(r.value.1)
      && r.value.0 !in old(os.table) && |os.table| == |old(os.table)| + 1
      && os.table == old(os.table)[r.value.0 := Handle(r.value.1, 0)]
    ensures os.FaultFree() ==> (r.Ok? <==> RootNode(os.root, text).Some?)
  {
    hide Reach;
    var components := RootComponents(text);
    if components.None? {
      return Err(NoncanonicalRoot);
    }
    ghost var before := os.table;
    var base := os.OpenRoot();
    if base.Err? {
      return Err(OsFailure);
    }
    assert os.table - {base.value} == before;
    var opening := Descend(os, base.value, components.value, true, false);
    if opening.Err? {
      return Err(opening.error);
    }
    assert os.table.Keys == before.Keys + {opening.value};
    var entry := os.Fstat(opening.value);
    if entry.Err? {
      assert os.table - {opening.value} == before;
      var ignored := os.Close(opening.value);
      return Err(OsFailure);
    }
    return Ok((opening.value, entry.value));
  }

  /** The root is opened again and must still be the directory held since the start. */
  method RecheckRoot(os: Kernel, rootFd: nat, rootText: Str) returns (r: Result<Node, Error>)
    requires os.Valid() && rootFd in os.table
    requires RootNode(os.root, rootText) == Some(os.table[rootFd].node)
    modifies os
    ensures os.Valid() && os.table == old(os.table)
    ensures os.peak <= Max(old(os.peak), |old(os.table)| + 2)
    ensures r.Ok? ==> r.value == old(os.table)[rootFd].node
    ensures os.FaultFree() ==> r.Ok?
    ensures r != Err(SumOverflow)
  {
    hide Reach;
    var again := OpenCanonicalRoot(os, rootText);
    if again.Err? {
      return Err(RootChanged);
    }
    var same := CloseAfter(os, again.value.0,
                           if again.value.1 == os.table[rootFd].node then Ok(()) else Err(RootChanged));
    assert os.table == old(os.table);
    if same.Err? {
      return Err(same.error);
    }
    var held := os.Fstat(rootFd);
    if held.Err? {
      return Err(OsFailure);
    }
    return Ok(held.value);
  }

  /** The pass under a held root, ending with the root looked up again. */
  method VerifyHeld(os: Kernel, rootFd: nat, rootText: Str, obligations: seq<Obligation>, l: Limits,
                    hash: Hash)
    returns (r: Result<Summary, Error>)
    requires os.Valid() && rootFd in os.table && CompileLimits.Valid(l)
    requires RootNode(os.root, rootText) == Some(os.table[rootFd].node)
    modifies os
    ensures r != Err(SumOverflow)
    ensures os.Valid() && os.table == old(os.table)
    ensures os.peak <= Max(old(os.peak), |old(os.table)| + 2)
    ensures var root := old(os.table)[rootFd].node;
      && (r.Ok? ==>
        && SourcesVerify(root, obligations, l, hash)
        && SectionBytes(obligations) >= 0 && r.value == SummaryOf(root, obligations))
      && (os.FaultFree() && r.Err? ==> !SourcesVerify(root, obligations, l, hash))
  {
    hide FileVerifies, SectionVerifies, Sum, Reach, Increasing;
    ghost var root := os.table[rootFd].node;
    var paths := SortedPaths(obligations);
    var fitting := CheckPaths(paths, l);
    if fitting.Err? {
      return Err(fitting.error);
    }
    var files := VerifyFiles(os, rootFd, paths, obligations, l, hash);
    if files.Err? {
      return Err(files.error);
    }
    forall i | 0 <= i < |obligations|
      ensures obligations[i].path in files.value.1
      ensures files.value.1[obligations[i].path] == FileSize(root, obligations[i].path) <= l.fileBytes
    {
      assert obligations[i].path in Paths(obligations);
      FileSizeIsCapped(root, obligations[i].path, obligations, l, hash);
    }
    var sections := VerifySections(os, rootFd, obligations, files.value.1, l, hash);
    if sections.Err? {
      return Err(sections.error);
    }
    var held := RecheckRoot(os, rootFd, rootText);
    if held.Err? {
      return Err(held.error);
    }
    return Ok(Summary(|paths|, files.value.0, |obligations|, sections.value, held.value));
  }

  /** Whatever fails, the descriptor table is left as it was found and at most three descriptors are
      ever open beyond it. A summary is given only for a catalogue the tree satisfies; with no failing
      call one is given exactly then, however reads are chunked. */
  method VerifyObligationSources(os: Kernel, rootText: Str, obligations: seq<Obligation>, l: Limits, hash: Hash)
    returns (r: Result<Summary, Error>)
    requires os.Valid() && CompileLimits.Valid(l)
    modifies os
    ensures r != Err(SumOverflow)
    ensures os.Valid() && os.table == old(os.table)
    ensures os.peak <= Max(old(os.peak), |old(os.table)| + 3)
    ensures r.Ok? ==>
      && Accepts(os.root, rootText, obligations, l, hash)
      && SectionBytes(obligations) >= 0
      && var root := RootNode(os.root, rootText).value;
      && r.value == SummaryOf(root, obligations)
      && r.value.root == root
      && r.value.pathCount == |Paths(obligations)| && r.value.sourceBytes == SourceBytes(root, Paths(obligations))
      && r.value.sectionCount == |obligations| && r.value.sectionBytes == SectionBytes(obligations)
    ensures os.FaultFree() ==> (r.Ok? <==> Accepts(os.root, rootText, obligations, l, hash))
  {
    hide SourcesVerify, RootNode, SourceBytes, Paths;
    var held := OpenCanonicalRoot(os, rootText);
    if held.Err? {
      return Err(held.error);
    }
    var outcome := VerifyHeld(os, held.value.0, rootText, obligations, l, hash);
    assert os.table - {held.value.0} == old(os.table);
    r := CloseAfter(os, held.value.0, outcome);
  }

  // ---- limits --------------------------------------------------------------------------------

  /** Raising limits never turns an accepted catalogue away; the summary does not mention them. */
  lemma RaisingLimitsAccepts(filesystem: Node, rootText: Str, obligations: seq<Obligation>, l: Limits,
                             m: Limits, hash: Hash)
    requires Within(l, m) && Accepts(filesystem, rootText, obligations, l, hash)
    ensures Accepts(filesystem, rootText, obligations, m, hash)
  {
    var root := RootNode(filesystem, rootText).value;
    forall p | p in Paths(obligations) ensures FileVerifies(root, p, obligations, m, hash) {
      assert FileVerifies(root, p, obligations, l, hash);
    }
  }

  /** Two passes over the same tree: the second, under looser limits, has its own buffer size and read
      grants and meets no failing call. Whenever the first gives a summary, the second gives the same. */
  method VerifyUnderLooserLimits(filesystem: Node, rootText: Str, obligations: seq<Obligation>, l: Limits,
                                 m: Limits, hash: Hash, fails: nat -> bool, grants: nat -> nat,
                                 otherGrants: nat -> nat)
    returns (tight: Result<Summary, Error>, loose: Result<Summary, Error>)
    requires CompileLimits.Valid(l) && CompileLimits.Valid(m) && Within(l, m)
    ensures tight.Ok? ==> loose == tight
  {
    var first := new Kernel(filesystem, fails, grants);
    tight := VerifyObligationSources(first, rootText, obligations, l, hash);
    var second := new Kernel(filesystem, _ => false, otherGrants);
    loose := VerifyObligationSources(second, rootText, obligations, m, hash);
    if tight.Ok? {
      RaisingLimitsAccepts(filesystem, rootText, obligations, l, m, hash);
    }
  }
}
