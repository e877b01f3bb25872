/** What the texts of a root and of a cited path mean: components between slashes, each an entry of the
    directory before it. */
module SourcePaths {
  import opened Text
  import opened Outcomes
  import opened Os
  import opened Descent
  import opened ObligationSources

  /** The parts with a slash between each two. */
  function Slashed(parts: seq<Str>): Str
    requires parts != []
  {
    if |parts| == 1 then parts[0] else parts[0] + [0x2F] + Slashed(parts[1..])
  }

  predicate SlashFree(parts: seq<Str>) {
    parts != [] && forall i :: 0 <= i < |parts| ==> 0x2F !in parts[i]
  }

  /** A text has one writing as slash-free parts between slashes, and those are its components. */
  lemma SplitExactly(text: Str, parts: seq<Str>)
    ensures SplitPath(text) == parts <==> SlashFree(parts) && Slashed(parts) == text
  {
    SplitIsSlashed(text);
    if SlashFree(parts) && Slashed(parts) == text {
      SplitOfSlashed(parts);
    }
  }

  lemma {:induction false} SplitIsSlashed(text: Str)
    ensures SlashFree(SplitPath(text)) && Slashed(SplitPath(text)) == text
  {
    if text != [] {
      SplitIsSlashed(text[1..]);
      var rest, parts := SplitPath(text[1..]), SplitPath(text);
      if text[0] == 0x2F {
        assert parts[1..] == rest;
      } else {
        assert parts[1..] == rest[1..];
        assert |rest| == 1 ==> parts == [[text[0]] + rest[0]];
      }
    }
  }

  lemma {:induction false} SplitOfSlashed(parts: seq<Str>)
    requires SlashFree(parts)
    ensures SplitPath(Slashed(parts)) == parts
    decreases |parts|, |parts[0]|
  {
    var text := Slashed(parts);
    if parts[0] != [] {
      var shorter := [parts[0][1..]] + parts[1..];
      assert shorter[1..] == parts[1..];
      assert parts[0][0] in parts[0];
      SplitOfSlashed(shorter);
      assert text[0] == parts[0][0] && text[1..] == Slashed(shorter);
      assert [parts[0][0]] + shorter[0] == parts[0];
    } else if |parts| > 1 {
      SplitOfSlashed(parts[1..]);
      assert text[0] == 0x2F && text[1..] == Slashed(parts[1..]);
    }
  }

  /** The nodes a walk visits: each but the last is a directory with the next one under the given name. */
  ghost predicate Visits(nodes: seq<Node>, names: seq<Str>) {
    && |nodes| == |names| + 1
    && forall i :: 0 <= i < |names| ==>
         nodes[i].Dir? && names[i] in nodes[i].entries && nodes[i].entries[names[i]] == nodes[i + 1]
  }

  ghost predicate LeadsTo(start: Node, names: seq<Str>, end: Node) {
    exists nodes :: Visits(nodes, names) && nodes[0] == start && nodes[|names|] == end
  }

  lemma {:induction false} ReachIsAWalk(start: Node, names: seq<Str>, end: Node, finalFile: bool)
    requires if finalFile then names != [] && end.File? else start.Dir?
    ensures Reach(start, names, finalFile) == Some(end) <==>
      LeadsTo(start, names, end) && (finalFile || end.Dir?)
    decreases |names|
  {
    hide LeadsTo;
    if names == [] {
      NoSteps(start, names, end);
    } else {
      OneStep(start, names, end);
      if HasEntry(start, names[0]) {
        var child := start.entries[names[0]];
        if |names| == 1 {
          NoSteps(child, names[1..], end);
        } else if child.Dir? {
          ReachIsAWalk(child, names[1..], end, finalFile);
        } else {
          OneStep(child, names[1..], end);
        }
      }
    }
  }

  lemma NoSteps(start: Node, names: seq<Str>, end: Node)
    requires names == []
    ensures LeadsTo(start, names, end) <==> start == end
  {
    if start == end {
      assert Visits([start], names);
    }
  }

  lemma OneStep(start: Node, names: seq<Str>, end: Node)
    requires names != []
    ensures LeadsTo(start, names, end) <==>
      HasEntry(start, names[0]) && LeadsTo(start.entries[names[0]], names[1..], end)
  {
    if LeadsTo(start, names, end) {
      var nodes :| Visits(nodes, names) && nodes[0] == start && nodes[|names|] == end;
      assert HasEntry(nodes[0], names[0]);
      assert Visits(nodes[1..], names[1..]);
    }
    if HasEntry(start, names[0]) && LeadsTo(start.entries[names[0]], names[1..], end) {
      var nodes :| Visits(nodes, names[1..]) && nodes[0] == start.entries[names[0]] && nodes[|names| - 1] == end;
      var more := [start] + nodes;
      assert forall i :: 1 <= i < |names| ==> names[i] == names[1..][i - 1];
      assert Visits(more, names);
    }
  }

  /** A cited path names the file that a walk along its components ends in, and nothing else. */
  lemma ContentExactly(root: Node, names: seq<Str>, bytes: seq<Byte>)
    requires SlashFree(names)
    ensures Content(root, Slashed(names)) == Some(bytes) <==> LeadsTo(root, names, File(bytes))
  {
    hide Reach, LeadsTo;
    SplitExactly(Slashed(names), names);
    ReachIsAWalk(root, names, File(bytes), true);
  }

  /** The section an obligation cites. */
  ghost function Section(root: Node, o: Obligation): seq<Byte> {
    var content := Content(root, o.path);
    if content.Some? && o.start <= o.end <= |content.value| then content.value[o.start..o.end] else []
  }

  ghost function Sections(root: Node, obligations: seq<Obligation>): seq<seq<Byte>> {
    seq(|obligations|, i requires 0 <= i < |obligations| => Section(root, obligations[i]))
  }

  /** The section bytes a summary counts are the bytes of the cited sections, repeats included. */
  lemma {:induction false} SectionBytesAreCited(root: Node, obligations: seq<Obligation>, hash: Hash)
    requires forall i :: 0 <= i < |obligations| ==> SectionVerifies(root, obligations[i], hash)
    ensures SectionBytes(obligations) == |Join(Sections(root, obligations))|
  {
    hide Content;
    if obligations == [] {
      assert Sections(root, obligations) == [];
    } else {
      var n := |obligations| - 1;
      var front := obligations[..n];
      SectionBytesAreCited(root, front, hash);
      assert SectionVerifies(root, obligations[n], hash);
      assert Sections(root, obligations) == Sections(root, front) + [Section(root, obligations[n])];
      JoinOfConcat(Sections(root, front), [Section(root, obligations[n])]);
      JoinOfOne(Section(root, obligations[n]));
    }
  }

  /** Components a canonical root may not have: empty, one dot, two dots. */
  predicate Canonical(names: seq<Str>) {
    forall i :: 0 <= i < |names| ==> names[i] != [] && names[i] != [0x2E] && names[i] != [0x2E, 0x2E]
  }

  /** A root text is a slash and canonical components between slashes, and names the directory that a
      walk from the file system's root along them ends in; any other text names nothing. */
  lemma RootExactly(filesystem: Node, names: seq<Str>, end: Node)
    requires SlashFree(names)
    ensures RootNode(filesystem, [0x2F] + Slashed(names)) == Some(end) <==>
      filesystem.Dir? && Canonical(names) && LeadsTo(filesystem, names, end) && end.Dir?
  {
    hide Reach, LeadsTo;
    var parts := [[]] + names;
    assert parts[1..] == names;
    assert [] + [0x2F] == [0x2F];
    SplitExactly([0x2F] + Slashed(names), parts);
    assert Canonical(names) <==> RootComponents([0x2F] + Slashed(names)) == Some(names) by {
      assert forall i :: 0 <= i < |names| ==> names[i] == parts[i + 1];
    }
    if filesystem.Dir? {
      ReachIsAWalk(filesystem, names, end, false);
    }
  }

  lemma RootIsAbsolute(filesystem: Node, text: Str)
    ensures RootNode(filesystem, text).Some? ==> text != [] && text[0] == 0x2F
    ensures text != [] && text[0] == 0x2F ==>
      exists names :: SlashFree(names) && text == [0x2F] + Slashed(names)
  {
    hide Reach;
    SplitIsSlashed(text);
    if text != [] && text[0] == 0x2F {
      SplitIsSlashed(text[1..]);
      assert text == [0x2F] + Slashed(SplitPath(text[1..]));
    }
  }
}
