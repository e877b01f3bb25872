/** Execution provenance, the mutable fixture-selection seam, and what a run-level taint may bind. */
module Provenance {
  import opened Text
  import opened Outcomes
  import opened Listings

  function Chars(s: string): Str {
    seq(|s|, i requires 0 <= i < |s| => if s[i] as int < 0x80 then s[i] as int else 0)
  }

  /** What a lane runs under; a fixture id exists exactly for a benchmark fixture. */
  datatype Provenance = ProductionSubject | BenchmarkFixture(fixtureId: Str) {
    function Ids(): set<Str> {
      if BenchmarkFixture? then {fixtureId} else {}
    }
  }

  /** What a lane is bound to in the seam: None, a value that is not a string, or a fixture id. */
  datatype Binding = Nothing | NotText | Named(fixtureId: Str)

  type Seam = map<Str, Binding>

  datatype Descriptor = Descriptor(fixtureId: Str, benchmark: bool)

  type Registry = map<Str, Descriptor>

  datatype Trouble =
    | SelectionNotText
    | UnknownFixture
    | DescriptorDisagrees
    | BadFixtureId
    | LateSelection
    | ChangedSelection
    | SelectionDisagrees
    | BadTaintState

  predicate IdentifierStart(c: CodePoint) {
    'a' as int <= c <= 'z' as int || '0' as int <= c <= '9' as int
  }

  predicate ValidFixtureId(id: Str) {
    && 0 < |id| <= 128
    && IdentifierStart(id[0])
    && forall i :: 0 < i < |id| ==>
         IdentifierStart(id[i]) || id[i] == '.' as int || id[i] == '_' as int || id[i] == '-' as int
  }

  /** The provenance the seam gives a lane now. Only None, or a missing key, is a production subject. */
  function Resolve(registry: Registry, seam: Seam, lane: Str): (r: Result<Provenance, Trouble>)
    ensures r.Ok? && r.value.BenchmarkFixture? ==>
      lane in seam && seam[lane] == Named(r.value.fixtureId) && r.value.fixtureId in registry
    ensures r == Ok(ProductionSubject) <==> lane !in seam || seam[lane] == Nothing
  {
    match if lane in seam then seam[lane] else Nothing
    case Nothing => Ok(ProductionSubject)
    case NotText => Err(SelectionNotText)
    case Named(id) =>
      if id !in registry then Err(UnknownFixture)
      else if registry[id] != Descriptor(id, true) then Err(DescriptorDisagrees)
      else if !ValidFixtureId(id) then Err(BadFixtureId)
      else Ok(BenchmarkFixture(id))
  }

  /** A lane runs under a fixture exactly when the seam names one that is registered as a benchmark under
      its own id, and the id has at most 128 characters: a to z, 0 to 9, and after the first also . _ -. */
  lemma FixtureResolvesExactly(registry: Registry, seam: Seam, lane: Str, id: Str)
    ensures Resolve(registry, seam, lane) == Ok(BenchmarkFixture(id)) <==>
      && lane in seam && seam[lane] == Named(id)
      && id in registry && registry[id].fixtureId == id && registry[id].benchmark
      && 1 <= |id| <= 128 && id[0] != 0x2D && id[0] != 0x2E && id[0] != 0x5F
      && forall c :: c in id ==>
           0x61 <= c <= 0x7A || 0x30 <= c <= 0x39 || c == 0x2D || c == 0x2E || c == 0x5F
  {
    if ValidFixtureId(id) {
      assert forall c :: c in id ==> IdentifierStart(c) || c == 0x2D || c == 0x2E || c == 0x5F;
    } else if 1 <= |id| <= 128 {
      assert forall i :: 0 <= i < |id| ==> id[i] in id;
    }
  }

  // ---- taint state ---------------------------------------------------------------------------

  datatype Taint = Clean | FixtureTainted

  /** An arbitrary value handed in by a caller. */
  datatype Value = TextValue(text: Str) | Items(items: seq<Value>) | Other

  const CLEAN := Chars("clean")
  const FIXTURE_TAINTED := Chars("fixture_tainted")

  function Tag(t: Taint): Str {
    if t == Clean then CLEAN else FIXTURE_TAINTED
  }

  lemma TagsDiffer()
    ensures CLEAN != FIXTURE_TAINTED
  {
    assert |CLEAN| == 5 && |FIXTURE_TAINTED| == 15;
  }

  /** The two tags as code points. */
  lemma TagsSpelled()
    ensures Tag(Clean) == [0x63, 0x6C, 0x65, 0x61, 0x6E]
    ensures Tag(FixtureTainted) ==
      [0x66, 0x69, 0x78, 0x74, 0x75, 0x72, 0x65, 0x5F, 0x74, 0x61, 0x69, 0x6E, 0x74, 0x65, 0x64]
  {
  }

  function TextValues(ids: seq<Str>): seq<Value> {
    seq(|ids|, i requires 0 <= i < |ids| => TextValue(ids[i]))
  }

  /** A taint and ids that agree: ids all known, ascending, and present exactly when tainted. */
  predicate Binds(taint: Taint, ids: seq<Str>, known: set<Str>) {
    && Increasing(ids)
    && Elements(ids) <= known
    && (taint == Clean <==> ids == [])
  }

  predicate Accepted(tag: Value, fixtureIds: Value, taint: Taint, ids: seq<Str>, known: set<Str>) {
    tag == TextValue(Tag(taint)) && fixtureIds == Items(TextValues(ids)) && Binds(taint, ids, known)
  }

  /** Accepts the two tags with an agreeing list of ids, and nothing else whatever its type. */
  method ValidateFixtureTaintState(tag: Value, fixtureIds: Value, known: set<Str>)
    returns (r: Result<Taint, Trouble>)
    ensures r.Ok? <==> exists taint, ids :: Accepted(tag, fixtureIds, taint, ids, known)
    ensures r.Ok? ==> tag == TextValue(Tag(r.value))
    ensures r.Err? ==> r.error == BadTaintState
  {
    TagsDiffer();
    if !tag.TextValue? || (tag.text != CLEAN && tag.text != FIXTURE_TAINTED) || !fixtureIds.Items? {
      return Err(BadTaintState);
    }
    var items := fixtureIds.items;
    ghost var ids: seq<Str> := [];
    var seen: set<Str> := {};
    var previous: Option<Str> := None;
    for i := 0 to |items|
      invariant |ids| == i && Increasing(ids) && seen == Elements(ids) <= known
      invariant forall j :: 0 <= j < i ==> items[j] == TextValue(ids[j])
      invariant previous == if i == 0 then None else Some(ids[i - 1])
    {
      if !items[i].TextValue? || items[i].text !in known || items[i].text in seen
        || (previous.Some? && !Less(previous.value, items[i].text))
      {
        Refused(items, ids, i, known);
        return Err(BadTaintState);
      }
      var id := items[i].text;
      Extended(ids, id);
      ids, seen, previous := ids + [id], seen + {id}, Some(id);
    }
    assert items == TextValues(ids);
    EmptyListing(ids);
    var taint := if tag.text == CLEAN then Clean else FixtureTainted;
    if (taint == Clean) != (seen == {}) {
      forall other | items == TextValues(other) ensures other == ids {
        SameTexts(other, ids);
      }
      return Err(BadTaintState);
    }
    assert Accepted(tag, fixtureIds, taint, ids, known);
    return Ok(taint);
  }

  lemma SameTexts(a: seq<Str>, b: seq<Str>)
    requires TextValues(a) == TextValues(b)
    ensures a == b
  {
    assert |TextValues(a)| == |a| && |TextValues(b)| == |b|;
    forall i | 0 <= i < |a| ensures a[i] == b[i] {
      assert TextValues(a)[i] == TextValues(b)[i];
    }
  }

  lemma Extended(ids: seq<Str>, id: Str)
    requires Increasing(ids) && (ids != [] ==> Less(ids[|ids| - 1], id))
    ensures Increasing(ids + [id]) && Elements(ids + [id]) == Elements(ids) + {id}
  {
    hide Less;
    var r := ids + [id];
    forall i | 0 <= i < |ids| ensures Less(ids[i], id) {
      if i < |ids| - 1 {
        LessIsTransitive(ids[i], ids[|ids| - 1], id);
      }
    }
    assert r[|ids|] == id;
    forall x | x in Elements(ids) ensures x in Elements(r) {
      var i :| 0 <= i < |ids| && ids[i] == x;
      assert r[i] == x;
    }
  }

  /** An entry the walk turns away cannot be part of any agreeing listing. */
  lemma Refused(items: seq<Value>, ids: seq<Str>, i: nat, known: set<Str>)
    requires i < |items| && |ids| == i && forall j :: 0 <= j < i ==> items[j] == TextValue(ids[j])
    requires !items[i].TextValue? || items[i].text !in known || items[i].text in Elements(ids)
      || (i > 0 && !Less(ids[i - 1], items[i].text))
    ensures forall other, taint :: items == TextValues(other) ==> !Binds(taint, other, known)
  {
    forall other, taint | items == TextValues(other) && Binds(taint, other, known) ensures false {
      assert items[i] == TextValue(other[i]);
      assert forall j :: 0 <= j < i ==> TextValues(other)[j] == TextValue(ids[j]);
      assert other[i] in Elements(other);
      if other[i] in Elements(ids) {
        var j :| 0 <= j < i && ids[j] == other[i];
        assert other[j] == other[i];
        LessIsIrreflexive(other[i]);
      }
    }
  }
}
