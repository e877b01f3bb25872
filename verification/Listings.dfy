/** What sorted() makes of a set of strings: each element once, in ascending order. */
module Listings {
  import opened Text

  function Elements(s: seq<Str>): set<Str> {
    set i | 0 <= i < |s| :: s[i]
  }

  predicate Increasing(s: seq<Str>) {
    forall i, j :: 0 <= i < j < |s| ==> Less(s[i], s[j])
  }

  /** Ascending means each entry precedes every later one. */
  lemma IncreasingExactly(s: seq<Str>)
    ensures Increasing(s) <==> forall i, j :: 0 <= i < j < |s| ==> Precedes(s[i], s[j])
  {
    hide Less, Precedes;
    forall a: Str, b: Str ensures Less(a, b) <==> Precedes(a, b) {
      LessIsLexicographic(a, b);
    }
  }

  method Insert(x: Str, listing: seq<Str>) returns (r: seq<Str>)
    requires Increasing(listing) && |listing| == |Elements(listing)|
    ensures Increasing(r) && Elements(r) == Elements(listing) + {x} && |r| == |Elements(r)|
  {
    var k := 0;
    while k < |listing| && Less(listing[k], x)
      invariant k <= |listing| && forall i :: 0 <= i < k ==> Less(listing[i], x)
    {
      k := k + 1;
    }
    if k < |listing| && listing[k] == x {
      assert Elements(listing) + {x} == Elements(listing);
      return listing;
    }
    r := listing[..k] + [x] + listing[k..];
    InsertedListing(x, listing, k);
  }

  lemma InsertedListing(x: Str, listing: seq<Str>, k: nat)
    requires k <= |listing| && Increasing(listing) && |listing| == |Elements(listing)|
    requires forall i :: 0 <= i < k ==> Less(listing[i], x)
    requires k < |listing| ==> !Less(listing[k], x) && listing[k] != x
    ensures var r := listing[..k] + [x] + listing[k..];
      Increasing(r) && Elements(r) == Elements(listing) + {x} && |r| == |Elements(r)|
  {
    hide Less;
    var r := listing[..k] + [x] + listing[k..];
    forall j | k <= j < |listing| ensures Less(x, listing[j]) {
      LessIsTotal(listing[k], x);
      if j > k {
        LessIsTransitive(x, listing[k], listing[j]);
      }
    }
    assert forall i :: 0 <= i < k ==> r[i] == listing[i];
    assert forall i :: k < i < |r| ==> r[i] == listing[i - 1];
    LessIsIrreflexive(x);
    assert x !in Elements(listing);
    InsertedElements(x, listing, k);
  }

  lemma InsertedElements(x: Str, listing: seq<Str>, k: nat)
    requires k <= |listing|
    ensures Elements(listing[..k] + [x] + listing[k..]) == Elements(listing) + {x}
  {
    var r := listing[..k] + [x] + listing[k..];
    assert r[k] == x;
    assert forall i :: 0 <= i < |listing| ==> r[if i < k then i else i + 1] == listing[i];
    assert forall i :: 0 <= i < |r| ==> r[i] == if i == k then x else listing[if i < k then i else i - 1];
    forall y | y in Elements(listing) ensures y in Elements(r) {
      var i :| 0 <= i < |listing| && listing[i] == y;
      assert r[if i < k then i else i + 1] == y;
    }
  }

  /** A set has one ascending listing, so inserting in place is the same as sorting afresh. */
  lemma {:induction false} ListingIsUnique(a: seq<Str>, b: seq<Str>)
    requires Increasing(a) && Increasing(b) && Elements(a) == Elements(b)
    ensures a == b
  {
    EmptyListing(a);
    EmptyListing(b);
    if a != [] {
      LeastComesFirst(a, b);
      TailElements(a);
      TailElements(b);
      ListingIsUnique(a[1..], b[1..]);
      assert a == [a[0]] + a[1..] && b == [b[0]] + b[1..];
    }
  }

  lemma EmptyListing(a: seq<Str>)
    ensures a == [] <==> Elements(a) == {}
  {
    if a != [] {
      assert a[0] in Elements(a);
    }
  }

  lemma LeastComesFirst(a: seq<Str>, b: seq<Str>)
    requires a != [] && b != [] && Increasing(a) && Increasing(b) && Elements(a) == Elements(b)
    ensures a[0] == b[0]
  {
    hide Less;
    assert a[0] in Elements(a) && b[0] in Elements(b);
    var i :| 0 <= i < |b| && b[i] == a[0];
    var j :| 0 <= j < |a| && a[j] == b[0];
    if i > 0 && j > 0 {
      LessIsAsymmetric(a[0], b[0]);
    }
  }

  lemma TailElements(a: seq<Str>)
    requires a != [] && Increasing(a)
    ensures Increasing(a[1..]) && Elements(a[1..]) == Elements(a) - {a[0]}
  {
    hide Less;
    LessIsIrreflexive(a[0]);
    forall x | x in Elements(a) - {a[0]} ensures x in Elements(a[1..]) {
      var i :| 0 <= i < |a| && a[i] == x;
      assert a[1..][i - 1] == x;
    }
  }
}
