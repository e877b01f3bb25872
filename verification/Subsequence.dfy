/** The greedy in-order match of an observed list inside a complete one. */
module Subsequence {

  /** Positions in the complete list, strictly increasing, that show the observed items in order. */
  ghost predicate Embeds<T>(at: seq<nat>, observed: seq<T>, complete: seq<T>) {
    && |at| == |observed|
    && (forall i :: 0 <= i < |at| ==> at[i] < |complete| && complete[at[i]] == observed[i])
    && forall i, j :: 0 <= i < j < |at| ==> at[i] < at[j]
  }

  /** One shared iterator over the complete list, advanced past the first match of each item in turn:
      true exactly when some embedding exists. */
  method IsSubsequence<T(==)>(observed: seq<T>, complete: seq<T>) returns (r: bool)
    ensures r <==> exists at: seq<nat> :: Embeds(at, observed, complete)
  {
    var next := 0;
    ghost var at: seq<nat> := [];
    for i := 0 to |observed|
      invariant Embeds(at, observed[..i], complete)
      invariant next == if i == 0 then 0 else at[i - 1] + 1
      invariant forall other: seq<nat> :: Embeds(other, observed, complete) && i > 0 ==> at[i - 1] <= other[i - 1]
    {
      var found := false;
      ghost var start := next;
      while next < |complete| && !found
        invariant start <= next <= |complete|
        invariant found ==> start < next && complete[next - 1] == observed[i]
        invariant forall k :: start <= k < (if found then next - 1 else next) ==> complete[k] != observed[i]
      {
        found := complete[next] == observed[i];
        next := next + 1;
      }
      forall other: seq<nat> | Embeds(other, observed, complete)
        ensures found && next - 1 <= other[i]
      {
        assert start <= other[i] by {
          assert i > 0 ==> other[i - 1] < other[i];
        }
      }
      if !found {
        return false;
      }
      assert observed[..i + 1] == observed[..i] + [observed[i]];
      at := at + [next - 1];
    }
    assert observed[..|observed|] == observed;
    return true;
  }

  /** Embeddings compose: what a client saw of an evidence list that itself embeds in a trace embeds in
      the trace. */
  lemma EmbeddingsCompose<T>(inner: seq<nat>, outer: seq<nat>, a: seq<T>, b: seq<T>, c: seq<T>)
    requires Embeds(inner, a, b) && Embeds(outer, b, c)
    ensures exists at: seq<nat> :: Embeds(at, a, c)
  {
    var at: seq<nat> := seq(|inner|, i requires 0 <= i < |inner| => outer[inner[i]]);
    assert Embeds(at, a, c);
  }

  lemma Positions<T>(at: seq<nat>, observed: seq<T>, complete: seq<T>)
    requires Embeds(at, observed, complete)
    ensures |at| == |observed| && forall i :: 0 <= i < |at| ==> at[i] < |complete| && complete[at[i]] == observed[i]
  {
  }

  lemma PrefixEmbeds<T>(at: seq<nat>, observed: seq<T>, complete: seq<T>)
    requires Embeds(at, observed, complete) && observed != []
    ensures var n := |observed| - 1; Embeds(at[..n], observed[..n], complete[..at[n]])
  {
  }

  /** Nothing is seen more often than it happened: an embedding uses each position once. */
  lemma {:induction false} EmbeddingKeepsCounts<T>(at: seq<nat>, observed: seq<T>, complete: seq<T>)
    requires Embeds(at, observed, complete)
    ensures multiset(observed) <= multiset(complete)
    decreases |observed|
  {
    hide Embeds;
    Positions(at, observed, complete);
    if observed == [] {
      assert multiset(observed) == multiset{};
    } else {
      var n := |observed| - 1;
      var last := at[n];
      PrefixEmbeds(at, observed, complete);
      EmbeddingKeepsCounts(at[..n], observed[..n], complete[..last]);
      assert observed == observed[..n] + [observed[n]];
      CountsAround(complete, last);
    }
  }

  lemma CountsAround<T>(s: seq<T>, k: nat)
    requires k < |s|
    ensures multiset(s) == multiset(s[..k]) + multiset{s[k]} + multiset(s[k + 1..])
  {
    assert s == s[..k] + [s[k]] + s[k + 1..];
  }
}
