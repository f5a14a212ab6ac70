/** Sorting by score and filling the buckets (src/internal/retrieval/scoring.go, src/internal/retrieval/walk.go). */
module Ranking {
  import opened Common
  import opened RetrievalTypes
  import StableSort

  const ZERO := Finite(0.0)

  datatype RankedNode = RankedNode(node: Node, score: Score, sim: Score, recency: Score)

  predicate ByScore(a: RankedNode, b: RankedNode) {
    a.score.Above(b.score)
  }

  function Clean(rn: RankedNode): (cleaned: RankedNode)
    ensures cleaned.score.Finite? && cleaned == rn.(score := cleaned.score)
    ensures if rn.score.Finite? then cleaned.score == rn.score else cleaned.score.value == 0.0
  {
    if rn.score.Finite? then rn else rn.(score := ZERO)
  }

  function Cleaned(ranked: seq<RankedNode>): seq<RankedNode> {
    seq(|ranked|, i requires 0 <= i < |ranked| => Clean(ranked[i]))
  }

  method SortByScoreDesc(ranked: array<RankedNode>)
    modifies ranked
    ensures ranked[..] == StableSort.Sort(ByScore, Cleaned(old(ranked[..])))
  {
    ghost var was := ranked[..];
    for i := 0 to ranked.Length
      invariant forall j | 0 <= j < ranked.Length :: ranked[j] == if j < i then Clean(was[j]) else was[j]
    {
      if !ranked[i].score.Finite? {
        ranked[i] := ranked[i].(score := ZERO);
      }
    }
    assert ranked[..] == Cleaned(was);
    var sorted := StableSort.Sort(ByScore, ranked[..]);
    ByScoreIsWeakOrder();
    StableSort.SortIsStableSort(ByScore, ranked[..]);
    assert |multiset(sorted)| == |multiset(ranked[..])|;
    forall i | 0 <= i < ranked.Length {
      ranked[i] := sorted[i];
    }
    assert ranked[..] == sorted;
  }

  lemma ByScoreIsWeakOrder()
    ensures StableSort.IsWeakOrder(ByScore)
  {
  }

  /** Sorting orders the cleaned nodes by falling score, loses none, and is the only stable way to do so. */
  lemma SortingRanks(ranked: seq<RankedNode>, t: seq<RankedNode>)
    ensures StableSort.IsStableSort(ByScore, Cleaned(ranked), t) <==> t == StableSort.Sort(ByScore, Cleaned(ranked))
    ensures t == StableSort.Sort(ByScore, Cleaned(ranked)) ==> multiset(t) == multiset(Cleaned(ranked)) && IsRanked(t)
  {
    ByScoreIsWeakOrder();
    StableSort.SortIsStableSort(ByScore, Cleaned(ranked));
    if StableSort.IsStableSort(ByScore, Cleaned(ranked), t) {
      StableSort.StableSortIsUnique(ByScore, t, StableSort.Sort(ByScore, Cleaned(ranked)));
    }
  }

  ghost predicate IsRanked(ranked: seq<RankedNode>) {
    forall i, j | 0 <= i < j < |ranked| :: !ranked[j].score.Above(ranked[i].score)
  }

  // ---------------------------------------------------------------- buckets

  /** The bucket of a category; other categories have none. */
  function BucketOf(category: string): Option<nat> {
    if category == "world" then Some(0)
    else if category == "opinion" then Some(1)
    else if category == "experience" then Some(2)
    else if category == "observation" then Some(3)
    else None
  }

  function FactOf(rn: RankedNode, explain: bool, penalty: Score -> Score): Fact {
    var node := rn.node;
    if explain then
      Fact(node.content, node.parentId, node.relation, node.depth, rn.score, rn.sim, rn.recency,
           penalty(node.pathWeight), node.breakdown)
    else
      Fact(node.content, node.parentId, node.relation, node.depth, ZERO, ZERO, ZERO, ZERO, node.breakdown)
  }

  predicate IsFirst(ranked: seq<RankedNode>, i: nat)
    requires i < |ranked|
  {
    forall j: nat | j < i :: ranked[j].node.content != ranked[i].node.content
  }

  /** The node at `o` gives bucket `b` its fact for that content. */
  predicate Gives(ranked: seq<RankedNode>, o: nat, b: nat) {
    o < |ranked| && IsFirst(ranked, o) && BucketOf(ranked[o].node.category) == Some(b)
  }

  /** Where the facts of bucket `b` come from among the first `n` nodes. */
  function Origins(ranked: seq<RankedNode>, n: nat, b: nat): (origins: seq<nat>)
    requires n <= |ranked|
    ensures forall k | 0 <= k < |origins| :: origins[k] < n
  {
    if n == 0 then []
    else if Gives(ranked, n - 1, b) then Origins(ranked, n - 1, b) + [n - 1]
    else Origins(ranked, n - 1, b)
  }

  function FactsAt(ranked: seq<RankedNode>, origins: seq<nat>, explain: bool, penalty: Score -> Score): seq<Fact>
    requires forall k | 0 <= k < |origins| :: origins[k] < |ranked|
  {
    seq(|origins|, k requires 0 <= k < |origins| => FactOf(ranked[origins[k]], explain, penalty))
  }

  function BucketFacts(ranked: seq<RankedNode>, n: nat, b: nat, explain: bool, penalty: Score -> Score): seq<Fact>
    requires n <= |ranked|
  {
    FactsAt(ranked, Origins(ranked, n, b), explain, penalty)
  }

  lemma BucketGrows(ranked: seq<RankedNode>, i: nat, b: nat, explain: bool, penalty: Score -> Score)
    requires i < |ranked|
    ensures BucketFacts(ranked, i + 1, b, explain, penalty) ==
            BucketFacts(ranked, i, b, explain, penalty)
              + if Gives(ranked, i, b) then [FactOf(ranked[i], explain, penalty)] else []
  {
  }

  /** The fact shows the node: its text and place always, its scores only in an explained retrieval. */
  predicate Shows(f: Fact, rn: RankedNode, explain: bool, penalty: Score -> Score) {
    && f.content == rn.node.content && f.parentId == rn.node.parentId && f.relation == rn.node.relation
    && f.depth == rn.node.depth && f.breakdown == rn.node.breakdown
    && (explain ==> f.rankingScore == rn.score && f.vectorScore == rn.sim && f.recencyScore == rn.recency
                    && f.depthPenalty == penalty(rn.node.pathWeight))
    && (!explain ==> f.rankingScore == f.vectorScore == f.recencyScore == f.depthPenalty == Finite(0.0))
  }

  /** The bucket of a category: one fact for every first node of its content that has the category, and no other. */
  ghost predicate HoldsCategory(facts: seq<Fact>, category: string, ranked: seq<RankedNode>, explain: bool,
                                penalty: Score -> Score)
  {
    && (forall f | f in facts ::
          exists o: nat :: o < |ranked| && IsFirst(ranked, o) && ranked[o].node.category == category
                           && Shows(f, ranked[o], explain, penalty))
    && (forall o: nat | o < |ranked| && IsFirst(ranked, o) && ranked[o].node.category == category ::
          exists f :: f in facts && Shows(f, ranked[o], explain, penalty))
  }

  lemma BucketHoldsCategory(ranked: seq<RankedNode>, b: nat, category: string, explain: bool, penalty: Score -> Score)
    requires b < 4 && category == ["world", "opinion", "experience", "observation"][b]
    ensures HoldsCategory(BucketFacts(ranked, |ranked|, b, explain, penalty), category, ranked, explain, penalty)
  {
    var facts, origins := BucketFacts(ranked, |ranked|, b, explain, penalty), Origins(ranked, |ranked|, b);
    OriginsAreFirstNodes(ranked, |ranked|, b);
    forall f | f in facts
      ensures exists o: nat :: o < |ranked| && IsFirst(ranked, o) && ranked[o].node.category == category
                               && Shows(f, ranked[o], explain, penalty)
    {
      var k :| 0 <= k < |facts| && facts[k] == f;
      var o := origins[k];
      assert o in origins && Shows(f, ranked[o], explain, penalty);
    }
    forall o: nat | o < |ranked| && IsFirst(ranked, o) && ranked[o].node.category == category
      ensures exists f :: f in facts && Shows(f, ranked[o], explain, penalty)
    {
      assert o in origins;
      var k :| 0 <= k < |origins| && origins[k] == o;
      assert facts[k] in facts && Shows(facts[k], ranked[o], explain, penalty);
    }
  }

  /** The four buckets, each under its category. */
  lemma BucketsHoldCategories(ranked: seq<RankedNode>, explain: bool, penalty: Score -> Score)
    ensures HoldsCategory(BucketFacts(ranked, |ranked|, 0, explain, penalty), "world", ranked, explain, penalty)
    ensures HoldsCategory(BucketFacts(ranked, |ranked|, 1, explain, penalty), "opinion", ranked, explain, penalty)
    ensures HoldsCategory(BucketFacts(ranked, |ranked|, 2, explain, penalty), "experience", ranked, explain, penalty)
    ensures HoldsCategory(BucketFacts(ranked, |ranked|, 3, explain, penalty), "observation", ranked, explain, penalty)
  {
    BucketHoldsCategory(ranked, 0, "world", explain, penalty);
    BucketHoldsCategory(ranked, 1, "opinion", explain, penalty);
    BucketHoldsCategory(ranked, 2, "experience", explain, penalty);
    BucketHoldsCategory(ranked, 3, "observation", explain, penalty);
  }

  /** `seen` holds the contents of the first `n` nodes. */
  ghost predicate HoldsContents(seen: set<string>, ranked: seq<RankedNode>, n: nat)
    requires n <= |ranked|
  {
    forall s :: s in seen <==> exists j: nat | j < n :: ranked[j].node.content == s
  }

  lemma SeenGrows(seen: set<string>, ranked: seq<RankedNode>, i: nat)
    requires i < |ranked| && HoldsContents(seen, ranked, i)
    ensures HoldsContents(seen + {ranked[i].node.content}, ranked, i + 1)
    ensures ranked[i].node.content in seen ==> seen + {ranked[i].node.content} == seen
  {
    forall s
      ensures s in seen + {ranked[i].node.content} <==> exists j: nat | j < i + 1 :: ranked[j].node.content == s
    {
      if s in seen {
        var j: nat :| j < i && ranked[j].node.content == s;
      }
    }
  }

  /** The next node gives a fact to the bucket of its category, unless its content has been seen. */
  lemma SeenDecides(seen: set<string>, ranked: seq<RankedNode>, i: nat, b: nat, explain: bool,
                    penalty: Score -> Score)
    requires i < |ranked| && HoldsContents(seen, ranked, i)
    ensures BucketFacts(ranked, i + 1, b, explain, penalty) ==
            if ranked[i].node.content in seen || BucketOf(ranked[i].node.category) != Some(b)
            then BucketFacts(ranked, i, b, explain, penalty)
            else BucketFacts(ranked, i, b, explain, penalty) + [FactOf(ranked[i], explain, penalty)]
  {
    BucketGrows(ranked, i, b, explain, penalty);
    assert IsFirst(ranked, i) <==> ranked[i].node.content !in seen;
  }

  method Bucketize(ranked: seq<RankedNode>, seeds: seq<Node>, explain: bool, penalty: Score -> Score)
    returns (result: RetrievalResult)
    ensures fresh(result) && result.seedNodes == seeds
    ensures forall b: nat | b < 4 :: result.Bucket(b) == BucketFacts(ranked, |ranked|, b, explain, penalty)
    ensures HoldsCategory(result.worldFacts, "world", ranked, explain, penalty)
    ensures HoldsCategory(result.opinions, "opinion", ranked, explain, penalty)
    ensures HoldsCategory(result.experiences, "experience", ranked, explain, penalty)
    ensures HoldsCategory(result.observations, "observation", ranked, explain, penalty)
  {
    result := new RetrievalResult();
    result.seedNodes := seeds;
    var seenContents: set<string> := {};
    assert forall b: nat | b < 4 :: BucketFacts(ranked, 0, b, explain, penalty) == [];
    for i := 0 to |ranked|
      invariant fresh(result) && result.seedNodes == seeds
      invariant HoldsContents(seenContents, ranked, i)
      invariant forall b: nat | b < 4 :: result.Bucket(b) == BucketFacts(ranked, i, b, explain, penalty)
    {
      var rn := ranked[i];
      forall b: nat | b < 4 {
        SeenDecides(seenContents, ranked, i, b, explain, penalty);
      }
      SeenGrows(seenContents, ranked, i);
      if rn.node.content in seenContents {
        continue;
      }
      seenContents := seenContents + {rn.node.content};
      var fact := FactOf(rn, explain, penalty);
      match BucketOf(rn.node.category)
      case None =>
      case Some(b) =>
        result.SetBucket(b, result.Bucket(b) + [fact]);
    }
    BucketsHoldCategories(ranked, explain, penalty);
    assert result.worldFacts == result.Bucket(0) && result.opinions == result.Bucket(1);
    assert result.experiences == result.Bucket(2) && result.observations == result.Bucket(3);
  }

  /** A bucket draws, in ranked order, on exactly the first nodes of their content that have its category. */
  lemma {:induction false} OriginsAreFirstNodes(ranked: seq<RankedNode>, n: nat, b: nat)
    requires n <= |ranked|
    ensures forall o: nat :: o in Origins(ranked, n, b) <==> o < n && Gives(ranked, o, b)
    ensures forall k, l | 0 <= k < l < |Origins(ranked, n, b)| :: Origins(ranked, n, b)[k] < Origins(ranked, n, b)[l]
  {
    if n > 0 {
      OriginsAreFirstNodes(ranked, n - 1, b);
      var rest, origins := Origins(ranked, n - 1, b), Origins(ranked, n, b);
      assert origins == if Gives(ranked, n - 1, b) then rest + [n - 1] else rest;
      forall o: nat
        ensures o in origins <==> o < n && Gives(ranked, o, b)
      {
        assert o in origins <==> o in rest || (o == n - 1 && Gives(ranked, n - 1, b));
      }
    }
  }

  /** No content stands twice, within one bucket or across two. */
  lemma BucketContentsAreDistinct(ranked: seq<RankedNode>, explain: bool, penalty: Score -> Score,
                                  b: nat, k: nat, c: nat, l: nat)
    requires k < |BucketFacts(ranked, |ranked|, b, explain, penalty)|
             && l < |BucketFacts(ranked, |ranked|, c, explain, penalty)|
    requires BucketFacts(ranked, |ranked|, b, explain, penalty)[k].content ==
             BucketFacts(ranked, |ranked|, c, explain, penalty)[l].content
    ensures b == c && k == l
  {
    OriginsAreFirstNodes(ranked, |ranked|, b);
    OriginsAreFirstNodes(ranked, |ranked|, c);
    var o, p := Origins(ranked, |ranked|, b)[k], Origins(ranked, |ranked|, c)[l];
    assert ranked[o].node.content == ranked[p].node.content;
    assert o in Origins(ranked, |ranked|, b) && p in Origins(ranked, |ranked|, c);
    assert IsFirst(ranked, o) && IsFirst(ranked, p);
    assert o == p;
  }

  /** The fact for a content comes from a node with that content that no other such node outranks. */
  lemma FactComesFromTopNode(ranked: seq<RankedNode>, explain: bool, penalty: Score -> Score, b: nat, k: nat)
    requires IsRanked(ranked) && k < |BucketFacts(ranked, |ranked|, b, explain, penalty)|
    ensures Origins(ranked, |ranked|, b)[k] < |ranked|
    ensures var o, fact := Origins(ranked, |ranked|, b)[k], BucketFacts(ranked, |ranked|, b, explain, penalty)[k];
            && fact == FactOf(ranked[o], explain, penalty) && BucketOf(ranked[o].node.category) == Some(b)
            && (forall j: nat | j < |ranked| && ranked[j].node.content == fact.content ::
                  o <= j && !ranked[j].score.Above(ranked[o].score))
    ensures forall l, p: nat | k < l < |Origins(ranked, |ranked|, b)| && p == Origins(ranked, |ranked|, b)[l] ::
              p < |ranked| && !ranked[p].score.Above(ranked[Origins(ranked, |ranked|, b)[k]].score)
  {
    OriginsAreFirstNodes(ranked, |ranked|, b);
    var origins := Origins(ranked, |ranked|, b);
    var o := origins[k];
    assert o in origins && IsFirst(ranked, o);
    forall j: nat | j < |ranked| && ranked[j].node.content == ranked[o].node.content
      ensures o <= j && !ranked[j].score.Above(ranked[o].score)
    {
      assert !(j < o);
    }
    forall l, p: nat | k < l < |origins| && p == origins[l]
      ensures p < |ranked| && !ranked[p].score.Above(ranked[o].score)
    {
      assert o < p;
    }
  }

  /** The first node with this content. */
  function FirstWith(ranked: seq<RankedNode>, content: string, n: nat): (i: nat)
    requires n <= |ranked|
    ensures i <= n && (i < n ==> ranked[i].node.content == content)
    ensures forall j: nat | j < i :: ranked[j].node.content != content
  {
    if n == 0 then 0
    else
      var i := FirstWith(ranked, content, n - 1);
      if i < n - 1 then i else if ranked[n - 1].node.content == content then n - 1 else n
  }

  ghost predicate InBucket(ranked: seq<RankedNode>, explain: bool, penalty: Score -> Score, content: string, b: nat) {
    exists k | 0 <= k < |BucketFacts(ranked, |ranked|, b, explain, penalty)| ::
      BucketFacts(ranked, |ranked|, b, explain, penalty)[k].content == content
  }

  /** A content is in a bucket exactly if the first node that has it is of the bucket's category. */
  lemma ContentIsKeptIff(ranked: seq<RankedNode>, explain: bool, penalty: Score -> Score, content: string, b: nat)
    ensures var i := FirstWith(ranked, content, |ranked|);
            InBucket(ranked, explain, penalty, content, b) <==>
            i < |ranked| && BucketOf(ranked[i].node.category) == Some(b)
  {
    OriginsAreFirstNodes(ranked, |ranked|, b);
    var i, origins := FirstWith(ranked, content, |ranked|), Origins(ranked, |ranked|, b);
    var facts := BucketFacts(ranked, |ranked|, b, explain, penalty);
    if InBucket(ranked, explain, penalty, content, b) {
      var k :| 0 <= k < |facts| && facts[k].content == content;
      assert origins[k] in origins && IsFirst(ranked, origins[k]);
      assert origins[k] == i;
    }
    if i < |ranked| && BucketOf(ranked[i].node.category) == Some(b) {
      assert IsFirst(ranked, i) && i in origins;
      var k :| 0 <= k < |origins| && origins[k] == i;
      assert facts[k].content == content;
    }
  }
}
