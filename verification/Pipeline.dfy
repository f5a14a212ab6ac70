/** The stages after the walk, one after another (src/internal/retrieval/walk.go). */
module Pipeline {
  import opened Common
  import opened RetrievalTypes
  import Ranking
  import Rerank
  import StableSort
  import TokenBudget

  function Contents(facts: seq<Fact>): (contents: seq<string>)
    ensures |contents| == |facts|
  {
    seq(|facts|, k requires 0 <= k < |facts| => facts[k].content)
  }

  function Buckets(result: RetrievalResult): (buckets: seq<seq<Fact>>)
    reads result
    ensures |buckets| == 4 && forall b: nat | b < 4 :: buckets[b] == result.Bucket(b)
  {
    [result.worldFacts, result.opinions, result.experiences, result.observations]
  }

  /** No content stands twice, in one bucket or in two. */
  ghost predicate AreApart(buckets: seq<seq<Fact>>) {
    && (forall b | 0 <= b < |buckets| :: NoDup(Contents(buckets[b])))
    && (forall b, c, s | 0 <= b < c < |buckets| && s in Contents(buckets[b]) :: s !in Contents(buckets[c]))
  }

  /** Every fact looks, apart from its explanation, like one of the facts it is taken from. */
  ghost predicate TakenFrom(facts: seq<Fact>, source: seq<Fact>) {
    forall f | f in facts :: ComesFrom(f, source)
  }

  ghost predicate ComesFrom(f: Fact, source: seq<Fact>) {
    exists g | g in source :: Rerank.ViewOf(g) == Rerank.ViewOf(f)
  }

  lemma TakenFromSelf(facts: seq<Fact>)
    ensures TakenFrom(facts, facts)
  {
    forall f | f in facts
      ensures ComesFrom(f, facts)
    {
      assert f in facts && Rerank.ViewOf(f) == Rerank.ViewOf(f);
    }
  }

  lemma PrefixIsTaken(part: seq<Fact>, whole: seq<Fact>, source: seq<Fact>)
    requires part <= whole && TakenFrom(whole, source)
    ensures TakenFrom(part, source)
  {
    assert forall f | f in part :: f in whole;
  }

  function BucketFacts(ranked: seq<Ranking.RankedNode>, b: nat, explain: bool, penalty: Score -> Score): seq<Fact> {
    Ranking.BucketFacts(ranked, |ranked|, b, explain, penalty)
  }

  lemma BucketizedAreApart(ranked: seq<Ranking.RankedNode>, explain: bool, penalty: Score -> Score,
                           buckets: seq<seq<Fact>>)
    requires |buckets| == 4 && forall b: nat | b < 4 :: buckets[b] == BucketFacts(ranked, b, explain, penalty)
    ensures AreApart(buckets)
  {
    forall b: nat, c: nat, k: nat, l: nat | b < 4 && c < 4 && k < |buckets[b]| && l < |buckets[c]|
                                               && buckets[b][k].content == buckets[c][l].content
      ensures b == c && k == l
    {
      Ranking.BucketContentsAreDistinct(ranked, explain, penalty, b, k, c, l);
    }
    forall b, c, s | 0 <= b < c < |buckets| && s in Contents(buckets[b])
      ensures s !in Contents(buckets[c])
    {
      var k :| 0 <= k < |buckets[b]| && Contents(buckets[b])[k] == s;
      assert buckets[b][k].content == s;
    }
  }

  lemma RerankedBucket(facts: seq<Fact>, reply: Option<seq<int>>)
    ensures multiset(Contents(Rerank.AfterRerank(facts, Rerank.OpenAI(reply)))) == multiset(Contents(facts))
    ensures TakenFrom(Rerank.AfterRerank(facts, Rerank.OpenAI(reply)), facts)
  {
    var after, p := Rerank.AfterRerank(facts, Rerank.OpenAI(reply)), Rerank.ReplyOrder(|facts|, reply);
    Rerank.ReplyOrderIsPermutation(|facts|, reply);
    Rerank.AfterIsSelected(facts, reply);
    Rerank.SelectedViews(facts, p);
    assert Rerank.Views(after) == Rerank.Select(Rerank.Views(facts), p);
    assert |after| == |Rerank.Views(after)| == |p|;
    forall k | 0 <= k < |after|
      ensures Rerank.ViewOf(after[k]) == Rerank.ViewOf(facts[p[k]])
    {
      assert Rerank.Views(after)[k] == Rerank.ViewOf(after[k]);
    }
    Rerank.PermutingKeepsElements(Contents(facts), p);
    assert Contents(after) == Rerank.Select(Contents(facts), p);
  }

  lemma PermutedAreApart(before: seq<seq<Fact>>, after: seq<seq<Fact>>)
    requires AreApart(before) && |after| == |before|
    requires forall b | 0 <= b < |before| :: multiset(Contents(after[b])) == multiset(Contents(before[b]))
    ensures AreApart(after)
  {
    forall b | 0 <= b < |before|
      ensures NoDup(Contents(after[b])) && ToSet(Contents(after[b])) == ToSet(Contents(before[b]))
    {
      SameElements(Contents(before[b]), Contents(after[b]));
    }
    forall b, c, s | 0 <= b < c < |after| && s in Contents(after[b])
      ensures s !in Contents(after[c])
    {
      assert s in ToSet(Contents(after[b])) && s in ToSet(Contents(before[b]));
      assert s in ToSet(Contents(after[c])) <==> s in ToSet(Contents(before[c]));
    }
  }

  lemma TrimmedAreApart(before: seq<seq<Fact>>, after: seq<seq<Fact>>)
    requires AreApart(before) && |after| == |before|
    requires forall b | 0 <= b < |before| :: after[b] <= before[b]
    ensures AreApart(after)
  {
    forall b | 0 <= b < |before|
      ensures Contents(after[b]) <= Contents(before[b])
    {
      assert forall k | 0 <= k < |after[b]| :: after[b][k] == before[b][k];
    }
    forall b, c, s | 0 <= b < c < |after| && s in Contents(after[b])
      ensures s !in Contents(after[c])
    {
      assert s in Contents(before[b]);
    }
  }

  /** The buckets before trimming: filled in ranked order, and reordered as the replies say. */
  function Ordered(ranked: seq<Ranking.RankedNode>, explain: bool, penalty: Score -> Score,
                   replies: Option<seq<Option<seq<int>>>>): (buckets: seq<seq<Fact>>)
    requires replies.Some? ==> |replies.value| == 4
    ensures |buckets| == 4
  {
    seq(4, b requires 0 <= b < 4 =>
      var facts := BucketFacts(ranked, b, explain, penalty);
      if replies.Some? then Rerank.AfterRerank(facts, Rerank.OpenAI(replies.value[b])) else facts)
  }

  /**
   Sort, fill the buckets, let the model reorder each of them if a reranker is configured, and trim.  Whatever the
   model replies, the result is the longest prefix of the reordered buckets that costs no more than the budget, no
   content stands twice, and every fact stands in the bucket of its node's category.
   */
  method Assemble(ranked: array<Ranking.RankedNode>, seeds: seq<Node>, explain: bool, penalty: Score -> Score,
                  replies: Option<seq<Option<seq<int>>>>, budget: int, tokens: string -> nat)
    returns (result: RetrievalResult)
    requires replies.Some? ==> |replies.value| == 4
    modifies ranked
    ensures fresh(result) && result.seedNodes == seeds
    ensures ranked[..] == StableSort.Sort(Ranking.ByScore, Ranking.Cleaned(old(ranked[..])))
    ensures var ordered := Ordered(ranked[..], explain, penalty, replies);
            IsLongestPrefix(Buckets(result), ordered, budget, tokens)
    ensures AreApart(Buckets(result))
    ensures forall b: nat | b < 4 :: TakenFrom(result.Bucket(b), BucketFacts(ranked[..], b, explain, penalty))
  {
    Ranking.SortByScoreDesc(ranked);
    result := Ranking.Bucketize(ranked[..], seeds, explain, penalty);
    ghost var filled, ordered := Buckets(result), Ordered(ranked[..], explain, penalty, replies);
    BucketizedAreApart(ranked[..], explain, penalty, filled);
    forall b: nat | b < 4 {
      TakenFromSelf(filled[b]);
    }
    if replies.Some? {
      RerankAll(result, replies.value);
    }
    assert Buckets(result) == ordered;
    Trim(result, budget, tokens);
    forall b: nat | b < 4 {
      PrefixIsTaken(result.Bucket(b), ordered[b], filled[b]);
    }
  }

  /** The reranking stage with `OpenAIReranker`. */
  method RerankAll(result: RetrievalResult, replies: seq<Option<seq<int>>>)
    requires |replies| == 4 && AreApart(Buckets(result))
    modifies result
    ensures result.seedNodes == old(result.seedNodes) && AreApart(Buckets(result))
    ensures forall b: nat | b < 4 ::
              result.Bucket(b) == Rerank.AfterRerank(old(result.Bucket(b)), Rerank.OpenAI(replies[b]))
    ensures forall b: nat | b < 4 :: TakenFrom(result.Bucket(b), old(result.Bucket(b)))
    ensures forall b: nat | b < 4 :: multiset(Contents(result.Bucket(b))) == multiset(Contents(old(result.Bucket(b))))
  {
    ghost var before := Buckets(result);
    var rerank := [Rerank.OpenAI(replies[0]), Rerank.OpenAI(replies[1]), Rerank.OpenAI(replies[2]),
                   Rerank.OpenAI(replies[3])];
    var failedAt := Rerank.ApplyReranker(result, rerank);
    forall b: nat | b < 4
      ensures result.Bucket(b) == Rerank.AfterRerank(before[b], Rerank.OpenAI(replies[b]))
    {
      assert rerank[b] == Rerank.OpenAI(replies[b]);
      assert failedAt.Some? ==> !Rerank.Fails(before[failedAt.value], Rerank.OpenAI(replies[failedAt.value]));
    }
    forall b: nat | b < 4 {
      RerankedBucket(before[b], replies[b]);
    }
    PermutedAreApart(before, Buckets(result));
  }

  /** `after` holds, by buckets, the longest prefix of all of `before` within the budget; 0 or less is no limit. */
  ghost predicate IsLongestPrefix(after: seq<seq<Fact>>, before: seq<seq<Fact>>, budget: int, tokens: string -> nat) {
    var all, kept := TokenBudget.From(before, 0), TokenBudget.From(after, 0);
    && |after| == |before| && (forall b | 0 <= b < |before| :: after[b] <= before[b])
    && kept <= all
    && if budget <= 0 then kept == all
       else forall n: nat | n <= |all| :: TokenBudget.TotalCost(tokens, all[..n]) <= budget <==> n <= |kept|
  }

  lemma PartsAreLongestPrefix(before: seq<seq<Fact>>, budget: int, tokens: string -> nat)
    ensures var kept := TokenBudget.KeptCount(tokens, TokenBudget.From(before, 0), budget);
            IsLongestPrefix(TokenBudget.Parts(before, kept), before, budget, tokens)
  {
    TokenBudget.TrimIsLongestPrefix(tokens, before, budget);
  }

  /** The trimming stage. */
  method Trim(result: RetrievalResult, budget: int, tokens: string -> nat)
    requires AreApart(Buckets(result))
    modifies result
    ensures result.seedNodes == old(result.seedNodes) && AreApart(Buckets(result))
    ensures IsLongestPrefix(Buckets(result), old(Buckets(result)), budget, tokens)
  {
    ghost var before := Buckets(result);
    ghost var kept := TokenBudget.KeptCount(tokens, result.Facts(), budget);
    TokenBudget.JoinedFrom(before);
    var _ := TokenBudget.TrimByTokenBudget(result, budget, tokens);
    ghost var after := Buckets(result);
    assert after == TokenBudget.Parts(before, kept);
    PartsAreLongestPrefix(before, budget, tokens);
    TrimmedAreApart(before, after);
  }
}
