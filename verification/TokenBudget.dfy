/** Trimming a result to a token budget (src/internal/retrieval/token_budget.go). */
module TokenBudget {
  import opened Common
  import opened RetrievalTypes

  /** The estimate for one fact: its words, and two for the bullet and the line break. */
  function Cost(tokens: string -> nat, f: Fact): nat {
    tokens(f.content) + 2
  }

  function TotalCost(tokens: string -> nat, facts: seq<Fact>): nat {
    if facts == [] then 0
    else TotalCost(tokens, facts[..|facts| - 1]) + Cost(tokens, facts[|facts| - 1])
  }

  /** The words of some facts. */
  function Words(tokens: string -> nat, facts: seq<Fact>): nat {
    if facts == [] then 0 else tokens(facts[0].content) + Words(tokens, facts[1..])
  }

  /** Facts cost their words, and two tokens each for the bullet and the line break. */
  lemma {:induction false} CostIsWordsAndBullets(tokens: string -> nat, facts: seq<Fact>)
    ensures TotalCost(tokens, facts) == Words(tokens, facts) + 2 * |facts|
  {
    if facts != [] {
      CostIsWordsAndBullets(tokens, facts[1..]);
      CostOfParts(tokens, [facts[0]], facts[1..]);
      assert [facts[0]] + facts[1..] == facts && [facts[0]][..0] == [];
    }
  }

  /** How many facts fit into the budget, from the start. */
  function Fit(tokens: string -> nat, facts: seq<Fact>, budget: int): (n: nat)
    ensures n <= |facts|
  {
    if facts == [] || Cost(tokens, facts[0]) > budget then 0
    else 1 + Fit(tokens, facts[1..], budget - Cost(tokens, facts[0]))
  }

  method EstimateFactsTokens(tokens: string -> nat, facts: seq<Fact>) returns (total: nat)
    ensures total == TotalCost(tokens, facts)
  {
    total := 0;
    for i := 0 to |facts|
      invariant total == TotalCost(tokens, facts[..i])
    {
      assert facts[..i + 1][..i] == facts[..i];
      total := total + tokens(facts[i].content) + 2;
    }
    assert facts[..|facts|] == facts;
  }

  method EstimateResultTokens(tokens: string -> nat, result: RetrievalResult) returns (total: nat)
    ensures total == TotalCost(tokens, result.Facts())
  {
    var world := EstimateFactsTokens(tokens, result.worldFacts);
    var opinions := EstimateFactsTokens(tokens, result.opinions);
    var experiences := EstimateFactsTokens(tokens, result.experiences);
    var observations := EstimateFactsTokens(tokens, result.observations);
    total := world + opinions + experiences + observations;
    CostOfParts(tokens, result.worldFacts, result.opinions);
    CostOfParts(tokens, result.worldFacts + result.opinions, result.experiences);
    CostOfParts(tokens, result.worldFacts + result.opinions + result.experiences, result.observations);
  }

  lemma {:induction false} CostOfParts(tokens: string -> nat, a: seq<Fact>, b: seq<Fact>)
    ensures TotalCost(tokens, a + b) == TotalCost(tokens, a) + TotalCost(tokens, b)
  {
    if b == [] {
      assert a + b == a;
    } else {
      assert (a + b)[..|a + b| - 1] == a + b[..|b| - 1];
      CostOfParts(tokens, a, b[..|b| - 1]);
    }
  }

  /** The facts of a list that fit are those of its first part, and of the second if all of the first fit. */
  lemma {:induction false} FitOfParts(tokens: string -> nat, a: seq<Fact>, b: seq<Fact>, budget: int)
    ensures Fit(tokens, a, budget) == |a| <==> TotalCost(tokens, a) <= budget || a == []
    ensures Fit(tokens, a + b, budget) ==
            if TotalCost(tokens, a) <= budget || a == [] then |a| + Fit(tokens, b, budget - TotalCost(tokens, a))
            else Fit(tokens, a, budget)
    decreases |a|
  {
    if a == [] {
      assert a + b == b;
    } else {
      assert (a + b)[1..] == a[1..] + b && a == [a[0]] + a[1..];
      CostOfParts(tokens, [a[0]], a[1..]);
      assert [a[0]][..0] == [];
      FitOfParts(tokens, a[1..], b, budget - Cost(tokens, a[0]));
    }
  }

  method TrimFactsToBudget(tokens: string -> nat, facts: seq<Fact>, budget: int) returns (r: seq<Fact>)
    ensures r == facts[..Fit(tokens, facts, budget)]
  {
    var used := 0;
    for i := 0 to |facts|
      invariant used == TotalCost(tokens, facts[..i])
      invariant Fit(tokens, facts, budget) == i + Fit(tokens, facts[i..], budget - used)
    {
      var cost := tokens(facts[i].content) + 2;
      assert facts[..i + 1][..i] == facts[..i];
      assert facts[i..][1..] == facts[i + 1..];
      if used + cost > budget {
        return facts[..i];
      }
      used := used + cost;
    }
    return facts;
  }

  /** The part that a prefix of `n` facts leaves of a bucket before which `offset` facts stand. */
  function PartOf(facts: seq<Fact>, offset: nat, n: nat): seq<Fact> {
    if n <= offset then [] else if n >= offset + |facts| then facts else facts[..n - offset]
  }

  /** The facts of the buckets from `b` on. */
  function From(buckets: seq<seq<Fact>>, b: nat): seq<Fact>
    requires b <= |buckets|
    decreases |buckets| - b
  {
    if b == |buckets| then [] else buckets[b] + From(buckets, b + 1)
  }

  /** The number of facts in the buckets before `b`. */
  function Offset(buckets: seq<seq<Fact>>, b: nat): nat
    requires b <= |buckets|
  {
    if b == 0 then 0 else Offset(buckets, b - 1) + |buckets[b - 1]|
  }

  /** How many facts a budget keeps; a budget of zero or less means no limit. */
  function KeptCount(tokens: string -> nat, facts: seq<Fact>, budget: int): (n: nat)
    ensures n <= |facts|
  {
    if budget <= 0 then |facts| else Fit(tokens, facts, budget)
  }

  /** What is left of the budget decides how many facts are kept in all. */
  ghost predicate OnTrack(tokens: string -> nat, buckets: seq<seq<Fact>>, b: nat, remaining: int, kept: nat)
    requires b <= |buckets|
  {
    || kept == Offset(buckets, b) + Fit(tokens, From(buckets, b), remaining)
    || (remaining <= 0 && kept <= Offset(buckets, b))
  }

  lemma SpentKeepsNothing(tokens: string -> nat, buckets: seq<seq<Fact>>, b: nat, remaining: int, kept: nat)
    requires b < |buckets| && OnTrack(tokens, buckets, b, remaining, kept) && remaining <= 0
    ensures OnTrack(tokens, buckets, b + 1, remaining, kept)
    ensures PartOf(buckets[b], Offset(buckets, b), kept) == []
  {
    assert Offset(buckets, b + 1) == Offset(buckets, b) + |buckets[b]|;
  }

  lemma FittingIsKept(tokens: string -> nat, buckets: seq<seq<Fact>>, b: nat, remaining: int, kept: nat)
    requires b < |buckets| && OnTrack(tokens, buckets, b, remaining, kept)
    requires 0 < remaining && TotalCost(tokens, buckets[b]) <= remaining
    ensures OnTrack(tokens, buckets, b + 1, remaining - TotalCost(tokens, buckets[b]), kept)
    ensures PartOf(buckets[b], Offset(buckets, b), kept) == buckets[b]
  {
    assert From(buckets, b) == buckets[b] + From(buckets, b + 1);
    assert Offset(buckets, b + 1) == Offset(buckets, b) + |buckets[b]|;
    FitOfParts(tokens, buckets[b], From(buckets, b + 1), remaining);
  }

  lemma OverflowIsCut(tokens: string -> nat, buckets: seq<seq<Fact>>, b: nat, remaining: int, kept: nat)
    requires b < |buckets| && OnTrack(tokens, buckets, b, remaining, kept)
    requires 0 < remaining < TotalCost(tokens, buckets[b])
    ensures OnTrack(tokens, buckets, b + 1, 0, kept)
    ensures PartOf(buckets[b], Offset(buckets, b), kept) == buckets[b][..Fit(tokens, buckets[b], remaining)]
  {
    assert From(buckets, b) == buckets[b] + From(buckets, b + 1);
    assert Offset(buckets, b + 1) == Offset(buckets, b) + |buckets[b]|;
    FitOfParts(tokens, buckets[b], From(buckets, b + 1), remaining);
  }

  /** The buckets before `b` are trimmed, the others are as they were. */
  ghost predicate TrimmedTo(result: RetrievalResult, buckets: seq<seq<Fact>>, b: nat, kept: nat)
    requires |buckets| == 4
    reads result
  {
    forall c: nat | c < 4 ::
      result.Bucket(c) == if c < b then PartOf(buckets[c], Offset(buckets, c), kept) else buckets[c]
  }

  method TrimBucket(result: RetrievalResult, b: nat, remaining: int, tokens: string -> nat,
                    ghost buckets: seq<seq<Fact>>, ghost kept: nat)
    returns (left: int)
    requires b < |buckets| == 4 && OnTrack(tokens, buckets, b, remaining, kept) && TrimmedTo(result, buckets, b, kept)
    modifies result
    ensures OnTrack(tokens, buckets, b + 1, left, kept) && TrimmedTo(result, buckets, b + 1, kept)
    ensures result.seedNodes == old(result.seedNodes)
  {
    left := remaining;
    if remaining <= 0 {
      SpentKeepsNothing(tokens, buckets, b, remaining, kept);
      result.SetBucket(b, []);
    } else {
      var bucketTokens := EstimateFactsTokens(tokens, result.Bucket(b));
      if bucketTokens <= remaining {
        FittingIsKept(tokens, buckets, b, remaining, kept);
        left := remaining - bucketTokens;
      } else {
        OverflowIsCut(tokens, buckets, b, remaining, kept);
        var trimmed := TrimFactsToBudget(tokens, result.Bucket(b), remaining);
        result.SetBucket(b, trimmed);
        left := 0;
      }
    }
  }

  method TrimByTokenBudget(result: RetrievalResult?, budget: int, tokens: string -> nat) returns (r: RetrievalResult?)
    modifies if result == null then {} else {result}
    ensures r == result
    ensures result != null ==>
              var kept := KeptCount(tokens, old(result.Facts()), budget);
              var buckets := old([result.worldFacts, result.opinions, result.experiences, result.observations]);
              && result.seedNodes == old(result.seedNodes)
              && forall b: nat | b < 4 :: result.Bucket(b) == PartOf(buckets[b], Offset(buckets, b), kept)
  {
    r := result;
    if result == null {
      return;
    }
    ghost var all := result.Facts();
    ghost var buckets := [result.worldFacts, result.opinions, result.experiences, result.observations];
    WholeIsKept(buckets, all);
    if budget <= 0 {
      return;
    }
    var used := EstimateResultTokens(tokens, result);
    assert all + [] == all;
    FitOfParts(tokens, all, [], budget);
    if used <= budget {
      return;
    }
    ghost var kept := Fit(tokens, all, budget);
    var remaining := budget;
    for b: nat := 0 to 4
      invariant result.seedNodes == old(result.seedNodes)
      invariant TrimmedTo(result, buckets, b, kept)
      invariant OnTrack(tokens, buckets, b, remaining, kept)
    {
      remaining := TrimBucket(result, b, remaining, tokens, buckets, kept);
    }
  }

  lemma {:induction false} JoinedFrom(buckets: seq<seq<Fact>>)
    requires |buckets| == 4
    ensures From(buckets, 0) == buckets[0] + buckets[1] + buckets[2] + buckets[3]
  {
    assert From(buckets, 3) == buckets[3] + From(buckets, 4) == buckets[3];
    assert From(buckets, 2) == buckets[2] + buckets[3];
    assert From(buckets, 1) == buckets[1] + (buckets[2] + buckets[3]);
    assert From(buckets, 0) == buckets[0] + (buckets[1] + (buckets[2] + buckets[3]));
  }

  lemma {:induction false} OffsetGrows(buckets: seq<seq<Fact>>, b: nat)
    requires b <= |buckets|
    ensures Offset(buckets, b) + |From(buckets, b)| == |From(buckets, 0)|
  {
    if b > 0 {
      OffsetGrows(buckets, b - 1);
    }
  }

  lemma WholeIsKept(buckets: seq<seq<Fact>>, all: seq<Fact>)
    requires |buckets| == 4 && all == buckets[0] + buckets[1] + buckets[2] + buckets[3]
    ensures From(buckets, 0) == all && Offset(buckets, 4) == |all|
    ensures forall b: nat | b < 4 :: PartOf(buckets[b], Offset(buckets, b), |all|) == buckets[b]
  {
    JoinedFrom(buckets);
    OffsetGrows(buckets, 4);
    forall b: nat | b < 4
      ensures PartOf(buckets[b], Offset(buckets, b), |all|) == buckets[b]
    {
      OffsetGrows(buckets, b);
    }
  }

  // ---------------------------------------------------------------- what a prefix that fits is

  lemma PrefixCost(tokens: string -> nat, facts: seq<Fact>, n: nat)
    requires n < |facts|
    ensures TotalCost(tokens, facts[..n + 1]) == Cost(tokens, facts[0]) + TotalCost(tokens, facts[1..][..n])
  {
    assert facts[..n + 1] == [facts[0]] + facts[1..][..n];
    CostOfParts(tokens, [facts[0]], facts[1..][..n]);
    assert [facts[0]][..0] == [];
  }

  ghost predicate IsLongest(tokens: string -> nat, facts: seq<Fact>, budget: int, n: nat)
    requires n <= |facts|
  {
    TotalCost(tokens, facts[..n]) <= budget && (n < |facts| ==> TotalCost(tokens, facts[..n + 1]) > budget)
  }

  lemma LongestGrows(tokens: string -> nat, facts: seq<Fact>, budget: int, n: nat)
    requires facts != [] && n <= |facts| - 1
    ensures IsLongest(tokens, facts[1..], budget - Cost(tokens, facts[0]), n) <==>
            IsLongest(tokens, facts, budget, n + 1)
  {
    PrefixCost(tokens, facts, n);
    if n < |facts| - 1 {
      PrefixCost(tokens, facts, n + 1);
    }
  }

  /** The kept facts cost no more than the budget, and the next one would not have fitted. */
  lemma {:induction false} FitIsLongestPrefix(tokens: string -> nat, facts: seq<Fact>, budget: int)
    requires budget >= 0
    ensures IsLongest(tokens, facts, budget, Fit(tokens, facts, budget))
    decreases |facts|
  {
    if facts != [] {
      var left := budget - Cost(tokens, facts[0]);
      if left >= 0 {
        FitIsLongestPrefix(tokens, facts[1..], left);
        LongestGrows(tokens, facts, budget, Fit(tokens, facts[1..], left));
      } else {
        PrefixCost(tokens, facts, 0);
      }
    }
  }

  /** The parts of a prefix, put together again, are the prefix. */
  lemma {:induction false} PartsMakePrefix(buckets: seq<seq<Fact>>, b: nat, n: nat)
    requires b <= |buckets| && n <= Offset(buckets, b) + |From(buckets, b)|
    ensures From(Parts(buckets, n), b) == PartOf(From(buckets, b), Offset(buckets, b), n)
    decreases |buckets| - b
  {
    if b < |buckets| {
      PartsMakePrefix(buckets, b + 1, n);
      assert Parts(buckets, n)[b] == PartOf(buckets[b], Offset(buckets, b), n);
    }
  }

  function Parts(buckets: seq<seq<Fact>>, n: nat): (parts: seq<seq<Fact>>)
    ensures |parts| == |buckets|
  {
    seq(|buckets|, b requires 0 <= b < |buckets| => PartOf(buckets[b], Offset(buckets, b), n))
  }

  /** A prefix costs no more than a longer one. */
  lemma PrefixCostsLess(tokens: string -> nat, facts: seq<Fact>, m: nat, n: nat)
    requires m <= n <= |facts|
    ensures TotalCost(tokens, facts[..m]) <= TotalCost(tokens, facts[..n])
  {
    assert facts[..n] == facts[..m] + facts[m..n];
    CostOfParts(tokens, facts[..m], facts[m..n]);
  }

  /** What the trim leaves, bucket after bucket, is the longest prefix of all facts that fits the budget. */
  lemma TrimIsLongestPrefix(tokens: string -> nat, buckets: seq<seq<Fact>>, budget: int)
    ensures var all := From(buckets, 0);
            var n := KeptCount(tokens, all, budget);
            && From(Parts(buckets, n), 0) == all[..n]
            && (budget <= 0 ==> n == |all|)
            && (budget > 0 ==> forall m: nat | m <= |all| :: TotalCost(tokens, all[..m]) <= budget <==> m <= n)
  {
    var all := From(buckets, 0);
    var n := KeptCount(tokens, all, budget);
    PartsMakePrefix(buckets, 0, n);
    if budget > 0 {
      FitIsLongestPrefix(tokens, all, budget);
      forall m: nat | m <= |all|
        ensures TotalCost(tokens, all[..m]) <= budget <==> m <= n
      {
        if m <= n {
          PrefixCostsLess(tokens, all, m, n);
        } else {
          PrefixCostsLess(tokens, all, n + 1, m);
        }
      }
    }
  }
}
