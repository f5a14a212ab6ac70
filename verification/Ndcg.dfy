/**
 Normalised discounted cumulative gain (src/internal/evaluation/ndcg.go).  Scores are
 reals and the discount 1 / log2(i + 2) is any positive function that never increases.
 */
module Ndcg {
  import opened Common

  type Doc = string

  datatype Judged = Judged(qrels: map<Id, seq<Doc>>, results: map<Id, seq<Doc>>, k: int, discount: nat -> real)

  ghost predicate IsDiscount(d: nat -> real) {
    (forall i :: d(i) > 0.0) && (forall i, j | i <= j :: d(i) >= d(j))
  }

  /** The results of a query that count: the first `k`. */
  function Top(j: Judged, q: Id): seq<Doc> {
    var rets := if q in j.results then j.results[q] else [];
    if 0 <= j.k < |rets| then rets[..j.k] else rets
  }

  function Gain(rel: set<Doc>, rets: seq<Doc>, d: nat -> real): real {
    if rets == [] then 0.0
    else
      var last := |rets| - 1;
      Gain(rel, rets[..last], d) + if rets[last] in rel then d(last) else 0.0
  }

  /** The gain of `n` relevant documents in a row. */
  function Ideal(n: nat, d: nat -> real): real {
    if n == 0 then 0.0 else Ideal(n - 1, d) + d(n - 1)
  }

  function IdealCount(j: Judged, q: Id): nat
    requires q in j.qrels && j.k > 0
  {
    if |j.qrels[q]| > j.k then j.k else |j.qrels[q]|
  }

  predicate Scored(j: Judged, q: Id)
    requires j.k > 0
  {
    q in j.qrels && |j.qrels[q]| > 0 && Ideal(IdealCount(j, q), j.discount) > 0.0
  }

  function Ratio(j: Judged, q: Id): real
    requires j.k > 0 && Scored(j, q)
  {
    Gain(ToSet(j.qrels[q]), Top(j, q), j.discount) / Ideal(IdealCount(j, q), j.discount)
  }

  function ScoredQueries(j: Judged): set<Id>
    requires j.k > 0
  {
    set q | q in j.qrels && Scored(j, q)
  }

  ghost function Total(j: Judged, queries: set<Id>): real
    requires j.k > 0 && forall q | q in queries :: Scored(j, q)
  {
    if queries == {} then 0.0
    else
      var q :| q in queries;
      Ratio(j, q) + Total(j, queries - {q})
  }

  /** Any query may be taken out first. */
  lemma {:induction false} TotalWithout(j: Judged, queries: set<Id>, q: Id)
    requires j.k > 0 && (forall p | p in queries :: Scored(j, p)) && q in queries
    ensures Total(j, queries) == Ratio(j, q) + Total(j, queries - {q})
  {
    var p :| p in queries && Total(j, queries) == Ratio(j, p) + Total(j, queries - {p});
    if p != q {
      TotalWithout(j, queries - {p}, q);
      TotalWithout(j, queries - {q}, p);
      assert queries - {p} - {q} == queries - {q} - {p};
    }
  }

  /** The mean ratio over the scored queries. */
  ghost function Mean(j: Judged): real {
    if j.k <= 0 || ScoredQueries(j) == {} then 0.0
    else Total(j, ScoredQueries(j)) / |ScoredQueries(j)| as real
  }

  method Discounted(rel: set<Doc>, rets: seq<Doc>, d: nat -> real) returns (dcg: real)
    ensures dcg == Gain(rel, rets, d)
  {
    dcg := 0.0;
    for i := 0 to |rets|
      invariant dcg == Gain(rel, rets[..i], d)
    {
      assert rets[..i + 1][..i] == rets[..i];
      if rets[i] in rel {
        dcg := dcg + d(i);
      }
    }
    assert rets[..|rets|] == rets;
  }

  method IdealDiscounted(n: nat, d: nat -> real) returns (idcg: real)
    ensures idcg == Ideal(n, d)
  {
    idcg := 0.0;
    for i := 0 to n
      invariant idcg == Ideal(i, d)
    {
      idcg := idcg + d(i);
    }
  }

  method NDCG(j: Judged) returns (score: real)
    ensures score == Mean(j)
  {
    if |j.qrels| == 0 || j.k <= 0 {
      return 0.0;
    }
    var sum, queried := 0.0, 0;
    var todo := j.qrels.Keys;
    ghost var done: set<Id> := {};
    while todo != {}
      invariant todo <= j.qrels.Keys && done !! todo
      invariant done == (set q | q in j.qrels && q !in todo && Scored(j, q))
      invariant sum == Total(j, done) && queried == |done|
      decreases todo
    {
      var qid :| qid in todo;
      todo := todo - {qid};
      var rel := j.qrels[qid];
      if |rel| == 0 {
        assert done == (set q | q in j.qrels && q !in todo && Scored(j, q));
        continue;
      }
      var relSet := ToSet(rel);
      var rets := Top(j, qid);
      var dcg := Discounted(relSet, rets, j.discount);
      var idcg := IdealDiscounted(IdealCount(j, qid), j.discount);
      if idcg > 0.0 {
        ghost var grown := done + {qid};
        assert grown - {qid} == done;
        TotalWithout(j, grown, qid);
        sum := sum + dcg / idcg;
        queried := queried + 1;
        done := grown;
      }
      assert done == (set q | q in j.qrels && q !in todo && Scored(j, q));
    }
    assert done == ScoredQueries(j);
    if queried == 0 {
      return 0.0;
    }
    return sum / queried as real;
  }

  // ---------------------------------------------------------------- rearrangement

  function Hits(rel: set<Doc>, rets: seq<Doc>): nat {
    if rets == [] then 0
    else Hits(rel, rets[..|rets| - 1]) + if rets[|rets| - 1] in rel then 1 else 0
  }

  /** Moving the hits to the front gains at least as much. */
  lemma {:induction false} HitsGainAtMostIdeal(rel: set<Doc>, rets: seq<Doc>, d: nat -> real)
    requires IsDiscount(d)
    ensures Hits(rel, rets) <= |rets|
    ensures 0.0 <= Gain(rel, rets, d) <= Ideal(Hits(rel, rets), d)
  {
    if rets != [] {
      HitsGainAtMostIdeal(rel, rets[..|rets| - 1], d);
    }
  }

  lemma {:induction false} IdealGrows(m: nat, n: nat, d: nat -> real)
    requires IsDiscount(d) && m <= n
    ensures Ideal(m, d) <= Ideal(n, d) && (n > 0 ==> Ideal(n, d) > 0.0)
  {
    if m < n {
      IdealGrows(m, n - 1, d);
    } else if n > 0 {
      IdealGrows(n - 1, n - 1, d);
    }
  }

  /** Without repetitions there are no more hits than relevant documents. */
  lemma {:induction false} HitsAreDistinct(rel: set<Doc>, rets: seq<Doc>)
    requires NoDup(rets)
    ensures Hits(rel, rets) == |ToSet(rets) * rel|
  {
    if rets != [] {
      var init, last := rets[..|rets| - 1], rets[|rets| - 1];
      HitsAreDistinct(rel, init);
      var before, after := ToSet(init) * rel, ToSet(rets) * rel;
      assert last !in init && forall doc :: doc in rets <==> doc in init || doc == last;
      if last in rel {
        assert after == before + {last};
      } else {
        assert after == before;
      }
    }
  }

  lemma {:induction false} SetOfListIsNoLonger<T>(s: seq<T>)
    ensures |ToSet(s)| <= |s|
  {
    if s != [] {
      SetOfListIsNoLonger(s[..|s| - 1]);
      assert ToSet(s) == ToSet(s[..|s| - 1]) + {s[|s| - 1]};
    }
  }

  /** No more of the top `k` are relevant than the ideal ranking counts. */
  predicate HitsFit(j: Judged, q: Id)
    requires q in j.qrels && j.k > 0
  {
    Hits(ToSet(j.qrels[q]), Top(j, q)) <= IdealCount(j, q)
  }

  /** A document ranked twice does no harm unless it is relevant: without repetitions the hits fit. */
  lemma DistinctHitsFit(j: Judged, q: Id)
    requires q in j.qrels && j.k > 0 && NoDup(Top(j, q))
    ensures HitsFit(j, q)
  {
    var rel, rets := ToSet(j.qrels[q]), Top(j, q);
    HitsAreDistinct(rel, rets);
    SubsetSize(ToSet(rets) * rel, rel);
    SetOfListIsNoLonger(j.qrels[q]);
    HitsAtMostLength(rel, rets);
  }

  lemma {:induction false} HitsAtMostLength(rel: set<Doc>, rets: seq<Doc>)
    ensures Hits(rel, rets) <= |rets|
  {
    if rets != [] {
      HitsAtMostLength(rel, rets[..|rets| - 1]);
    }
  }

  ghost function Flat(): nat -> real {
    i => 1.0
  }

  lemma {:induction false} FlatGainCountsHits(rel: set<Doc>, rets: seq<Doc>)
    ensures Gain(rel, rets, Flat()) == Hits(rel, rets) as real
  {
    if rets != [] {
      FlatGainCountsHits(rel, rets[..|rets| - 1]);
    }
  }

  lemma {:induction false} FlatIdealCounts(n: nat)
    ensures Ideal(n, Flat()) == n as real
  {
    if n > 0 {
      FlatIdealCounts(n - 1);
    }
  }

  /** A ranking gains at most the ideal under every discount exactly if it has no more hits than the ideal counts. */
  lemma GainIsBoundedIffHitsFit(rel: set<Doc>, rets: seq<Doc>, n: nat)
    ensures (forall d | IsDiscount(d) :: Gain(rel, rets, d) <= Ideal(n, d)) <==> Hits(rel, rets) <= n
  {
    if Hits(rel, rets) <= n {
      forall d | IsDiscount(d)
        ensures Gain(rel, rets, d) <= Ideal(n, d)
      {
        HitsGainAtMostIdeal(rel, rets, d);
        IdealGrows(Hits(rel, rets), n, d);
      }
    }
    FlatGainCountsHits(rel, rets);
    FlatIdealCounts(n);
    assert IsDiscount(Flat());
  }

  lemma RatioInUnitInterval(j: Judged, q: Id)
    requires j.k > 0 && IsDiscount(j.discount) && Scored(j, q) && HitsFit(j, q)
    ensures 0.0 <= Ratio(j, q) <= 1.0
  {
    var rel, rets := ToSet(j.qrels[q]), Top(j, q);
    HitsGainAtMostIdeal(rel, rets, j.discount);
    IdealGrows(Hits(rel, rets), IdealCount(j, q), j.discount);
    QuotientInUnit(Gain(rel, rets, j.discount), Ideal(IdealCount(j, q), j.discount));
  }

  lemma QuotientInUnit(x: real, y: real)
    requires 0.0 <= x <= y && y > 0.0
    ensures 0.0 <= x / y <= 1.0
  {
  }

  lemma {:induction false} TotalBounded(j: Judged, queries: set<Id>)
    requires j.k > 0 && IsDiscount(j.discount)
    requires forall q | q in queries :: Scored(j, q) && HitsFit(j, q)
    ensures 0.0 <= Total(j, queries) <= |queries| as real
  {
    if queries != {} {
      var q :| q in queries;
      TotalWithout(j, queries, q);
      RatioInUnitInterval(j, q);
      TotalBounded(j, queries - {q});
    }
  }

  /** If the hits of every query fit, the score lies between 0 and 1. */
  lemma ScoreInUnitInterval(j: Judged)
    requires IsDiscount(j.discount) && (j.k > 0 ==> forall q | q in j.qrels :: HitsFit(j, q))
    ensures 0.0 <= Mean(j) <= 1.0
  {
    if j.k > 0 && ScoredQueries(j) != {} {
      TotalBounded(j, ScoredQueries(j));
      QuotientInUnit(Total(j, ScoredQueries(j)), |ScoredQueries(j)| as real);
    }
  }

  /** The same judgments and rankings, for some of the queries and under another discount. */
  function Restricted(j: Judged, queries: set<Id>, d: nat -> real): Judged {
    j.(qrels := map q | q in j.qrels && q in queries :: j.qrels[q], discount := d)
  }

  /** A query with too many hits, scored alone and without discounting, scores above 1. */
  lemma ExcessHitsBeatIdeal(j: Judged, q: Id)
    requires j.k > 0 && q in j.qrels && |j.qrels[q]| > 0 && !HitsFit(j, q)
    ensures Mean(Restricted(j, {q}, Flat())) > 1.0
  {
    var alone := Restricted(j, {q}, Flat());
    FlatGainCountsHits(ToSet(j.qrels[q]), Top(j, q));
    FlatIdealCounts(IdealCount(j, q));
    assert alone.qrels[q] == j.qrels[q] && Top(alone, q) == Top(j, q) && IdealCount(alone, q) == IdealCount(j, q) > 0;
    assert Scored(alone, q);
    assert ScoredQueries(alone) == {q};
    TotalWithout(alone, {q}, q);
    assert {q} - {q} == {};
    LargerQuotient(Hits(ToSet(j.qrels[q]), Top(j, q)) as real, IdealCount(j, q) as real);
  }

  /**
   Rankings score between 0 and 1 under every discount and for every choice of queries
   exactly if no query with a relevant document has more hits than its ideal ranking counts.
   */
  lemma ScoresAreBoundedIffHitsFit(j: Judged)
    requires j.k > 0
    ensures (forall queries: set<Id>, d | IsDiscount(d) :: 0.0 <= Mean(Restricted(j, queries, d)) <= 1.0) <==>
            (forall q | q in j.qrels && |j.qrels[q]| > 0 :: HitsFit(j, q))
  {
    if forall q | q in j.qrels && |j.qrels[q]| > 0 :: HitsFit(j, q) {
      forall queries: set<Id>, d | IsDiscount(d)
        ensures 0.0 <= Mean(Restricted(j, queries, d)) <= 1.0
      {
        RestrictedFits(j, queries, d);
        ScoreInUnitInterval(Restricted(j, queries, d));
      }
    } else {
      var q :| q in j.qrels && |j.qrels[q]| > 0 && !HitsFit(j, q);
      ExcessHitsBeatIdeal(j, q);
      assert IsDiscount(Flat());
    }
  }

  lemma RestrictedFits(j: Judged, queries: set<Id>, d: nat -> real)
    requires j.k > 0 && forall q | q in j.qrels && |j.qrels[q]| > 0 :: HitsFit(j, q)
    ensures forall q | q in Restricted(j, queries, d).qrels :: HitsFit(Restricted(j, queries, d), q)
  {
    var r := Restricted(j, queries, d);
    forall q | q in r.qrels
      ensures HitsFit(r, q)
    {
      assert r.qrels[q] == j.qrels[q] && Top(r, q) == Top(j, q) && IdealCount(r, q) == IdealCount(j, q);
      if |j.qrels[q]| == 0 {
        NothingRelevant(Top(r, q));
      }
    }
  }

  lemma {:induction false} NothingRelevant(rets: seq<Doc>)
    ensures Hits(ToSet([]), rets) == 0
  {
    if rets != [] {
      NothingRelevant(rets[..|rets| - 1]);
    }
  }

  /** A relevant document ranked twice counts twice: the score can exceed 1. */
  lemma RepetitionBeatsIdeal(doc: Doc, d: nat -> real)
    requires IsDiscount(d)
    ensures Mean(Judged(map["q" := [doc]], map["q" := [doc, doc]], 2, d)) > 1.0
  {
    var j := Judged(map["q" := [doc]], map["q" := [doc, doc]], 2, d);
    assert Ideal(1, d) == d(0);
    assert [doc, doc][..1] == [doc] && [doc][..0] == [];
    assert Gain({doc}, [doc], d) == d(0);
    assert ToSet([doc]) == {doc};
    assert Gain({doc}, [doc, doc], d) == d(0) + d(1);
    assert Scored(j, "q");
    assert ScoredQueries(j) == {"q"};
    TotalWithout(j, {"q"}, "q");
    assert {"q"} - {"q"} == {};
    LargerQuotient(d(0) + d(1), d(0));
  }

  lemma LargerQuotient(x: real, y: real)
    requires x > y > 0.0
    ensures x / y > 1.0
  {
    var r := x / y;
    assert r * y == x;
    AtMostOneTimes(r, y);
  }

  lemma AtMostOneTimes(r: real, y: real)
    requires y > 0.0
    ensures r <= 1.0 ==> r * y <= y
  {
  }

  // ---------------------------------------------------------------- the perfect retriever

  lemma {:induction false} AllHitsGainIdeal(rel: set<Doc>, rets: seq<Doc>, d: nat -> real)
    requires forall doc | doc in rets :: doc in rel
    ensures Gain(rel, rets, d) == Ideal(|rets|, d)
  {
    if rets != [] {
      AllHitsGainIdeal(rel, rets[..|rets| - 1], d);
    }
  }

  lemma QuotientOfSelf(x: real)
    requires x > 0.0
    ensures x / x == 1.0
  {
  }

  lemma RatioOfPerfect(j: Judged, q: Id)
    requires j.k > 0 && Scored(j, q) && q in j.results && j.results[q] == j.qrels[q]
    ensures Ratio(j, q) == 1.0
  {
    AllHitsGainIdeal(ToSet(j.qrels[q]), Top(j, q), j.discount);
    QuotientOfSelf(Ideal(IdealCount(j, q), j.discount));
  }

  lemma {:induction false} TotalOfPerfect(j: Judged, queries: set<Id>)
    requires j.k > 0 && (forall q | q in queries :: Scored(j, q) && q in j.results && j.results[q] == j.qrels[q])
    ensures Total(j, queries) == |queries| as real
  {
    if queries != {} {
      var q :| q in queries;
      TotalWithout(j, queries, q);
      RatioOfPerfect(j, q);
      TotalOfPerfect(j, queries - {q});
    }
  }

  /** Returning the relevance lists themselves scores exactly 1 as soon as some query has a relevant document. */
  lemma PerfectRetrieverScoresOne(j: Judged, q: Id)
    requires j.k > 0 && IsDiscount(j.discount) && j.results == j.qrels
    requires q in j.qrels && |j.qrels[q]| > 0
    ensures Mean(j) == 1.0
  {
    IdealGrows(0, IdealCount(j, q), j.discount);
    var scored := ScoredQueries(j);
    assert q in scored;
    TotalOfPerfect(j, scored);
    QuotientOfSelf(|scored| as real);
  }
}
