/** Reranking the buckets (src/internal/retrieval/walk.go, src/internal/ai/reranker.go). */
module Rerank {
  import opened Common
  import opened RetrievalTypes

  const ZERO := Finite(0.0)

  datatype Candidate = Candidate(id: Id, text: string, score: Score, metadata: map<string, string>)

  // ---------------------------------------------------------------- facts and candidates

  /** `strconv.Itoa`. */
  function Itoa(n: Int64): string {
    var i: int := n;
    if i < 0 then "-" + Decimal(-i) else Decimal(i)
  }

  /** The value `strconv.Atoi` returns, its error ignored: zero for no numeral, the nearest int64 out of range. */
  function Atoi(s: string): Int64 {
    var signed := s != [] && (s[0] == '-' || s[0] == '+');
    match ParseDecimal(if signed then s[1..] else s)
    case Err => 0
    case Ok(n) =>
      var i: int := if signed && s[0] == '-' then 0 - n else n;
      if i < -0x8000_0000_0000_0000 then -0x8000_0000_0000_0000
      else if i > 0x7fff_ffff_ffff_ffff then 0x7fff_ffff_ffff_ffff
      else i
  }

  lemma {:induction false} DecimalStartsWithDigit(n: nat)
    ensures Decimal(n) != [] && '0' <= Decimal(n)[0] <= '9'
  {
    if n >= 10 {
      DecimalStartsWithDigit(n / 10);
    }
  }

  lemma AtoiOfNumeral(s: string, n: nat)
    requires s != [] && '0' <= s[0] <= '9' && ParseDecimal(s) == Ok(n)
    ensures n <= 0x7fff_ffff_ffff_ffff ==> Atoi(s) == n
    ensures n <= 0x8000_0000_0000_0000 ==> Atoi("-" + s) == 0 - n
  {
    assert ("-" + s)[1..] == s;
  }

  lemma AtoiOfItoa(n: Int64)
    ensures Atoi(Itoa(n)) == n
  {
    var i: int := n;
    var size: nat := if i < 0 then -i else i;
    ParseOfDecimal(size);
    DecimalStartsWithDigit(size);
    AtoiOfNumeral(Decimal(size), size);
  }

  function FactToCandidate(fact: Fact): (c: Candidate)
    ensures c.text == fact.content && c.id == fact.parentId && c.score == fact.rankingScore
  {
    Candidate(fact.parentId, fact.content, fact.rankingScore,
              map["relation_type" := fact.relation, "depth" := Itoa(fact.depth)])
  }

  /** Go's read of a missing key gives the empty string. */
  function Lookup(m: map<string, string>, key: string): string {
    if key in m then m[key] else ""
  }

  function CandidateToFact(c: Candidate): Fact {
    Fact(c.text, c.id, Lookup(c.metadata, "relation_type"), Atoi(Lookup(c.metadata, "depth")), c.score,
         ZERO, ZERO, ZERO, None)
  }

  /** What a caller sees of a fact apart from its explanation. */
  datatype View = View(content: string, parentId: Id, relation: string, depth: int, rankingScore: Score)

  function ViewOf(f: Fact): View {
    View(f.content, f.parentId, f.relation, f.depth, f.rankingScore)
  }

  /** The three scalars and the breakdown of the explain path, which a candidate cannot carry. */
  predicate Unexplained(f: Fact) {
    f.vectorScore == ZERO && f.recencyScore == ZERO && f.depthPenalty == ZERO && f.breakdown == None
  }

  /** The view survives the trip through a candidate; the whole fact does exactly if it carries no explanation. */
  lemma CandidateRoundTrip(f: Fact)
    ensures ViewOf(CandidateToFact(FactToCandidate(f))) == ViewOf(f)
    ensures CandidateToFact(FactToCandidate(f)) == f <==> Unexplained(f)
  {
    AtoiOfItoa(f.depth);
  }

  // ---------------------------------------------------------------- the order a model replies with

  /** The positions a reply names for `n` candidates, each at its first mention, numbers out of range dropped. */
  function Named(n: nat, order: seq<int>): (p: seq<nat>)
    ensures forall k | 0 <= k < |p| :: p[k] < n
  {
    if order == [] then []
    else
      var p, i := Named(n, order[..|order| - 1]), order[|order| - 1] - 1;
      if 0 <= i < n && i !in p then p + [i] else p
  }

  /** The positions below `i` that `p` does not name, in ascending order. */
  function Missing(i: nat, p: seq<nat>): (m: seq<nat>)
    ensures forall k | 0 <= k < |m| :: m[k] < i
  {
    if i == 0 then [] else Missing(i - 1, p) + if i - 1 in p then [] else [i - 1]
  }

  /** The order in which `n` candidates leave the reranker. */
  function RankOrder(n: nat, order: seq<int>): (p: seq<nat>)
    ensures forall k | 0 <= k < |p| :: p[k] < n
  {
    Named(n, order) + Missing(n, Named(n, order))
  }

  function Select<T>(s: seq<T>, p: seq<nat>): (t: seq<T>)
    requires forall k | 0 <= k < |p| :: p[k] < |s|
    ensures |t| == |p|
  {
    seq(|p|, k requires 0 <= k < |p| => s[p[k]])
  }

  /** What `OpenAIReranker` makes of a reply; `None` is a failed call, no choice, or text that is no order. */
  function Reordered(candidates: seq<Candidate>, reply: Option<seq<int>>): seq<Candidate> {
    match reply
    case None => candidates
    case Some(order) => if |candidates| <= 1 then candidates else Select(candidates, RankOrder(|candidates|, order))
  }

  method OpenAIRerank(candidates: seq<Candidate>, reply: Option<seq<int>>) returns (reranked: seq<Candidate>)
    ensures reranked == Reordered(candidates, reply)
  {
    if |candidates| <= 1 || reply.None? {
      return candidates;
    }
    var order, n := reply.value, |candidates|;
    var seen: set<nat> := {};
    reranked := [];
    for k := 0 to |order|
      invariant reranked == Select(candidates, Named(n, order[..k]))
      invariant forall i: nat :: i in seen <==> i in Named(n, order[..k])
    {
      assert order[..k + 1][..k] == order[..k];
      var i := order[k] - 1;
      if i < 0 || i >= n || i in seen {
        continue;
      }
      seen := seen + {i};
      reranked := reranked + [candidates[i]];
    }
    assert order[..|order|] == order;
    ghost var named := Named(n, order);
    for i := 0 to n
      invariant reranked == Select(candidates, named + Missing(i, named))
      invariant forall j: nat :: j in seen <==> j in named || j < i
    {
      if i !in seen {
        seen := seen + {i};
        reranked := reranked + [candidates[i]];
      }
    }
  }

  lemma {:induction false} NamedHolds(n: nat, order: seq<int>, i: nat)
    ensures i in Named(n, order) <==> i < n && i + 1 in order
  {
    if order != [] {
      var init, last := order[..|order| - 1], order[|order| - 1];
      NamedHolds(n, init, i);
      assert i + 1 in order <==> i + 1 in init || i + 1 == last;
    }
  }

  lemma {:induction false} NamedIsDistinct(n: nat, order: seq<int>)
    ensures NoDup(Named(n, order))
    ensures forall i: nat :: i in Named(n, order) <==> i < n && i + 1 in order
  {
    if order != [] {
      NamedIsDistinct(n, order[..|order| - 1]);
    }
    forall i: nat {
      NamedHolds(n, order, i);
    }
  }

  /** Of two named positions the one that the reply mentions first comes first, whatever else it mentions. */
  lemma {:induction false} FirstMentionComesFirst(n: nat, order: seq<int>, a: nat, b: nat) returns (k: nat)
    requires a < b < |Named(n, order)|
    ensures k < |order| && order[k] == Named(n, order)[a] + 1
    ensures forall l | 0 <= l <= k :: order[l] != Named(n, order)[b] + 1
  {
    var init, last := order[..|order| - 1], order[|order| - 1];
    if b < |Named(n, init)| {
      k := FirstMentionComesFirst(n, init, a, b);
    } else {
      var x, y := Named(n, init)[a], Named(n, order)[b];
      NamedHolds(n, init, x);
      NamedHolds(n, init, y);
      assert x in Named(n, init) && y !in Named(n, init);
      k :| 0 <= k < |init| && init[k] == x + 1;
    }
  }

  lemma {:induction false} MissingIsRest(i: nat, p: seq<nat>)
    ensures NoDup(Missing(i, p)) && forall j: nat :: j in Missing(i, p) <==> j < i && j !in p
  {
    if i > 0 {
      MissingIsRest(i - 1, p);
    }
  }

  /** Whatever the reply, every position leaves exactly once. */
  lemma RankOrderIsPermutation(n: nat, order: seq<int>)
    ensures NoDup(RankOrder(n, order)) && forall i: nat :: i in RankOrder(n, order) <==> i < n
  {
    var p, m := Named(n, order), Missing(n, Named(n, order));
    NamedIsDistinct(n, order);
    MissingIsRest(n, p);
    forall i, j | 0 <= i < j < |p + m|
      ensures (p + m)[i] != (p + m)[j]
    {
      if j < |p| {
      } else if i < |p| {
        assert p[i] in p && m[j - |p|] in m;
      } else {
        assert m[i - |p|] != m[j - |p|];
      }
    }
  }

  /** A reply that numbers each candidate once is followed to the letter. */
  lemma {:induction false} ProperReplyIsFollowed(n: nat, order: seq<int>)
    requires NoDup(order) && forall k | 0 <= k < |order| :: 1 <= order[k] <= n
    ensures |Named(n, order)| == |order| && forall k | 0 <= k < |order| :: Named(n, order)[k] == order[k] - 1
  {
    if order != [] {
      var init, last := order[..|order| - 1], order[|order| - 1];
      ProperReplyIsFollowed(n, init);
      NamedIsDistinct(n, init);
      assert last !in init;
    }
  }

  /** How often `x` stands at the positions below `n` that are not in `taken`. */
  ghost function Left<T>(s: seq<T>, n: nat, taken: set<nat>, x: T): nat
    requires n <= |s|
  {
    if n == 0 then 0
    else Left(s, n - 1, taken, x) + if n - 1 !in taken && s[n - 1] == x then 1 else 0
  }

  lemma {:induction false} TakeOne<T>(s: seq<T>, n: nat, taken: set<nat>, i: nat, x: T)
    requires n <= |s| && i < |s| && i !in taken
    ensures Left(s, n, taken, x) == Left(s, n, taken + {i}, x) + if i < n && s[i] == x then 1 else 0
  {
    if n > 0 {
      TakeOne(s, n - 1, taken, i, x);
    }
  }

  lemma {:induction false} NothingTaken<T>(s: seq<T>, n: nat, x: T)
    requires n <= |s|
    ensures Left(s, n, {}, x) == multiset(s[..n])[x]
  {
    if n > 0 {
      NothingTaken(s, n - 1, x);
      assert s[..n] == s[..n - 1] + [s[n - 1]];
    }
  }

  lemma {:induction false} AllTaken<T>(s: seq<T>, n: nat, taken: set<nat>, x: T)
    requires n <= |s| && forall i: nat | i < n :: i in taken
    ensures Left(s, n, taken, x) == 0
  {
    if n > 0 {
      AllTaken(s, n - 1, taken, x);
    }
  }

  lemma {:induction false} SelectTakes<T>(s: seq<T>, p: seq<nat>, x: T)
    requires NoDup(p) && forall k | 0 <= k < |p| :: p[k] < |s|
    ensures multiset(Select(s, p))[x] + Left(s, |s|, ToSet(p), x) == multiset(s)[x]
  {
    if p == [] {
      NothingTaken(s, |s|, x);
      assert s[..|s|] == s && ToSet(p) == {};
    } else {
      var init, last := p[..|p| - 1], p[|p| - 1];
      SelectTakes(s, init, x);
      assert Select(s, p) == Select(s, init) + [s[last]];
      assert ToSet(p) == ToSet(init) + {last} && last !in init;
      TakeOne(s, |s|, ToSet(init), last, x);
    }
  }

  lemma PermutingKeepsElements<T>(s: seq<T>, p: seq<nat>)
    requires NoDup(p) && forall i: nat :: i in p <==> i < |s|
    requires forall k | 0 <= k < |p| :: p[k] < |s|
    ensures multiset(Select(s, p)) == multiset(s)
  {
    forall x: T
      ensures multiset(Select(s, p))[x] == multiset(s)[x]
    {
      SelectTakes(s, p, x);
      AllTaken(s, |s|, ToSet(p), x);
    }
  }

  // ---------------------------------------------------------------- the stage

  /** What a reranker answers for one bucket: an error, nil, or candidates. */
  datatype Outcome = Failed | Nil | Reranked(candidates: seq<Candidate>)

  function Candidates(facts: seq<Fact>): seq<Candidate> {
    seq(|facts|, k requires 0 <= k < |facts| => FactToCandidate(facts[k]))
  }

  function FactsFrom(candidates: seq<Candidate>): seq<Fact> {
    seq(|candidates|, k requires 0 <= k < |candidates| => CandidateToFact(candidates[k]))
  }

  function Views(facts: seq<Fact>): seq<View> {
    seq(|facts|, k requires 0 <= k < |facts| => ViewOf(facts[k]))
  }

  /** An empty bucket is never sent to the reranker. */
  predicate Fails(facts: seq<Fact>, rerank: seq<Candidate> -> Outcome) {
    facts != [] && rerank(Candidates(facts)).Failed?
  }

  function AfterRerank(facts: seq<Fact>, rerank: seq<Candidate> -> Outcome): seq<Fact> {
    if facts == [] then facts
    else
      match rerank(Candidates(facts))
      case Failed => facts
      case Nil => facts
      case Reranked(candidates) => FactsFrom(candidates)
  }

  /** What a reranker's answer does to a bucket; an empty bucket is not sent to it. */
  ghost predicate HasAnswered(before: seq<Fact>, after: seq<Fact>, rerank: seq<Candidate> -> Outcome) {
    if before == [] then after == []
    else
      match rerank(Candidates(before))
      case Failed => false
      case Nil => after == before
      case Reranked(candidates) =>
        && |after| == |candidates|
        && forall k | 0 <= k < |after| ::
             after[k].content == candidates[k].text && after[k].parentId == candidates[k].id
             && after[k].rankingScore == candidates[k].score
  }

  /**
   * `rerank[b]` is what the reranker would answer for bucket `b`. An error ends the stage: earlier buckets
   * stay reranked, the failing one and those after it are as they were.
   */
  method ApplyReranker(result: RetrievalResult, rerank: seq<seq<Candidate> -> Outcome>) returns (failedAt: Option<nat>)
    requires |rerank| == 4
    modifies result
    ensures result.seedNodes == old(result.seedNodes)
    ensures failedAt.Some? ==> failedAt.value < 4 && Fails(old(result.Bucket(failedAt.value)), rerank[failedAt.value])
    ensures failedAt.None? <==>
            forall b: nat | b < 4 ::
              old(result.Bucket(b)) == [] || !rerank[b](Candidates(old(result.Bucket(b)))).Failed?
    ensures forall b: nat | b < 4 && (failedAt.None? || b < failedAt.value) ::
              HasAnswered(old(result.Bucket(b)), result.Bucket(b), rerank[b])
    ensures forall b: nat | b < 4 :: var reached := failedAt.None? || b < failedAt.value;
              && (reached ==> !Fails(old(result.Bucket(b)), rerank[b]))
              && result.Bucket(b) ==
                 if reached then AfterRerank(old(result.Bucket(b)), rerank[b]) else old(result.Bucket(b))
  {
    for b: nat := 0 to 4
      invariant result.seedNodes == old(result.seedNodes)
      invariant forall c: nat | c < 4 ::
          && (c < b ==> !Fails(old(result.Bucket(c)), rerank[c]))
          && result.Bucket(c) == if c < b then AfterRerank(old(result.Bucket(c)), rerank[c]) else old(result.Bucket(c))
    {
      var facts := result.Bucket(b);
      if facts != [] {
        var outcome := rerank[b](Candidates(facts));
        match outcome
        case Failed =>
          return Some(b);
        case Nil =>
        case Reranked(candidates) =>
          result.SetBucket(b, FactsFrom(candidates));
      }
    }
    failedAt := None;
  }

  /** `OpenAIReranker` on one reply: it never fails. */
  function OpenAI(reply: Option<seq<int>>): seq<Candidate> -> Outcome {
    cs => Reranked(Reordered(cs, reply))
  }

  lemma {:induction false} MissingNothing(n: nat)
    ensures |Missing(n, [])| == n && forall k | 0 <= k < n :: Missing(n, [])[k] == k
  {
    if n > 0 {
      MissingNothing(n - 1);
    }
  }

  /** The positions in the order in which `n` facts come back. */
  function ReplyOrder(n: nat, reply: Option<seq<int>>): (p: seq<nat>)
    ensures forall k | 0 <= k < |p| :: p[k] < n
  {
    if reply.Some? && n > 1 then RankOrder(n, reply.value) else Missing(n, [])
  }

  lemma ReplyOrderIsPermutation(n: nat, reply: Option<seq<int>>)
    ensures NoDup(ReplyOrder(n, reply)) && forall i: nat :: i in ReplyOrder(n, reply) <==> i < n
  {
    if reply.Some? && n > 1 {
      RankOrderIsPermutation(n, reply.value);
    } else {
      MissingIsRest(n, []);
    }
  }

  lemma AfterIsSelected(facts: seq<Fact>, reply: Option<seq<int>>)
    ensures AfterRerank(facts, OpenAI(reply)) == FactsFrom(Select(Candidates(facts), ReplyOrder(|facts|, reply)))
  {
    MissingNothing(|facts|);
    var selected := Select(Candidates(facts), ReplyOrder(|facts|, reply));
    if reply.Some? && |facts| > 1 {
      assert Reordered(Candidates(facts), reply) == selected;
    } else {
      assert Candidates(facts) == selected;
    }
  }

  lemma SelectedViews(facts: seq<Fact>, p: seq<nat>)
    requires forall k | 0 <= k < |p| :: p[k] < |facts|
    ensures Views(FactsFrom(Select(Candidates(facts), p))) == Select(Views(facts), p)
    ensures (forall f | f in facts :: Unexplained(f)) ==> FactsFrom(Select(Candidates(facts), p)) == Select(facts, p)
  {
    forall k | 0 <= k < |p|
      ensures ViewOf(CandidateToFact(FactToCandidate(facts[p[k]]))) == ViewOf(facts[p[k]])
      ensures Unexplained(facts[p[k]]) ==> CandidateToFact(FactToCandidate(facts[p[k]])) == facts[p[k]]
    {
      CandidateRoundTrip(facts[p[k]]);
    }
  }

  /** Reranking by a model's reply, whatever it says, permutes what a caller sees of each bucket. */
  lemma OpenAIRerankPermutes(facts: seq<Fact>, reply: Option<seq<int>>)
    ensures !Fails(facts, OpenAI(reply))
    ensures multiset(Views(AfterRerank(facts, OpenAI(reply)))) == multiset(Views(facts))
    ensures (forall f | f in facts :: Unexplained(f)) ==> multiset(AfterRerank(facts, OpenAI(reply))) == multiset(facts)
  {
    var p := ReplyOrder(|facts|, reply);
    ReplyOrderIsPermutation(|facts|, reply);
    AfterIsSelected(facts, reply);
    SelectedViews(facts, p);
    PermutingKeepsElements(Views(facts), p);
    PermutingKeepsElements(facts, p);
  }
}
