/** Growing the seed set by vector jumps (src/internal/retrieval/walk.go). */
module MultiHop {
  import opened Common
  import opened RetrievalTypes
  import Ranking
  import StableSort

  const MAX_TOTAL_SEEDS := 20
  const TOP_K_PER_HOP := 2
  const VECTOR_TOP_K := 3

  // ---------------------------------------------------------------- the facts that drive a hop

  datatype Item = Item(content: string, score: Score)

  /** Score descending, then content ascending. */
  predicate Before(a: Item, b: Item) {
    if a.score != b.score then a.score.Above(b.score) else a.content != b.content && StringLe(a.content, b.content)
  }

  function ItemsOfFacts(facts: seq<Fact>): seq<Item> {
    seq(|facts|, i requires 0 <= i < |facts| => Item(facts[i].content, facts[i].rankingScore))
  }

  function ItemsOfNodes(nodes: seq<Node>): seq<Item> {
    seq(|nodes|, i requires 0 <= i < |nodes| => Item(nodes[i].content, nodes[i].rankingScore))
  }

  /** One retrieval's answer, as the hop loop reads it. */
  datatype Walk = Walk(seedNodes: seq<Node>, worldFacts: seq<Fact>, opinions: seq<Fact>, experiences: seq<Fact>,
                       observations: seq<Fact>)

  function FactsOf(walk: Walk): seq<Fact> {
    walk.worldFacts + walk.opinions + walk.experiences + walk.observations
  }

  function AllItems(walk: Walk, includeSeeds: bool): (items: seq<Item>)
    ensures |items| == |FactsOf(walk)| + if includeSeeds then |walk.seedNodes| else 0
    ensures forall i | 0 <= i < |FactsOf(walk)| ::
              items[i].content == FactsOf(walk)[i].content && items[i].score == FactsOf(walk)[i].rankingScore
    ensures includeSeeds ==> forall i | 0 <= i < |walk.seedNodes| ::
              var item := items[|FactsOf(walk)| + i];
              item.content == walk.seedNodes[i].content && item.score == walk.seedNodes[i].rankingScore
  {
    ItemsOfFacts(FactsOf(walk))
    + if includeSeeds then ItemsOfNodes(walk.seedNodes) else []
  }

  /** The first item of each content that is not empty. */
  function Distinct(items: seq<Item>): seq<Item> {
    if items == [] then []
    else
      var rest, last := Distinct(items[..|items| - 1]), items[|items| - 1];
      if last.content == "" || Mentions(rest, last.content) then rest else rest + [last]
  }

  predicate Mentions(items: seq<Item>, content: string) {
    exists k | 0 <= k < |items| :: items[k].content == content
  }

  function TopK(items: seq<Item>, k: nat): seq<Item> {
    var sorted := StableSort.Sort(Before, Distinct(items));
    if |sorted| > k then sorted[..k] else sorted
  }

  /** `seen` holds the contents of `items`. */
  ghost predicate IsSeen(seen: set<string>, items: seq<Item>) {
    forall s :: s in seen <==> Mentions(items, s)
  }

  lemma SeenGrows(seen: set<string>, items: seq<Item>, item: Item)
    requires IsSeen(seen, items)
    ensures IsSeen(seen + {item.content}, items + [item])
  {
    forall s {
      MentionsGrow(items, item, s);
    }
  }

  lemma DistinctStep(items: seq<Item>, i: nat)
    requires i < |items|
    ensures var rest := Distinct(items[..i]);
            Distinct(items[..i + 1]) ==
            if items[i].content == "" || Mentions(rest, items[i].content) then rest else rest + [items[i]]
  {
    assert items[..i + 1][..i] == items[..i];
  }

  /** The test on the seen contents decides what the next item does to the list. */
  lemma SeenStep(seen: set<string>, items: seq<Item>, i: nat)
    requires i < |items| && IsSeen(seen, Distinct(items[..i]))
    ensures var kept := Distinct(items[..i]);
            if items[i].content == "" || items[i].content in seen then Distinct(items[..i + 1]) == kept
            else Distinct(items[..i + 1]) == kept + [items[i]] && IsSeen(seen + {items[i].content}, kept + [items[i]])
  {
    DistinctStep(items, i);
    SeenGrows(seen, Distinct(items[..i]), items[i]);
  }

  method TopKFromResult(walk: Walk, k: nat, includeSeedContents: bool) returns (top: seq<Item>)
    ensures top == TopK(AllItems(walk, includeSeedContents), k)
  {
    var items := AllItems(walk, includeSeedContents);
    var seen: set<string> := {};
    var all: seq<Item> := [];
    for i := 0 to |items|
      invariant all == Distinct(items[..i])
      invariant IsSeen(seen, all)
    {
      var item := items[i];
      SeenStep(seen, items, i);
      if item.content == "" || item.content in seen {
        continue;
      }
      seen := seen + {item.content};
      all := all + [item];
    }
    assert items[..|items|] == items;
    top := StableSort.Sort(Before, all);
    if |top| > k {
      top := top[..k];
    }
  }

  lemma MentionsGrow(items: seq<Item>, item: Item, content: string)
    ensures Mentions(items + [item], content) <==> Mentions(items, content) || content == item.content
  {
    var grown := items + [item];
    assert grown[|items|] == item;
    assert forall k | 0 <= k < |items| :: grown[k] == items[k];
  }

  lemma BeforeIsWeakOrder()
    ensures StableSort.IsWeakOrder(Before)
  {
    forall x: Item, y: Item
      ensures Before(x, y) ==> !Before(y, x)
    {
      StringOrder(x.content, y.content, x.content);
    }
    forall x: Item, y: Item, z: Item
      ensures Before(x, z) ==> Before(x, y) || Before(y, z)
    {
      StringOrder(x.content, y.content, z.content);
      StringOrder(y.content, x.content, z.content);
      StringOrder(y.content, z.content, x.content);
    }
  }

  lemma {:induction false} DistinctHoldsContents(items: seq<Item>)
    ensures forall i, j | 0 <= i < j < |Distinct(items)| :: Distinct(items)[i].content != Distinct(items)[j].content
    ensures forall x | x in Distinct(items) :: x in items && x.content != ""
    ensures forall x | x in items && x.content != "" :: Mentions(Distinct(items), x.content)
  {
    if items != [] {
      var init, last := items[..|items| - 1], items[|items| - 1];
      DistinctHoldsContents(init);
      assert items == init + [last];
      if last.content != "" && !Mentions(Distinct(init), last.content) {
        forall x | x in items && x.content != ""
          ensures Mentions(Distinct(items), x.content)
        {
          MentionsGrow(Distinct(init), last, x.content);
        }
      }
    }
  }

  lemma SortedItemsAreCandidates(items: seq<Item>)
    ensures var sorted := StableSort.Sort(Before, Distinct(items));
            && StableSort.Sorted(Before, sorted)
            && (forall x :: x in sorted <==> x in Distinct(items))
            && (forall x | x in sorted :: x in items && x.content != "")
  {
    var all, sorted := Distinct(items), StableSort.Sort(Before, Distinct(items));
    BeforeIsWeakOrder();
    StableSort.SortIsStableSort(Before, all);
    DistinctHoldsContents(items);
    forall x
      ensures x in sorted <==> x in all
    {
      assert x in multiset(sorted) <==> x in multiset(all);
    }
  }

  lemma PrefixStandsFirst(sorted: seq<Item>, k: nat, x: Item, t: Item)
    requires StableSort.Sorted(Before, sorted) && k <= |sorted| && x in sorted && x !in sorted[..k] && t in sorted[..k]
    ensures !Before(x, t)
  {
    var j :| 0 <= j < |sorted| && sorted[j] == x;
    var i :| 0 <= i < k && sorted[..k][i] == t;
    assert forall m | 0 <= m < k :: sorted[m] in sorted[..k];
    assert sorted[i] == t;
  }

  /**
   * The chosen items are at most `k` of the candidates and stand in order; a candidate that is the first of its
   * content is left out only if `k` were chosen, none of which it comes before.
   */
  lemma TopKIsBest(items: seq<Item>, k: nat)
    ensures |TopK(items, k)| <= k && StableSort.Sorted(Before, TopK(items, k))
    ensures forall x | x in TopK(items, k) :: x in items && x.content != ""
    ensures forall x | x in Distinct(items) && x !in TopK(items, k) :: |TopK(items, k)| == k
    ensures forall x, t | x in Distinct(items) && x !in TopK(items, k) && t in TopK(items, k) :: !Before(x, t)
  {
    var sorted, top := StableSort.Sort(Before, Distinct(items)), TopK(items, k);
    SortedItemsAreCandidates(items);
    assert forall x | x in top :: x in sorted;
    assert |sorted| > k ==> top == sorted[..k];
    forall x, t | x in Distinct(items) && x !in top && t in top
      ensures !Before(x, t)
    {
      PrefixStandsFirst(sorted, k, x, t);
    }
  }

  /** A content is left out only if there are `k` others. */
  lemma TopKCounts(items: seq<Item>, k: nat, x: Item)
    requires x in items && x.content != ""
    ensures Mentions(TopK(items, k), x.content) || |TopK(items, k)| == k
  {
    DistinctHoldsContents(items);
    var i :| 0 <= i < |Distinct(items)| && Distinct(items)[i].content == x.content;
    var y, top := Distinct(items)[i], TopK(items, k);
    TopKIsBest(items, k);
    assert y in Distinct(items);
    if y in top {
      var j :| 0 <= j < |top| && top[j] == y;
    }
  }

  // ---------------------------------------------------------------- the hop and the ranking

  predicate InBuckets(walk: Walk, content: string) {
    exists f | f in FactsOf(walk) :: f.content == content
  }

  /** The buckets were filled from these nodes. */
  predicate IsFilledFrom(walk: Walk, ranked: seq<Ranking.RankedNode>, explain: bool, penalty: Score -> Score) {
    && walk.worldFacts == Ranking.BucketFacts(ranked, |ranked|, 0, explain, penalty)
    && walk.opinions == Ranking.BucketFacts(ranked, |ranked|, 1, explain, penalty)
    && walk.experiences == Ranking.BucketFacts(ranked, |ranked|, 2, explain, penalty)
    && walk.observations == Ranking.BucketFacts(ranked, |ranked|, 3, explain, penalty)
  }

  /** Where the first node of a content stands in ranked order. */
  function RankOf(ranked: seq<Ranking.RankedNode>, content: string): nat {
    Ranking.FirstWith(ranked, content, |ranked|)
  }

  lemma BucketFactOfFirst(ranked: seq<Ranking.RankedNode>, b: nat, explain: bool, penalty: Score -> Score, f: Fact)
    requires f in Ranking.BucketFacts(ranked, |ranked|, b, explain, penalty)
    ensures var o := RankOf(ranked, f.content);
            o < |ranked| && f == Ranking.FactOf(ranked[o], explain, penalty)
  {
    var facts := Ranking.BucketFacts(ranked, |ranked|, b, explain, penalty);
    var origins := Ranking.Origins(ranked, |ranked|, b);
    var k :| 0 <= k < |facts| && facts[k] == f;
    Ranking.OriginsAreFirstNodes(ranked, |ranked|, b);
    assert origins[k] in origins;
    assert Ranking.IsFirst(ranked, origins[k]);
    assert RankOf(ranked, f.content) == origins[k];
  }

  /** The item that stands for a content is the first one with it. */
  lemma {:induction false} DistinctIsFirst(items: seq<Item>, x: Item) returns (i: nat)
    requires x in Distinct(items)
    ensures i < |items| && items[i] == x && forall j | 0 <= j < i :: items[j].content != x.content
  {
    var init, last := items[..|items| - 1], items[|items| - 1];
    if x in Distinct(init) {
      i := DistinctIsFirst(init, x);
    } else {
      DistinctHoldsContents(init);
      i := |init|;
      forall j | 0 <= j < i
        ensures items[j].content != x.content
      {
        assert init[j] in init;
      }
    }
  }

  /** A bucket fact drives a hop with its node's score in an explained retrieval, and with 0 in any other. */
  lemma ItemScore(walk: Walk, ranked: seq<Ranking.RankedNode>, explain: bool, penalty: Score -> Score,
                  includeSeeds: bool, x: Item)
    requires IsFilledFrom(walk, ranked, explain, penalty)
    requires x in Distinct(AllItems(walk, includeSeeds)) && InBuckets(walk, x.content)
    ensures RankOf(ranked, x.content) < |ranked|
    ensures x.score == if explain then ranked[RankOf(ranked, x.content)].score else Ranking.ZERO
  {
    var facts, items := FactsOf(walk), AllItems(walk, includeSeeds);
    var i := DistinctIsFirst(items, x);
    var g :| g in facts && g.content == x.content;
    var j :| 0 <= j < |facts| && facts[j] == g;
    assert items[j].content == x.content;
    var f := facts[i];
    assert items[i] == Item(f.content, f.rankingScore) && f in facts;
    var b := if f in walk.worldFacts then 0 else if f in walk.opinions then 1
             else if f in walk.experiences then 2 else 3;
    BucketFactOfFirst(ranked, b, explain, penalty, f);
  }

  /**
   Among bucket facts an explained hop prefers the better ranked node; without explanation it goes
   by the alphabet, whatever the ranking says.
   */
  lemma HopChoiceAmongFacts(walk: Walk, ranked: seq<Ranking.RankedNode>, explain: bool, penalty: Score -> Score,
                            includeSeeds: bool, k: nat, x: Item, t: Item)
    requires IsFilledFrom(walk, ranked, explain, penalty) && InBuckets(walk, x.content) && InBuckets(walk, t.content)
    requires x in Distinct(AllItems(walk, includeSeeds)) && t in Distinct(AllItems(walk, includeSeeds))
    requires t in TopK(AllItems(walk, includeSeeds), k) && x !in TopK(AllItems(walk, includeSeeds), k)
    ensures RankOf(ranked, x.content) < |ranked| && RankOf(ranked, t.content) < |ranked|
    ensures explain ==> !ranked[RankOf(ranked, x.content)].score.Above(ranked[RankOf(ranked, t.content)].score)
    ensures !explain ==> x.score == t.score && StringLe(t.content, x.content)
  {
    ItemScore(walk, ranked, explain, penalty, includeSeeds, x);
    ItemScore(walk, ranked, explain, penalty, includeSeeds, t);
    LeftOutIsNotBefore(AllItems(walk, includeSeeds), k, x, t);
  }

  lemma LeftOutIsNotBefore(items: seq<Item>, k: nat, x: Item, t: Item)
    requires x in Distinct(items) && t in TopK(items, k) && x !in TopK(items, k)
    ensures !x.score.Above(t.score) && (x.score == t.score ==> StringLe(t.content, x.content))
  {
    var sorted := StableSort.Sort(Before, Distinct(items));
    SortedItemsAreCandidates(items);
    PrefixStandsFirst(sorted, k, x, t);
    NotBefore(x, t);
  }

  lemma NotBefore(x: Item, t: Item)
    requires !Before(x, t)
    ensures !x.score.Above(t.score) && (x.score == t.score ==> StringLe(t.content, x.content))
  {
    StringOrder(t.content, x.content, x.content);
  }

  lemma BestOfTwo(x: Item, y: Item)
    requires x.content != "" && y.content != "" && x.content != y.content
    ensures TopK([x, y], 1) == [if Before(y, x) then y else x]
  {
    assert [x, y][..1] == [x] && [x][..0] == [];
    assert Distinct([x]) == [x] && Distinct([x, y]) == [x, y];
    assert [x, y][1..] == [y] && [y][1..] == [];
    assert StableSort.Sort(Before, [y]) == [y];
  }

  lemma WorldFactsOfTwo(ranked: seq<Ranking.RankedNode>, explain: bool, penalty: Score -> Score)
    requires |ranked| == 2 && ranked[0].node.category == ranked[1].node.category == "world"
    requires ranked[0].node.content != ranked[1].node.content
    ensures Ranking.BucketFacts(ranked, 2, 0, explain, penalty) ==
            [Ranking.FactOf(ranked[0], explain, penalty), Ranking.FactOf(ranked[1], explain, penalty)]
    ensures forall b: nat | b > 0 :: Ranking.BucketFacts(ranked, 2, b, explain, penalty) == []
  {
    forall b: nat {
      OriginsOfTwo(ranked, b);
    }
  }

  lemma OriginsOfTwo(ranked: seq<Ranking.RankedNode>, b: nat)
    requires |ranked| == 2 && ranked[0].node.category == ranked[1].node.category == "world"
    requires ranked[0].node.content != ranked[1].node.content
    ensures Ranking.Origins(ranked, 2, b) == if b == 0 then [0, 1] else []
  {
    assert Ranking.BucketOf("world") == Some(0);
    assert Ranking.Gives(ranked, 0, b) <==> b == 0;
    assert Ranking.Gives(ranked, 1, b) <==> b == 0;
    assert Ranking.Origins(ranked, 1, b) == if b == 0 then [0] else [];
    assert [0] + [1] == [0, 1];
  }

  lemma ItemsOfTwo(f: Fact, g: Fact)
    ensures AllItems(Walk([], [f, g], [], [], []), false) ==
            [Item(f.content, f.rankingScore), Item(g.content, g.rankingScore)]
  {
    assert FactsOf(Walk([], [f, g], [], [], [])) == [f, g];
  }

  /** Of two facts, the better ranked drives the hop only if the retrieval was explained or the alphabet agrees. */
  lemma BetterRankedIsPassedOver(a: Ranking.RankedNode, b: Ranking.RankedNode, explain: bool, penalty: Score -> Score)
    returns (walk: Walk)
    requires b.score.Above(a.score) && a.node.category == b.node.category == "world"
    requires a.node.content != "" && a.node.content != b.node.content && StringLe(a.node.content, b.node.content)
    ensures Ranking.IsRanked([b, a]) && IsFilledFrom(walk, [b, a], explain, penalty)
    ensures TopK(AllItems(walk, false), 1) ==
            [if explain then Item(b.node.content, b.score) else Item(a.node.content, Ranking.ZERO)]
  {
    var ranked := [b, a];
    WorldFactsOfTwo(ranked, explain, penalty);
    walk := Walk([], Ranking.BucketFacts(ranked, 2, 0, explain, penalty), [], [], []);
    var x := Item(b.node.content, if explain then b.score else Ranking.ZERO);
    var y := Item(a.node.content, if explain then a.score else Ranking.ZERO);
    ItemsOfTwo(Ranking.FactOf(b, explain, penalty), Ranking.FactOf(a, explain, penalty));
    BestOfTwo(x, y);
  }

  // ---------------------------------------------------------------- merging hits

  /** The IDs of one hop that are new, in the order in which they are found. */
  function NewIds(ids: seq<Id>, known: set<Id>): seq<Id> {
    if ids == [] then []
    else
      var rest, last := NewIds(ids[..|ids| - 1], known), ids[|ids| - 1];
      if last in known || last in rest then rest else rest + [last]
  }

  function Concat(hits: seq<seq<Id>>): seq<Id> {
    if hits == [] then [] else Concat(hits[..|hits| - 1]) + hits[|hits| - 1]
  }

  lemma NewIdsGrow(before: seq<Id>, ids: seq<Id>, j: nat, known: set<Id>)
    requires j < |ids|
    ensures var rest, id := NewIds(before + ids[..j], known), ids[j];
            NewIds(before + ids[..j + 1], known) == if id in known || id in rest then rest else rest + [id]
  {
    assert (before + ids[..j + 1])[..|before| + j] == before + ids[..j];
  }

  method HopMergeSeeds(hits: seq<seq<Id>>, accumulated: set<Id>) returns (nextSeeds: seq<Id>, grown: set<Id>)
    ensures nextSeeds == NewIds(Concat(hits), accumulated)
    ensures grown == accumulated + ToSet(nextSeeds)
  {
    grown, nextSeeds := accumulated, [];
    for i := 0 to |hits|
      invariant nextSeeds == NewIds(Concat(hits[..i]), accumulated)
      invariant grown == accumulated + ToSet(nextSeeds)
    {
      var ids := hits[i];
      ghost var before := Concat(hits[..i]);
      assert before + ids[..0] == before;
      assert hits[..i + 1][..i] == hits[..i];
      for j := 0 to |ids|
        invariant nextSeeds == NewIds(before + ids[..j], accumulated)
        invariant grown == accumulated + ToSet(nextSeeds)
      {
        NewIdsGrow(before, ids, j, accumulated);
        if ids[j] !in grown {
          grown := grown + {ids[j]};
          nextSeeds := nextSeeds + [ids[j]];
        }
      }
      assert ids[..|ids|] == ids;
    }
    assert hits[..|hits|] == hits;
  }

  lemma {:induction false} NewIdsAreNew(ids: seq<Id>, known: set<Id>)
    ensures NoDup(NewIds(ids, known)) && |NewIds(ids, known)| <= |ids|
    ensures forall id :: id in NewIds(ids, known) <==> id in ids && id !in known
  {
    if ids != [] {
      var init, last := ids[..|ids| - 1], ids[|ids| - 1];
      NewIdsAreNew(init, known);
      assert ids == init + [last];
    }
  }

  lemma {:induction false} ConcatLength(hits: seq<seq<Id>>, limit: nat)
    requires forall i | 0 <= i < |hits| :: |hits[i]| <= limit
    ensures |Concat(hits)| <= limit * |hits|
  {
    if hits != [] {
      ConcatLength(hits[..|hits| - 1], limit);
      assert limit * |hits| == limit * (|hits| - 1) + limit;
    }
  }

  // ---------------------------------------------------------------- the hops

  type Vector = seq<real>

  /** What the hop loop calls, hop by hop: any may fail, and the context may be cancelled at any of three points. */
  datatype World = World(
    walk: (nat, seq<Id>) -> Result<Walk>,
    embed: (nat, string) -> Result<Vector>,
    search: (nat, Vector) -> Result<seq<Id>>,
    cancelled: (nat, nat) -> bool)

  ghost predicate HonoursLimit(world: World) {
    forall h: nat, v: Vector :: world.search(h, v).Ok? ==> |world.search(h, v).value| <= VECTOR_TOP_K
  }

  method HopEmbedFacts(world: World, h: nat, facts: seq<Item>) returns (vecs: Result<seq<Vector>>)
    ensures vecs.Ok? ==> |vecs.value| == |facts|
    ensures vecs.Ok? ==> forall i | 0 <= i < |facts| :: world.embed(h, facts[i].content) == Ok(vecs.value[i])
    ensures vecs.Err? ==> exists i | 0 <= i < |facts| :: world.embed(h, facts[i].content) == Err
  {
    var found: seq<Vector> := [];
    for i := 0 to |facts|
      invariant |found| == i
      invariant forall j | 0 <= j < i :: world.embed(h, facts[j].content) == Ok(found[j])
    {
      var vec := world.embed(h, facts[i].content);
      if vec.Err? {
        return Err;
      }
      found := found + [vec.value];
    }
    return Ok(found);
  }

  method HopVectorSearch(world: World, h: nat, vecs: seq<Vector>) returns (hits: Result<seq<seq<Id>>>)
    ensures hits.Ok? ==> |hits.value| == |vecs|
    ensures hits.Ok? ==> forall i | 0 <= i < |vecs| :: world.search(h, vecs[i]) == Ok(hits.value[i])
    ensures hits.Err? ==> exists i | 0 <= i < |vecs| :: world.search(h, vecs[i]) == Err
  {
    var found: seq<seq<Id>> := [];
    for i := 0 to |vecs|
      invariant |found| == i
      invariant forall j | 0 <= j < i :: world.search(h, vecs[j]) == Ok(found[j])
    {
      var ids := world.search(h, vecs[i]);
      if ids.Err? {
        return Err;
      }
      found := found + [ids.value];
    }
    return Ok(found);
  }

  /** The walk of hop `h` fails, or there is something to jump from and a call fails or the context is cancelled. */
  ghost predicate JumpFails(world: World, h: nat, seeds: seq<Id>) {
    || world.walk(h, seeds).Err?
    || (HopItems(world, h, seeds) != []
        && (world.cancelled(h, 2) || world.cancelled(h, 3)
            || exists i | 0 <= i < |HopItems(world, h, seeds)| ::
                 EmbedFails(world, h, HopItems(world, h, seeds)[i])
                 || SearchFails(world, h, HopItems(world, h, seeds)[i])))
  }

  /** Hop `h` ends in an error: cancelled before it begins, or within the bound on seeds when it jumps. */
  ghost predicate HopFails(world: World, h: nat, seeds: seq<Id>, known: set<Id>) {
    world.cancelled(h, 1) || (|known| <= MAX_TOTAL_SEEDS && JumpFails(world, h, seeds))
  }

  predicate EmbedFails(world: World, h: nat, item: Item) {
    world.embed(h, item.content).Err?
  }

  predicate SearchFails(world: World, h: nat, item: Item) {
    var vec := world.embed(h, item.content);
    vec.Ok? && world.search(h, vec.value).Err?
  }

  /** The items that drive hop `h`: the best its walk returned. */
  function HopItems(world: World, h: nat, seeds: seq<Id>): seq<Item> {
    match world.walk(h, seeds)
    case Err => []
    case Ok(walk) => TopK(AllItems(walk, h == 1), TOP_K_PER_HOP)
  }

  /** From the second hop on, the seeds' own texts drive nothing. */
  lemma LaterHopsIgnoreSeeds(world: World, h: nat, seeds: seq<Id>, x: Item)
    requires h != 1 && x in HopItems(world, h, seeds)
    ensures world.walk(h, seeds).Ok? && InBuckets(world.walk(h, seeds).value, x.content)
  {
    var walk := world.walk(h, seeds).value;
    TopKIsBest(AllItems(walk, false), TOP_K_PER_HOP);
    var i :| 0 <= i < |AllItems(walk, false)| && AllItems(walk, false)[i] == x;
    assert FactsOf(walk)[i] in FactsOf(walk);
  }

  /** In the first hop a seed's text is one of the two that drive it, unless there are two others. */
  lemma FirstHopCountsSeeds(world: World, seeds: seq<Id>, n: Node)
    requires world.walk(1, seeds).Ok? && n in world.walk(1, seeds).value.seedNodes && n.content != ""
    ensures Mentions(HopItems(world, 1, seeds), n.content) || |HopItems(world, 1, seeds)| == 2
  {
    var walk := world.walk(1, seeds).value;
    var x := SeedIsItem(walk, n);
    TopKCounts(AllItems(walk, true), TOP_K_PER_HOP, x);
  }

  lemma SeedIsItem(walk: Walk, n: Node) returns (x: Item)
    requires n in walk.seedNodes
    ensures x in AllItems(walk, true) && x.content == n.content
  {
    var i :| 0 <= i < |walk.seedNodes| && walk.seedNodes[i] == n;
    x := AllItems(walk, true)[|FactsOf(walk)| + i];
  }

  /** What one hop does: it fails, finds nothing to jump from, or finds hits. */
  datatype Hop = Failed | Stuck | Hits(hits: seq<seq<Id>>)

  lemma AllCallsWork(world: World, h: nat, items: seq<Item>, vecs: seq<Vector>, hits: seq<seq<Id>>)
    requires |items| == |vecs| == |hits|
    requires forall i | 0 <= i < |items| :: world.embed(h, items[i].content) == Ok(vecs[i])
    requires forall i | 0 <= i < |items| :: world.search(h, vecs[i]) == Ok(hits[i])
    ensures forall i | 0 <= i < |items| ::
              && Neighbours(world, h, items[i], hits[i])
              && !EmbedFails(world, h, items[i]) && !SearchFails(world, h, items[i])
  {
  }

  method RunHop(world: World, h: nat, currentSeeds: seq<Id>) returns (hop: Hop)
    requires h >= 1
    ensures hop.Hits? ==> |hop.hits| <= TOP_K_PER_HOP
    ensures hop.Hits? && HonoursLimit(world) ==> forall i | 0 <= i < |hop.hits| :: |hop.hits[i]| <= VECTOR_TOP_K
    ensures hop.Hits? ==> JumpedFrom(world, h, currentSeeds, hop.hits)
    ensures hop.Stuck? ==> JumpedFrom(world, h, currentSeeds, [])
    ensures hop.Failed? <==> JumpFails(world, h, currentSeeds)
    ensures hop.Stuck? <==> world.walk(h, currentSeeds).Ok? && HopItems(world, h, currentSeeds) == []
  {
    var walk := world.walk(h, currentSeeds);
    if walk.Err? {
      return Failed;
    }
    var topFacts := TopKFromResult(walk.value, TOP_K_PER_HOP, h == 1);
    assert topFacts == HopItems(world, h, currentSeeds);
    if |topFacts| == 0 {
      return Stuck;
    }
    if world.cancelled(h, 2) {
      return Failed;
    }
    var queryVecs := HopEmbedFacts(world, h, topFacts);
    if queryVecs.Err? {
      var i :| 0 <= i < |topFacts| && world.embed(h, topFacts[i].content) == Err;
      assert EmbedFails(world, h, topFacts[i]);
      return Failed;
    }
    if world.cancelled(h, 3) {
      return Failed;
    }
    var hits := HopVectorSearch(world, h, queryVecs.value);
    if hits.Err? {
      var i :| 0 <= i < |queryVecs.value| && world.search(h, queryVecs.value[i]) == Err;
      assert SearchFails(world, h, topFacts[i]);
      return Failed;
    }
    TopKIsBest(AllItems(walk.value, h == 1), TOP_K_PER_HOP);
    AllCallsWork(world, h, topFacts, queryVecs.value, hits.value);
    return Hits(hits.value);
  }

  /** The hits are the neighbours of the embedding of the item's content. */
  ghost predicate Neighbours(world: World, h: nat, item: Item, ids: seq<Id>) {
    var vec := world.embed(h, item.content);
    vec.Ok? && world.search(h, vec.value) == Ok(ids)
  }

  /** The hits of a hop are the neighbours of the items that drive it. */
  ghost predicate JumpedFrom(world: World, h: nat, seeds: seq<Id>, hits: seq<seq<Id>>) {
    && world.walk(h, seeds).Ok?
    && |hits| == |HopItems(world, h, seeds)|
    && forall i | 0 <= i < |hits| :: Neighbours(world, h, HopItems(world, h, seeds)[i], hits[i])
  }

  /** How the expansion ends; `Final` and `Passthrough` carry the seeds of the one walk that answers. */
  datatype Outcome = Empty | Passthrough(seeds: seq<Id>) | NeedsIndex | Failure | Final(seeds: seq<Id>)

  /** The seeds known after the hops that found `found`. */
  ghost function Known(initial: seq<Id>, found: seq<seq<Id>>): set<Id> {
    ToSet(initial) + ToSet(Concat(found))
  }

  /** The seeds the next hop walks from. */
  ghost function Current(initial: seq<Id>, found: seq<seq<Id>>): seq<Id> {
    if found == [] then initial else found[|found| - 1]
  }

  /** Hop `k + 1` found, from the seeds of the hop before it, exactly the IDs not known by then, each once. */
  ghost predicate IsHop(world: World, initial: seq<Id>, found: seq<seq<Id>>, k: nat)
    requires k < |found|
  {
    && found[k] != [] && NoDup(found[k]) && ToSet(found[k]) !! Known(initial, found[..k])
    && !HopFails(world, k + 1, Current(initial, found[..k]), Known(initial, found[..k]))
    && |Known(initial, found[..k])| <= MAX_TOTAL_SEEDS
    && exists hits :: JumpedFrom(world, k + 1, Current(initial, found[..k]), hits)
                   && found[k] == NewIds(Concat(hits), Known(initial, found[..k]))
  }

  ghost predicate AreHops(world: World, initial: seq<Id>, found: seq<seq<Id>>) {
    forall k: nat | k < |found| :: IsHop(world, initial, found, k)
  }

  /** One more hop would not be made, or would find nothing new. */
  ghost predicate IsExhausted(world: World, initial: seq<Id>, found: seq<seq<Id>>) {
    || |Known(initial, found)| > MAX_TOTAL_SEEDS
    || exists hits :: JumpedFrom(world, |found| + 1, Current(initial, found), hits)
                      && NewIds(Concat(hits), Known(initial, found)) == []
  }

  function Max(a: int, b: int): int {
    if a >= b then a else b
  }

  predicate IdBefore(a: Id, b: Id) {
    a != b && StringLe(a, b)
  }

  lemma IdBeforeIsWeakOrder()
    ensures StableSort.IsWeakOrder(IdBefore)
  {
    forall x: Id, y: Id
      ensures IdBefore(x, y) ==> !IdBefore(y, x)
    {
      StringOrder(x, y, x);
    }
    forall x: Id, y: Id, z: Id
      ensures IdBefore(x, z) ==> IdBefore(x, y) || IdBefore(y, z)
    {
      StringOrder(x, y, z);
      StringOrder(y, x, z);
      StringOrder(y, z, x);
    }
  }

  method SortedIds(ids: set<Id>) returns (sorted: seq<Id>)
    ensures NoDup(sorted) && ToSet(sorted) == ids && StableSort.Sorted(IdBefore, sorted)
  {
    var rest, list := ids, [];
    while rest != {}
      invariant rest <= ids && ToSet(list) == ids - rest && NoDup(list)
      decreases |rest|
    {
      var id :| id in rest;
      assert id !in ToSet(list);
      assert ToSet(list + [id]) == ToSet(list) + {id};
      rest, list := rest - {id}, list + [id];
    }
    sorted := StableSort.Sort(IdBefore, list);
    IdBeforeIsWeakOrder();
    StableSort.SortIsStableSort(IdBefore, list);
    SameElements(list, sorted);
  }

  /** The walk that answers gets its seeds in an order that depends on nothing but which they are. */
  lemma SeedOrderIsDetermined(s: seq<Id>, t: seq<Id>)
    requires NoDup(s) && NoDup(t) && ToSet(s) == ToSet(t)
    requires StableSort.Sorted(IdBefore, s) && StableSort.Sorted(IdBefore, t)
    ensures s == t
  {
    IdBeforeIsWeakOrder();
    forall x: Id
      ensures StableSort.TiedWith(IdBefore, s, x) == StableSort.TiedWith(IdBefore, t, x)
    {
      assert x in ToSet(s) <==> x in ToSet(t);
      OnlyTiedWithItself(s, x);
      OnlyTiedWithItself(t, x);
    }
    StableSort.StableSortIsUnique(IdBefore, s, t);
  }

  lemma {:induction false} OnlyTiedWithItself(s: seq<Id>, x: Id)
    requires NoDup(s)
    ensures StableSort.TiedWith(IdBefore, s, x) == if x in s then [x] else []
  {
    if s != [] {
      OnlyTiedWithItself(s[1..], x);
      StringOrder(s[0], x, x);
    }
  }

  lemma {:induction false} ConcatGrows(found: seq<seq<Id>>, next: seq<Id>)
    ensures Concat(found + [next]) == Concat(found) + next
  {
    assert (found + [next])[..|found|] == found;
  }

  lemma HopIsSmall(hits: seq<seq<Id>>, known: set<Id>)
    requires |hits| <= TOP_K_PER_HOP && forall i | 0 <= i < |hits| :: |hits[i]| <= VECTOR_TOP_K
    ensures |ToSet(NewIds(Concat(hits), known))| <= TOP_K_PER_HOP * VECTOR_TOP_K
  {
    ConcatLength(hits, VECTOR_TOP_K);
    NewIdsAreNew(Concat(hits), known);
    SizeOfDistinct(NewIds(Concat(hits), known));
  }

  /** The loop's test for an empty list of seeds never succeeds. */
  lemma SeedsRemain(world: World, initial: seq<Id>, found: seq<seq<Id>>)
    requires AreHops(world, initial, found) && initial != []
    ensures Current(initial, found) != []
  {
    assert found == [] || IsHop(world, initial, found, |found| - 1);
  }

  lemma HopExtends(world: World, initial: seq<Id>, found: seq<seq<Id>>, hits: seq<seq<Id>>)
    requires AreHops(world, initial, found) && JumpedFrom(world, |found| + 1, Current(initial, found), hits)
    requires NewIds(Concat(hits), Known(initial, found)) != []
    requires !HopFails(world, |found| + 1, Current(initial, found), Known(initial, found))
    requires |Known(initial, found)| <= MAX_TOTAL_SEEDS
    ensures var next := NewIds(Concat(hits), Known(initial, found));
            && AreHops(world, initial, found + [next])
            && Known(initial, found + [next]) == Known(initial, found) + ToSet(next)
  {
    var next := NewIds(Concat(hits), Known(initial, found));
    LastHop(world, initial, found, hits);
    ConcatGrows(found, next);
    forall k: nat | k < |found| + 1
      ensures IsHop(world, initial, found + [next], k)
    {
      if k < |found| {
        EarlierHop(world, initial, found, next, k);
      }
    }
  }

  lemma EarlierHop(world: World, initial: seq<Id>, found: seq<seq<Id>>, next: seq<Id>, k: nat)
    requires k < |found| && IsHop(world, initial, found, k)
    ensures IsHop(world, initial, found + [next], k)
  {
    assert (found + [next])[..k] == found[..k];
  }

  lemma LastHop(world: World, initial: seq<Id>, found: seq<seq<Id>>, hits: seq<seq<Id>>)
    requires JumpedFrom(world, |found| + 1, Current(initial, found), hits)
    requires NewIds(Concat(hits), Known(initial, found)) != []
    requires !HopFails(world, |found| + 1, Current(initial, found), Known(initial, found))
    requires |Known(initial, found)| <= MAX_TOTAL_SEEDS
    ensures IsHop(world, initial, found + [NewIds(Concat(hits), Known(initial, found))], |found|)
  {
    var grown := found + [NewIds(Concat(hits), Known(initial, found))];
    NewIdsAreNew(Concat(hits), Known(initial, found));
    assert grown[..|found|] == found;
  }

  lemma JumpIsDetermined(world: World, h: nat, seeds: seq<Id>, hits: seq<seq<Id>>, hits': seq<seq<Id>>)
    requires JumpedFrom(world, h, seeds, hits) && JumpedFrom(world, h, seeds, hits')
    ensures hits == hits'
  {
    forall i | 0 <= i < |hits|
      ensures hits[i] == hits'[i]
    {
      assert Neighbours(world, h, HopItems(world, h, seeds)[i], hits[i]);
      assert Neighbours(world, h, HopItems(world, h, seeds)[i], hits'[i]);
    }
  }

  lemma NotExhausted(world: World, initial: seq<Id>, found: seq<seq<Id>>, hits: seq<seq<Id>>)
    requires |Known(initial, found)| <= MAX_TOTAL_SEEDS
    requires JumpedFrom(world, |found| + 1, Current(initial, found), hits)
    requires NewIds(Concat(hits), Known(initial, found)) != []
    ensures !IsExhausted(world, initial, found)
  {
    if other :| JumpedFrom(world, |found| + 1, Current(initial, found), other)
                && NewIds(Concat(other), Known(initial, found)) == [] {
      JumpIsDetermined(world, |found| + 1, Current(initial, found), other, hits);
    }
  }

  datatype Step = Fail | Stop | Go(nextSeeds: seq<Id>, accumulated: set<Id>)

  /** The body of the hop loop. */
  method NextHop(world: World, h: nat, currentSeeds: seq<Id>, accumulated: set<Id>, ghost initial: seq<Id>,
                 ghost found: seq<seq<Id>>)
    returns (step: Step, ghost next: seq<seq<Id>>)
    requires h == |found| + 1 && AreHops(world, initial, found) && initial != []
    requires currentSeeds == Current(initial, found) && accumulated == Known(initial, found)
    ensures step.Fail? <==> HopFails(world, h, currentSeeds, accumulated)
    ensures step.Stop? <==> !HopFails(world, h, currentSeeds, accumulated) && IsExhausted(world, initial, found)
    ensures step.Go? ==>
              && |next| == h && AreHops(world, initial, next)
              && step.nextSeeds == Current(initial, next) && step.accumulated == Known(initial, next)
    ensures step.Go? && HonoursLimit(world) ==> |step.accumulated| <= MAX_TOTAL_SEEDS + TOP_K_PER_HOP * VECTOR_TOP_K
  {
    next := found;
    if world.cancelled(h, 1) {
      return Fail, next;
    }
    SeedsRemain(world, initial, found);
    if |currentSeeds| == 0 || |accumulated| > MAX_TOTAL_SEEDS {
      return Stop, next;
    }
    var hop := RunHop(world, h, currentSeeds);
    if hop.Failed? {
      return Fail, next;
    }
    if hop.Stuck? {
      assert NewIds(Concat([]), Known(initial, found)) == [];
      return Stop, next;
    }
    var nextSeeds, grown := HopMergeSeeds(hop.hits, accumulated);
    if |nextSeeds| == 0 {
      return Stop, next;
    }
    HopExtends(world, initial, found, hop.hits);
    NotExhausted(world, initial, found, hop.hits);
    if HonoursLimit(world) {
      HopIsSmall(hop.hits, accumulated);
    }
    next := found + [nextSeeds];
    return Go(nextSeeds, grown), next;
  }

  method MultiHopSeeds(world: World, haveIndex: bool, seedIds: seq<Id>, multiHopCount: int)
    returns (outcome: Outcome, ghost found: seq<seq<Id>>)
    ensures outcome.Empty? <==> seedIds == []
    ensures outcome.Passthrough? <==> seedIds != [] && multiHopCount == 1
    ensures outcome.Passthrough? ==> outcome.seeds == seedIds
    ensures outcome.NeedsIndex? <==> seedIds != [] && multiHopCount != 1 && !haveIndex
    ensures AreHops(world, seedIds, found) && |found| < Hops(multiHopCount)
    ensures outcome.Failure? ==>
              |found| < Hops(multiHopCount) - 1
              && HopFails(world, |found| + 1, Current(seedIds, found), Known(seedIds, found))
    ensures outcome.Final? ==>
              && NoDup(outcome.seeds) && StableSort.Sorted(IdBefore, outcome.seeds)
              && ToSet(outcome.seeds) == Known(seedIds, found)
              && (|found| == Hops(multiHopCount) - 1
                  || (IsExhausted(world, seedIds, found)
                      && !HopFails(world, |found| + 1, Current(seedIds, found), Known(seedIds, found))))
    ensures outcome.Final? && HonoursLimit(world) ==>
              |outcome.seeds| <= Max(|ToSet(seedIds)|, MAX_TOTAL_SEEDS + TOP_K_PER_HOP * VECTOR_TOP_K)
  {
    found := [];
    if |seedIds| == 0 {
      return Empty, found;
    }
    var hops := if multiHopCount <= 0 then 2 else multiHopCount;
    if hops == 1 {
      return Passthrough(seedIds), found;
    }
    if !haveIndex {
      return NeedsIndex, found;
    }
    var accumulated := set id | id in seedIds;
    var currentSeeds := seedIds;
    for h: nat := 1 to hops
      invariant |found| == h - 1
      invariant currentSeeds == Current(seedIds, found) && accumulated == Known(seedIds, found)
      invariant AreHops(world, seedIds, found)
      invariant HonoursLimit(world) ==>
                |accumulated| <= Max(|ToSet(seedIds)|, MAX_TOTAL_SEEDS + TOP_K_PER_HOP * VECTOR_TOP_K)
    {
      var step, next := NextHop(world, h, currentSeeds, accumulated, seedIds, found);
      match step
      case Fail =>
        return Failure, found;
      case Stop =>
        break;
      case Go(nextSeeds, grown) =>
        accumulated, currentSeeds, found := grown, nextSeeds, next;
    }
    var finalSeeds := SortedIds(accumulated);
    SizeOfDistinct(finalSeeds);
    return Final(finalSeeds), found;
  }

  function Hops(multiHopCount: int): (hops: int)
    ensures if multiHopCount > 0 then hops == multiHopCount else hops == 2
  {
    if multiHopCount <= 0 then 2 else multiHopCount
  }
}
