/**
 Greedy clustering (src/internal/compression/cluster.go): the first entity left in the
 pool seeds a group and absorbs everything similar to it.  Entities are indices;
 `similarity` stands for the cosine of their vectors.
 */
module GreedyCluster {
  import opened Common

  datatype Config = Config(similarity: (nat, nat) -> real, threshold: real, minSize: int, maxSize: int)

  predicate Similar(cfg: Config, seed: nat, x: nat) {
    cfg.similarity(seed, x) >= cfg.threshold
  }

  /** The elements of `s` that are (or are not) similar to the seed, in order. */
  function Select(cfg: Config, seed: nat, s: seq<nat>, similar: bool): (r: seq<nat>)
    ensures |r| <= |s| && forall x :: x in r <==> x in s && Similar(cfg, seed, x) == similar
  {
    if s == [] then []
    else
      var last := s[|s| - 1];
      Select(cfg, seed, s[..|s| - 1], similar) + if Similar(cfg, seed, last) == similar then [last] else []
  }

  /** The groups before any is dropped or cut: seed first, then what it absorbs. */
  function Groups(cfg: Config, pool: seq<nat>): seq<seq<nat>>
    decreases |pool|
  {
    if pool == [] then []
    else
      [[pool[0]] + Select(cfg, pool[0], pool[1..], true)] + Groups(cfg, Select(cfg, pool[0], pool[1..], false))
  }

  /** Small groups are dropped, large ones cut. */
  function Kept(cfg: Config, groups: seq<seq<nat>>): seq<seq<nat>>
    requires cfg.maxSize >= 0
  {
    if groups == [] then []
    else
      var rest := Kept(cfg, groups[1..]);
      if |groups[0]| < cfg.minSize then rest
      else if |groups[0]| > cfg.maxSize then [groups[0][..cfg.maxSize]] + rest
      else [groups[0]] + rest
  }

  function AllIndices(n: nat): (s: seq<nat>)
    ensures |s| == n && forall i | 0 <= i < n :: s[i] == i
  {
    seq(n, i => i)
  }

  /** One pass over the pool: what the seed absorbs, and what remains. */
  method Absorb(cfg: Config, seed: nat, rest: seq<nat>) returns (cluster: seq<nat>, remaining: seq<nat>)
    ensures cluster == [seed] + Select(cfg, seed, rest, true)
    ensures remaining == Select(cfg, seed, rest, false)
  {
    cluster, remaining := [seed], [];
    for i := 0 to |rest|
      invariant cluster == [seed] + Select(cfg, seed, rest[..i], true)
      invariant remaining == Select(cfg, seed, rest[..i], false)
    {
      assert rest[..i + 1][..i] == rest[..i];
      if cfg.similarity(seed, rest[i]) >= cfg.threshold {
        cluster := cluster + [rest[i]];
      } else {
        remaining := remaining + [rest[i]];
      }
    }
    assert rest[..|rest|] == rest;
  }

  lemma KeptOfCons(cfg: Config, g: seq<nat>, rest: seq<seq<nat>>)
    requires cfg.maxSize >= 0
    ensures Kept(cfg, [g] + rest) ==
            (if |g| < cfg.minSize then [] else if |g| > cfg.maxSize then [g[..cfg.maxSize]] else [g]) + Kept(cfg, rest)
  {
    assert ([g] + rest)[1..] == rest;
  }

  /** `greedyCluster`.  A negative maximum is refused: the slice expression would panic. */
  method Cluster(cfg: Config, n: nat) returns (clusters: seq<seq<nat>>)
    requires cfg.maxSize >= 0
    ensures clusters == Kept(cfg, Groups(cfg, AllIndices(n)))
  {
    var pool := AllIndices(n);
    clusters := [];
    while |pool| > 0
      invariant clusters + Kept(cfg, Groups(cfg, pool)) == Kept(cfg, Groups(cfg, AllIndices(n)))
      decreases |pool|
    {
      var seed := pool[0];
      var cluster, remaining := Absorb(cfg, seed, pool[1..]);
      assert Groups(cfg, pool) == [cluster] + Groups(cfg, remaining);
      KeptOfCons(cfg, cluster, Groups(cfg, remaining));
      pool := remaining;
      if |cluster| >= cfg.minSize {
        if |cluster| > cfg.maxSize {
          cluster := cluster[..cfg.maxSize];
        }
        clusters := clusters + [cluster];
      }
    }
  }

  // ---------------------------------------------------------------- what the groups are

  lemma {:induction false} SelectKeepsDistinct(cfg: Config, seed: nat, s: seq<nat>, similar: bool)
    requires NoDup(s)
    ensures NoDup(Select(cfg, seed, s, similar))
  {
    if s != [] {
      var init := s[..|s| - 1];
      SelectKeepsDistinct(cfg, seed, init, similar);
      var r := Select(cfg, seed, init, similar);
      assert forall i | 0 <= i < |r| :: r[i] in r;
    }
  }

  ghost predicate GroupOk(cfg: Config, g: seq<nat>) {
    && g != [] && NoDup(g)
    && forall i | 0 < i < |g| :: cfg.similarity(g[0], g[i]) >= cfg.threshold
  }

  /** No member of the later group is in the earlier one or similar to its seed. */
  ghost predicate Separate(cfg: Config, earlier: seq<nat>, later: seq<nat>) {
    && earlier != []
    && forall x | x in later :: x !in earlier && cfg.similarity(earlier[0], x) < cfg.threshold
  }

  ghost predicate GroupsOk(cfg: Config, groups: seq<seq<nat>>) {
    && (forall k | 0 <= k < |groups| :: GroupOk(cfg, groups[k]))
    && (forall k, l | 0 <= k < l < |groups| :: Separate(cfg, groups[k], groups[l]))
  }

  ghost predicate InGroup(groups: seq<seq<nat>>, x: nat) {
    exists k :: 0 <= k < |groups| && x in groups[k]
  }

  lemma InGroupOfCons(first: seq<nat>, others: seq<seq<nat>>, x: nat)
    ensures InGroup([first] + others, x) <==> x in first || InGroup(others, x)
  {
    var groups := [first] + others;
    if x in first {
      assert x in groups[0];
    }
    if InGroup(others, x) {
      var k :| 0 <= k < |others| && x in others[k];
      assert x in groups[k + 1];
    }
  }

  /** The groups hold exactly the pool. */
  lemma {:induction false} GroupsHoldPool(cfg: Config, pool: seq<nat>, x: nat)
    ensures InGroup(Groups(cfg, pool), x) <==> x in pool
    decreases |pool|
  {
    if pool != [] {
      var seed, rest := pool[0], pool[1..];
      var remaining := Select(cfg, seed, rest, false);
      GroupsHoldPool(cfg, remaining, x);
      InGroupOfCons([seed] + Select(cfg, seed, rest, true), Groups(cfg, remaining), x);
      assert pool == [seed] + rest;
    }
  }

  lemma DistinctTail(pool: seq<nat>)
    requires pool != [] && NoDup(pool)
    ensures pool[0] !in pool[1..] && NoDup(pool[1..])
  {
    var rest := pool[1..];
    forall i | 0 <= i < |rest|
      ensures rest[i] != pool[0]
    {
      assert rest[i] == pool[i + 1];
    }
  }

  lemma FirstGroupOk(cfg: Config, pool: seq<nat>)
    requires pool != [] && NoDup(pool)
    ensures GroupOk(cfg, [pool[0]] + Select(cfg, pool[0], pool[1..], true))
  {
    var absorbed := Select(cfg, pool[0], pool[1..], true);
    DistinctTail(pool);
    SelectKeepsDistinct(cfg, pool[0], pool[1..], true);
    assert forall i | 0 <= i < |absorbed| :: absorbed[i] in absorbed;
  }

  lemma SeparateFromRest(cfg: Config, pool: seq<nat>, l: nat)
    requires pool != [] && NoDup(pool)
    requires l < |Groups(cfg, Select(cfg, pool[0], pool[1..], false))|
    ensures Separate(cfg, [pool[0]] + Select(cfg, pool[0], pool[1..], true),
                     Groups(cfg, Select(cfg, pool[0], pool[1..], false))[l])
  {
    var remaining := Select(cfg, pool[0], pool[1..], false);
    var others := Groups(cfg, remaining);
    DistinctTail(pool);
    forall x | x in others[l]
      ensures x in remaining
    {
      assert InGroup(others, x);
      GroupsHoldPool(cfg, remaining, x);
    }
  }

  /** Each group is similar to its seed, and later groups are not. */
  lemma {:induction false} GroupsAreSeparate(cfg: Config, pool: seq<nat>)
    requires NoDup(pool)
    ensures GroupsOk(cfg, Groups(cfg, pool))
    decreases |pool|
  {
    if pool != [] {
      var remaining := Select(cfg, pool[0], pool[1..], false);
      var first, others := [pool[0]] + Select(cfg, pool[0], pool[1..], true), Groups(cfg, remaining);
      DistinctTail(pool);
      SelectKeepsDistinct(cfg, pool[0], pool[1..], false);
      GroupsAreSeparate(cfg, remaining);
      FirstGroupOk(cfg, pool);
      forall l | 0 <= l < |others|
        ensures Separate(cfg, first, others[l])
      {
        SeparateFromRest(cfg, pool, l);
      }
      GroupsOkOfCons(cfg, first, others);
    }
  }

  lemma GroupsOkOfCons(cfg: Config, first: seq<nat>, others: seq<seq<nat>>)
    requires GroupOk(cfg, first) && GroupsOk(cfg, others)
    requires forall l | 0 <= l < |others| :: Separate(cfg, first, others[l])
    ensures GroupsOk(cfg, [first] + others)
  {
  }

  // ---------------------------------------------------------------- what the clusters are

  /** A cluster is a group, possibly cut, within the size limits. */
  ghost predicate CutFrom(cfg: Config, c: seq<nat>, g: seq<nat>) {
    c <= g && |c| <= cfg.maxSize && |g| >= cfg.minSize && (c == g || |c| == cfg.maxSize)
  }

  /** The clusters come from the groups `from[0] < from[1] < ...`. */
  lemma {:induction false} KeptComeFromGroups(cfg: Config, groups: seq<seq<nat>>) returns (from: seq<nat>)
    requires cfg.maxSize >= 0
    ensures |from| == |Kept(cfg, groups)|
    ensures forall i | 0 <= i < |from| :: from[i] < |groups| && CutFrom(cfg, Kept(cfg, groups)[i], groups[from[i]])
    ensures forall i, j | 0 <= i < j < |from| :: from[i] < from[j]
  {
    from := [];
    if groups != [] {
      var rest := KeptComeFromGroups(cfg, groups[1..]);
      var shifted := seq(|rest|, i requires 0 <= i < |rest| => rest[i] + 1);
      from := if |groups[0]| < cfg.minSize then shifted else [0] + shifted;
    }
  }

  /** Every large enough group gives a cluster. */
  lemma {:induction false} LargeGroupIsKept(cfg: Config, groups: seq<seq<nat>>, k: nat) returns (i: nat)
    requires cfg.maxSize >= 0 && k < |groups| && |groups[k]| >= cfg.minSize
    ensures i < |Kept(cfg, groups)| && CutFrom(cfg, Kept(cfg, groups)[i], groups[k])
  {
    if k == 0 {
      i := 0;
    } else {
      i := LargeGroupIsKept(cfg, groups[1..], k - 1);
      i := if |groups[0]| < cfg.minSize then i else i + 1;
    }
  }

  /**
   The clusters are disjoint and within the size limits; every member is similar to its
   own seed, and no member of a later cluster is similar to an earlier seed.  A maximum of
   0 leaves clusters without members.
   */
  lemma ClustersAreGreedy(cfg: Config, n: nat)
    requires cfg.maxSize >= 0
    ensures var clusters := Kept(cfg, Groups(cfg, AllIndices(n)));
            && (forall i | 0 <= i < |clusters| ::
                  && |clusters[i]| <= cfg.maxSize && (cfg.minSize <= cfg.maxSize ==> |clusters[i]| >= cfg.minSize)
                  && (cfg.maxSize > 0 ==> GroupOk(cfg, clusters[i])) && forall x | x in clusters[i] :: x < n)
            && (forall i, j | 0 <= i < j < |clusters| && cfg.maxSize > 0 :: Separate(cfg, clusters[i], clusters[j]))
  {
    var groups := Groups(cfg, AllIndices(n));
    var clusters := Kept(cfg, groups);
    GroupsAreSeparate(cfg, AllIndices(n));
    var from := KeptComeFromGroups(cfg, groups);
    forall i | 0 <= i < |clusters|
      ensures cfg.maxSize > 0 ==> GroupOk(cfg, clusters[i])
      ensures clusters[i] <= groups[from[i]] && forall x | x in clusters[i] :: x < n && x in groups[from[i]]
    {
      assert CutFrom(cfg, clusters[i], groups[from[i]]) && GroupOk(cfg, groups[from[i]]);
      forall x | x in clusters[i]
        ensures x < n && x in groups[from[i]]
      {
        assert x in groups[from[i]];
        assert InGroup(groups, x);
        GroupsHoldPool(cfg, AllIndices(n), x);
      }
    }
    forall i, j | 0 <= i < j < |clusters| && cfg.maxSize > 0
      ensures Separate(cfg, clusters[i], clusters[j])
    {
      assert Separate(cfg, groups[from[i]], groups[from[j]]) && GroupOk(cfg, clusters[i]);
      assert forall x | x in clusters[i] :: x in groups[from[i]];
    }
  }

  lemma {:induction false} GroupsAreSmall(cfg: Config, pool: seq<nat>)
    ensures forall k | 0 <= k < |Groups(cfg, pool)| :: |Groups(cfg, pool)[k]| <= |pool|
    decreases |pool|
  {
    if pool != [] {
      GroupsAreSmall(cfg, Select(cfg, pool[0], pool[1..], false));
    }
  }

  lemma {:induction false} SmallGroupsAreDropped(cfg: Config, groups: seq<seq<nat>>)
    requires cfg.maxSize >= 0 && forall k | 0 <= k < |groups| :: |groups[k]| < cfg.minSize
    ensures Kept(cfg, groups) == []
  {
    if groups != [] {
      SmallGroupsAreDropped(cfg, groups[1..]);
    }
  }

  /** The early return for fewer entities than a cluster needs changes no answer. */
  lemma TooFewGiveNoCluster(cfg: Config, n: nat)
    requires cfg.maxSize >= 0 && n < cfg.minSize
    ensures Kept(cfg, Groups(cfg, AllIndices(n))) == []
  {
    GroupsAreSmall(cfg, AllIndices(n));
    SmallGroupsAreDropped(cfg, Groups(cfg, AllIndices(n)));
  }
}
