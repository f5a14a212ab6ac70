/**
 Clustering of redundant entities (src/internal/consolidation/service.go): a union-find
 with path compression over an array, whose groups are the connected components.
 Clusters hold indices into the list of entities, in list order.
 */
module Clustering {
  import opened Common

  type Vec = seq<real>

  datatype Entity = Entity(id: Id, embedding: Vec)

  /** The arguments of one clustering call; `similarity` stands for the cosine of two vectors. */
  datatype Input = Input(
    entities: seq<Entity>, similarity: (Vec, Vec) -> real, threshold: real, edges: set<string>)

  function EdgeKey(source: Id, target: Id): string {
    source + "->" + target
  }

  /** The test made for the pair `i < j`. */
  predicate Redundant(input: Input, i: nat, j: nat)
    requires i < |input.entities| && j < |input.entities|
  {
    EdgeKey(input.entities[i].id, input.entities[j].id) in input.edges || AreSimilar(input, i, j)
  }

  predicate AreSimilar(input: Input, i: nat, j: nat)
    requires i < |input.entities| && j < |input.entities|
  {
    var a, b := input.entities[i].embedding, input.entities[j].embedding;
    |a| > 0 && |b| > 0 && input.similarity(a, b) >= input.threshold
  }

  ghost predicate Linked(input: Input, x: nat, y: nat) {
    && x < |input.entities| && y < |input.entities|
    && ((x < y && Redundant(input, x, y)) || (y < x && Redundant(input, y, x)))
  }

  /** The pairs the tests join. */
  ghost function Links(input: Input): (links: set<(nat, nat)>)
    ensures forall x: nat, y: nat :: (x, y) in links <==> Linked(input, x, y)
  {
    set x: nat, y: nat | x < |input.entities| && y < |input.entities| && Linked(input, x, y) :: (x, y)
  }

  // ---------------------------------------------------------------- connectedness

  ghost predicate IsSymmetric(links: set<(nat, nat)>) {
    forall x: nat, y: nat | (x, y) in links :: (y, x) in links
  }

  ghost predicate IsPath(links: set<(nat, nat)>, path: seq<nat>) {
    && path != []
    && (forall i | 0 < i < |path| :: (path[i - 1], path[i]) in links)
  }

  ghost predicate Connected(links: set<(nat, nat)>, x: nat, y: nat) {
    exists path :: IsPath(links, path) && path[0] == x && path[|path| - 1] == y
  }

  lemma ConnectedReflexive(links: set<(nat, nat)>, x: nat)
    ensures Connected(links, x, x)
  {
    assert IsPath(links, [x]);
  }

  lemma ConnectedStep(links: set<(nat, nat)>, x: nat, y: nat)
    requires (x, y) in links
    ensures Connected(links, x, y)
  {
    assert IsPath(links, [x, y]);
  }

  lemma ConnectedTransitive(links: set<(nat, nat)>, x: nat, y: nat, z: nat)
    requires Connected(links, x, y) && Connected(links, y, z)
    ensures Connected(links, x, z)
  {
    var p :| IsPath(links, p) && p[0] == x && p[|p| - 1] == y;
    var q :| IsPath(links, q) && q[0] == y && q[|q| - 1] == z;
    var path := p + q[1..];
    forall i | 0 < i < |path|
      ensures (path[i - 1], path[i]) in links
    {
      if i < |p| {
        assert (p[i - 1], p[i]) in links;
      } else {
        assert (q[i - |p|], q[i - |p| + 1]) in links;
      }
    }
    assert path[|path| - 1] == z;
  }

  lemma ConnectedSymmetric(links: set<(nat, nat)>, x: nat, y: nat)
    requires IsSymmetric(links) && Connected(links, x, y)
    ensures Connected(links, y, x)
  {
    var p :| IsPath(links, p) && p[0] == x && p[|p| - 1] == y;
    var path := seq(|p|, i requires 0 <= i < |p| => p[|p| - 1 - i]);
    forall i | 0 < i < |path|
      ensures (path[i - 1], path[i]) in links
    {
      assert (p[|p| - 1 - i], p[|p| - 1 - i + 1]) in links;
    }
    assert IsPath(links, path);
  }

  lemma PathPrefix(links: set<(nat, nat)>, path: seq<nat>)
    requires IsPath(links, path) && |path| > 1
    ensures IsPath(links, path[..|path| - 1]) && (path[|path| - 2], path[|path| - 1]) in links
  {
    var init := path[..|path| - 1];
    forall i | 0 < i < |init|
      ensures (init[i - 1], init[i]) in links
    {
      assert (path[i - 1], path[i]) in links;
    }
  }

  lemma {:induction false} PathConnects(links: set<(nat, nat)>, more: set<(nat, nat)>, path: seq<nat>)
    requires IsPath(links, path) && forall x: nat, y: nat | (x, y) in links :: Connected(more, x, y)
    ensures Connected(more, path[0], path[|path| - 1])
  {
    if |path| == 1 {
      ConnectedReflexive(more, path[0]);
    } else {
      var init := path[..|path| - 1];
      PathPrefix(links, path);
      PathConnects(links, more, init);
      ConnectedTransitive(more, path[0], path[|path| - 2], path[|path| - 1]);
    }
  }

  /** What joins every linked pair joins every connected pair. */
  lemma ConnectedWithin(links: set<(nat, nat)>, more: set<(nat, nat)>, x: nat, y: nat)
    requires (forall x: nat, y: nat | (x, y) in links :: Connected(more, x, y)) && Connected(links, x, y)
    ensures Connected(more, x, y)
  {
    var path :| IsPath(links, path) && path[0] == x && path[|path| - 1] == y;
    PathConnects(links, more, path);
  }

  // ---------------------------------------------------------------- the parent array

  ghost predicate NodeOk(parent: seq<nat>, root: seq<nat>, rank: seq<nat>, x: nat)
    requires |parent| == |root| == |rank| && x < |parent|
  {
    && parent[x] < |parent| && root[x] < |parent|
    && root[parent[x]] == root[x] && root[root[x]] == root[x]
    && (parent[x] == x <==> root[x] == x)
    && (parent[x] != x ==> rank[parent[x]] < rank[x])
    && (root[x] != x ==> rank[root[x]] < rank[x])
  }

  /**
   `parent` is a forest whose trees are labelled by `root`; `rank` decreases towards the
   root, so following parents terminates.
   */
  ghost predicate Forest(parent: seq<nat>, root: seq<nat>, rank: seq<nat>) {
    && |parent| == |root| == |rank|
    && forall x | 0 <= x < |parent| :: NodeOk(parent, root, rank, x)
  }

  /** The labels of a forest are determined by its parents. */
  lemma {:induction false} RootsAreDetermined(parent: seq<nat>, root: seq<nat>, rank: seq<nat>,
                                              root': seq<nat>, rank': seq<nat>, x: nat)
    requires Forest(parent, root, rank) && Forest(parent, root', rank') && x < |parent|
    ensures root[x] == root'[x]
    decreases rank[x]
  {
    assert NodeOk(parent, root, rank, x) && NodeOk(parent, root', rank', x);
    if parent[x] != x {
      RootsAreDetermined(parent, root, rank, root', rank', parent[x]);
    }
  }

  /** The class of `x` joins the class of `y`. */
  ghost function Merged(root: seq<nat>, x: nat, y: nat): seq<nat>
    requires x < |root| && y < |root|
  {
    seq(|root|, i requires 0 <= i < |root| => if root[i] == root[x] then root[y] else root[i])
  }

  /** Pointing a node at its root keeps the forest and every class. */
  lemma CompressionKeepsForest(parent: seq<nat>, root: seq<nat>, rank: seq<nat>, x: nat)
    requires Forest(parent, root, rank) && x < |parent|
    ensures root[x] < |parent| && Forest(parent[x := root[x]], root, rank)
  {
    assert NodeOk(parent, root, rank, x);
    var after := parent[x := root[x]];
    forall y | 0 <= y < |after|
      ensures NodeOk(after, root, rank, y)
    {
      assert NodeOk(parent, root, rank, y);
    }
  }

  /** The ranks after the root of `a` is put below the root of `b`. */
  ghost function Lifted(root: seq<nat>, rank: seq<nat>, a: nat, b: nat): seq<nat>
    requires |root| == |rank| && a < |root| && b < |root| && root[b] < |root|
  {
    seq(|rank|, i requires 0 <= i < |rank| => if root[i] == root[a] then rank[i] + rank[root[b]] + 1 else rank[i])
  }

  lemma LinkKeepsForest(parent: seq<nat>, root: seq<nat>, rank: seq<nat>, a: nat, b: nat)
    requires Forest(parent, root, rank) && a < |parent| && b < |parent|
    requires root[a] != root[b] && root[a] < |parent| && root[b] < |parent|
    ensures Forest(parent[root[a] := root[b]], Merged(root, a, b), Lifted(root, rank, a, b))
  {
    var after, root', rank' := parent[root[a] := root[b]], Merged(root, a, b), Lifted(root, rank, a, b);
    assert NodeOk(parent, root, rank, a) && NodeOk(parent, root, rank, b);
    forall y | 0 <= y < |after|
      ensures NodeOk(after, root', rank', y)
    {
      assert NodeOk(parent, root, rank, y);
    }
  }

  /** Finds the root of `x` and compresses its path; no element changes class. */
  method Find(parent: array<nat>, x: nat, ghost root: seq<nat>, ghost rank: seq<nat>) returns (r: nat)
    requires Forest(parent[..], root, rank) && x < parent.Length
    modifies parent
    ensures Forest(parent[..], root, rank)
    ensures r == root[x] == parent[x]
    decreases rank[x]
  {
    assert NodeOk(parent[..], root, rank, x);
    if parent[x] != x {
      var above := Find(parent, parent[x], root, rank);
      CompressionKeepsForest(parent[..], root, rank, x);
      ghost var compressed := parent[..][x := above];
      parent[x] := above;
      assert parent[..] == compressed;
    }
    r := parent[x];
  }

  method Union(parent: array<nat>, a: nat, b: nat, ghost root: seq<nat>, ghost rank: seq<nat>)
    returns (ghost root': seq<nat>, ghost rank': seq<nat>)
    requires Forest(parent[..], root, rank) && a < parent.Length && b < parent.Length
    modifies parent
    ensures Forest(parent[..], root', rank')
    ensures root' == Merged(root, a, b)
  {
    var ra := Find(parent, a, root, rank);
    var rb := Find(parent, b, root, rank);
    root', rank' := Merged(root, a, b), rank;
    assert NodeOk(parent[..], root, rank, a) && NodeOk(parent[..], root, rank, b);
    if ra != rb {
      LinkKeepsForest(parent[..], root, rank, a, b);
      rank' := Lifted(root, rank, a, b);
      ghost var linked := parent[..][ra := rb];
      parent[ra] := rb;
      assert parent[..] == linked;
    } else {
      assert root' == root;
    }
  }

  // ---------------------------------------------------------------- linking all pairs

  ghost predicate ClassesAreConnected(input: Input, root: seq<nat>) {
    forall x, y | 0 <= x < |root| && 0 <= y < |root| && root[x] == root[y] :: Connected(Links(input), x, y)
  }

  /** The pairs tested before `(i, j)` that are redundant share a class. */
  ghost predicate PairsJoined(input: Input, root: seq<nat>, i: nat, j: nat)
    requires |root| == |input.entities|
  {
    forall a, b | 0 <= a < b < |root| && (a < i || (a == i && b < j)) && Redundant(input, a, b) :: root[a] == root[b]
  }

  lemma MergeKeepsConnection(input: Input, root: seq<nat>, i: nat, j: nat)
    requires |root| == |input.entities| && i < j < |root| && Redundant(input, i, j)
    requires ClassesAreConnected(input, root)
    ensures ClassesAreConnected(input, Merged(root, i, j))
  {
    var root' := Merged(root, i, j);
    ConnectedStep(Links(input), i, j);
    ConnectedSymmetric(Links(input), i, j);
    forall x, y | 0 <= x < |root| && 0 <= y < |root| && root'[x] == root'[y]
      ensures Connected(Links(input), x, y)
    {
      if root[x] != root[y] {
        if root[x] == root[i] {
          ConnectedTransitive(Links(input), x, i, j);
          ConnectedTransitive(Links(input), x, j, y);
        } else {
          ConnectedTransitive(Links(input), x, j, i);
          ConnectedTransitive(Links(input), x, i, y);
        }
      }
    }
  }

  method LinkPairs(input: Input, parent: array<nat>) returns (ghost root: seq<nat>, ghost rank: seq<nat>)
    requires parent.Length == |input.entities|
    modifies parent
    ensures Forest(parent[..], root, rank) && |root| == |input.entities|
    ensures ClassesAreConnected(input, root) && PairsJoined(input, root, |root|, 0)
  {
    var n := parent.Length;
    for i := 0 to n
      invariant forall x | 0 <= x < i :: parent[x] == x
    {
      parent[i] := i;
    }
    root := seq(n, x => x);
    rank := seq(n, x => 0);
    forall x: nat | x < n
      ensures Connected(Links(input), x, x)
    {
      ConnectedReflexive(Links(input), x);
    }
    for i := 0 to n
      invariant Forest(parent[..], root, rank) && |root| == n
      invariant ClassesAreConnected(input, root) && PairsJoined(input, root, i, 0)
    {
      for j := i + 1 to n
        invariant Forest(parent[..], root, rank) && |root| == n
        invariant ClassesAreConnected(input, root) && PairsJoined(input, root, i, j)
      {
        if Redundant(input, i, j) {
          MergeKeepsConnection(input, root, i, j);
          root, rank := Union(parent, i, j, root, rank);
        }
      }
    }
  }

  lemma {:induction false} PathStaysInClass(input: Input, root: seq<nat>, path: seq<nat>)
    requires |root| == |input.entities| && PairsJoined(input, root, |root|, 0)
    requires IsPath(Links(input), path) && path[0] < |root|
    ensures path[|path| - 1] < |root| && root[path[0]] == root[path[|path| - 1]]
  {
    if |path| > 1 {
      var init := path[..|path| - 1];
      PathPrefix(Links(input), path);
      PathStaysInClass(input, root, init);
      assert Linked(input, path[|path| - 2], path[|path| - 1]);
    }
  }

  /** The classes of the union-find are the connected components. */
  lemma ClassesAreComponents(input: Input, root: seq<nat>, x: nat, y: nat)
    requires |root| == |input.entities| && ClassesAreConnected(input, root) && PairsJoined(input, root, |root|, 0)
    requires x < |root| && y < |root|
    ensures root[x] == root[y] <==> Connected(Links(input), x, y)
  {
    if Connected(Links(input), x, y) {
      var path :| IsPath(Links(input), path) && path[0] == x && path[|path| - 1] == y;
      PathStaysInClass(input, root, path);
    }
  }

  // ---------------------------------------------------------------- grouping

  /** The indices below `k` with label `r`, in order. */
  ghost function Members(root: seq<nat>, r: nat, k: nat): seq<nat>
    requires k <= |root|
  {
    if k == 0 then []
    else Members(root, r, k - 1) + if root[k - 1] == r then [k - 1] else []
  }

  lemma {:induction false} MembersAreLabelled(root: seq<nat>, r: nat, k: nat)
    requires k <= |root|
    ensures var m := Members(root, r, k);
            && (forall x: nat :: x in m <==> x < k && root[x] == r)
            && (forall i, j | 0 <= i < j < |m| :: m[i] < m[j])
  {
    if k > 0 {
      MembersAreLabelled(root, r, k - 1);
      var init := Members(root, r, k - 1);
      assert forall i | 0 <= i < |init| :: init[i] in init;
    }
  }

  /** The groups gathered from the indices below `k`. */
  ghost predicate GroupsBelow(groups: map<nat, seq<nat>>, root: seq<nat>, k: nat)
    requires k <= |root|
  {
    forall r: nat :: if r in groups then groups[r] == Members(root, r, k) != [] else Members(root, r, k) == []
  }

  function Appended(groups: map<nat, seq<nat>>, r: nat, x: nat): map<nat, seq<nat>> {
    groups[r := (if r in groups then groups[r] else []) + [x]]
  }

  lemma GroupsGrow(groups: map<nat, seq<nat>>, root: seq<nat>, k: nat)
    requires k < |root| && GroupsBelow(groups, root, k)
    ensures GroupsBelow(Appended(groups, root[k], k), root, k + 1)
  {
  }

  method GroupByRoot(parent: array<nat>, ghost root: seq<nat>, ghost rank: seq<nat>)
    returns (groups: map<nat, seq<nat>>)
    requires Forest(parent[..], root, rank)
    modifies parent
    ensures GroupsBelow(groups, root, |root|)
  {
    groups := map[];
    for i := 0 to parent.Length
      invariant Forest(parent[..], root, rank) && |root| == parent.Length
      invariant GroupsBelow(groups, root, i)
    {
      var r := Find(parent, i, root, rank);
      GroupsGrow(groups, root, i);
      groups := Appended(groups, r, i);
    }
  }

  ghost predicate SizesDescend(clusters: seq<seq<nat>>) {
    forall i, j | 0 <= i < j < |clusters| :: |clusters[i]| >= |clusters[j]|
  }

  /** Position of a new group in a list sorted by descending size. */
  method Position(clusters: seq<seq<nat>>, size: nat) returns (p: nat)
    requires SizesDescend(clusters)
    ensures p <= |clusters|
    ensures forall i | 0 <= i < p :: |clusters[i]| >= size
    ensures forall i | p <= i < |clusters| :: |clusters[i]| <= size
  {
    p := 0;
    while p < |clusters| && |clusters[p]| >= size
      invariant p <= |clusters|
      invariant forall i | 0 <= i < p :: |clusters[i]| >= size
    {
      p := p + 1;
    }
  }

  function Inserted<T>(s: seq<T>, p: nat, x: T): (r: seq<T>)
    requires p <= |s|
    ensures |r| == |s| + 1 && r[p] == x
    ensures forall i | 0 <= i < |r| && i != p :: r[i] == s[if i < p then i else i - 1]
  {
    s[..p] + [x] + s[p..]
  }

  /** `clusters` lists groups of two or more under their labels. */
  ghost predicate ListsGroups(groups: map<nat, seq<nat>>, clusters: seq<seq<nat>>, labels: seq<nat>) {
    && |labels| == |clusters|
    && forall i | 0 <= i < |clusters| ::
         labels[i] in groups && clusters[i] == groups[labels[i]] && |clusters[i]| >= 2
  }

  lemma InsertionKeepsOrder(clusters: seq<seq<nat>>, p: nat, g: seq<nat>)
    requires SizesDescend(clusters) && p <= |clusters|
    requires forall i | 0 <= i < p :: |clusters[i]| >= |g|
    requires forall i | p <= i < |clusters| :: |clusters[i]| <= |g|
    ensures SizesDescend(Inserted(clusters, p, g))
  {
    var after := Inserted(clusters, p, g);
    forall i, j | 0 <= i < j < |after|
      ensures |after[i]| >= |after[j]|
    {
      var i', j' := if i < p then i else i - 1, if j < p then j else j - 1;
      if i != p && j != p {
        assert |clusters[i']| >= |clusters[j']|;
      }
    }
  }

  lemma InsertionKeepsDistinct(labels: seq<nat>, p: nat, r: nat)
    requires NoDup(labels) && r !in labels && p <= |labels|
    ensures NoDup(Inserted(labels, p, r))
    ensures forall x: nat :: x in Inserted(labels, p, r) <==> x == r || x in labels
  {
    var after := Inserted(labels, p, r);
    assert labels == labels[..p] + labels[p..];
    forall i, j | 0 <= i < j < |after|
      ensures after[i] != after[j]
    {
      var i', j' := if i < p then i else i - 1, if j < p then j else j - 1;
      if i == p {
        assert labels[j'] in labels;
      } else if j == p {
        assert labels[i'] in labels;
      } else {
        assert labels[i'] != labels[j'];
      }
    }
  }

  /** The groups of two or more, larger ones first; map iteration is in no particular order. */
  method LargeGroups(groups: map<nat, seq<nat>>) returns (clusters: seq<seq<nat>>, ghost labels: seq<nat>)
    ensures ListsGroups(groups, clusters, labels) && NoDup(labels) && SizesDescend(clusters)
    ensures forall r | r in groups && |groups[r]| >= 2 :: r in labels
  {
    clusters, labels := [], [];
    var todo := groups.Keys;
    while todo != {}
      invariant todo <= groups.Keys
      invariant ListsGroups(groups, clusters, labels) && NoDup(labels) && SizesDescend(clusters)
      invariant forall r | r in labels :: r !in todo
      invariant forall r | r in groups && |groups[r]| >= 2 :: r in todo || r in labels
      decreases todo
    {
      var r :| r in todo;
      todo := todo - {r};
      if |groups[r]| >= 2 {
        var p := Position(clusters, |groups[r]|);
        InsertionKeepsOrder(clusters, p, groups[r]);
        InsertionKeepsDistinct(labels, p, r);
        clusters, labels := Inserted(clusters, p, groups[r]), Inserted(labels, p, r);
      }
    }
  }

  // ---------------------------------------------------------------- the clustering call

  ghost predicate InCluster(clusters: seq<seq<nat>>, x: nat) {
    exists k :: 0 <= k < |clusters| && x in clusters[k]
  }

  /** A whole connected component of two or more, in list order. */
  ghost predicate IsComponent(links: set<(nat, nat)>, n: nat, cluster: seq<nat>) {
    && |cluster| >= 2
    && (forall i, j | 0 <= i < j < |cluster| :: cluster[i] < cluster[j])
    && (forall x | x in cluster :: x < n)
    && (forall x, y: nat | x in cluster && y < n :: y in cluster <==> Connected(links, x, y))
  }

  lemma LabelledGroupIsComponent(input: Input, root: seq<nat>, r: nat)
    requires |root| == |input.entities| && ClassesAreConnected(input, root) && PairsJoined(input, root, |root|, 0)
    requires |Members(root, r, |root|)| >= 2
    ensures IsComponent(Links(input), |input.entities|, Members(root, r, |root|))
  {
    var cluster := Members(root, r, |root|);
    MembersAreLabelled(root, r, |root|);
    forall x, y: nat | x in cluster && y < |root|
      ensures y in cluster <==> Connected(Links(input), x, y)
    {
      ClassesAreComponents(input, root, x, y);
    }
  }

  lemma TwoMembers(root: seq<nat>, x: nat, y: nat)
    requires x < |root| && y < |root| && x != y && root[x] == root[y]
    ensures x in Members(root, root[x], |root|) && |Members(root, root[x], |root|)| >= 2
  {
    MembersAreLabelled(root, root[x], |root|);
    var m := Members(root, root[x], |root|);
    assert x in m && y in m;
    var i :| 0 <= i < |m| && m[i] == x;
    var j :| 0 <= j < |m| && m[j] == y;
    assert i != j;
  }

  lemma PartnersShareGroup(input: Input, root: seq<nat>, x: nat, y: nat)
    requires |root| == |input.entities| && ClassesAreConnected(input, root) && PairsJoined(input, root, |root|, 0)
    requires x < |root| && y < |root| && x != y && Connected(Links(input), x, y)
    ensures x in Members(root, root[x], |root|) && |Members(root, root[x], |root|)| >= 2
  {
    ClassesAreComponents(input, root, x, y);
    TwoMembers(root, x, y);
  }

  /**
   The clusters are exactly the connected components of size two and more: each is a
   whole component, no two share a member, and nobody with a partner is left out.
   */
  method ClusterEntitiesWithEdges(input: Input) returns (clusters: seq<seq<nat>>)
    ensures SizesDescend(clusters)
    ensures forall k | 0 <= k < |clusters| :: IsComponent(Links(input), |input.entities|, clusters[k])
    ensures forall k, l, x: nat | 0 <= k < l < |clusters| && x in clusters[k] :: x !in clusters[l]
    ensures forall x: nat, y: nat |
              x != y && x < |input.entities| && y < |input.entities| && Connected(Links(input), x, y) ::
                InCluster(clusters, x)
  {
    var n := |input.entities|;
    if n == 0 {
      return [];
    }
    var parent := new nat[n];
    ghost var root, rank := LinkPairs(input, parent);
    var groups := GroupByRoot(parent, root, rank);
    ghost var labels;
    clusters, labels := LargeGroups(groups);
    forall k | 0 <= k < |clusters|
      ensures IsComponent(Links(input), |input.entities|, clusters[k])
    {
      LabelledGroupIsComponent(input, root, labels[k]);
    }
    forall k, l, x: nat | 0 <= k < l < |clusters| && x in clusters[k]
      ensures x !in clusters[l]
    {
      MembersAreLabelled(root, labels[k], n);
      MembersAreLabelled(root, labels[l], n);
    }
    forall x: nat, y: nat | x != y && x < n && y < n && Connected(Links(input), x, y)
      ensures InCluster(clusters, x)
    {
      PartnersShareGroup(input, root, x, y);
      assert root[x] in labels;
      var k :| 0 <= k < |labels| && labels[k] == root[x];
      assert x in clusters[k];
    }
  }

  // ---------------------------------------------------------------- edge keys

  /** The keys of all edges, in both directions. */
  function KeysOf(edges: seq<(Id, Id)>): set<string> {
    (set e | e in edges :: EdgeKey(e.0, e.1)) + (set e | e in edges :: EdgeKey(e.1, e.0))
  }

  method LoadEdgeSet(edges: seq<(Id, Id)>) returns (keys: set<string>)
    ensures keys == KeysOf(edges)
  {
    keys := {};
    for i := 0 to |edges|
      invariant keys == KeysOf(edges[..i])
    {
      keys := keys + {EdgeKey(edges[i].0, edges[i].1), EdgeKey(edges[i].1, edges[i].0)};
      assert edges[..i + 1] == edges[..i] + [edges[i]];
    }
    assert edges[..|edges|] == edges;
  }

  ghost predicate HasArrow(id: Id) {
    exists i :: OccursAt(id, "->", i)
  }

  lemma ArrowInside(key: string, a: Id, c: Id)
    requires |a| < |c| && a + "->" <= key && c + "->" <= key
    ensures HasArrow(c)
  {
    assert key[|a|] == '-' && key[|a| + 1] == '>';
    assert key[|c|] == '-';
    assert |c| >= |a| + 2;
    assert c == key[..|c|];
    assert OccursAt(c, "->", |a|);
  }

  /** An arrow can be read as part of either ID: two pairs share a key. */
  lemma ArrowInIdConfusesKeys(a: Id, b: Id, c: Id)
    ensures EdgeKey(a, b + "->" + c) == EdgeKey(a + "->" + b, c) && a != a + "->" + b
  {
    assert a + "->" + (b + "->" + c) == (a + "->" + b) + "->" + c;
    assert |a + "->" + b| > |a|;
  }

  ghost predicate SharesKey(a: Id, b: Id, c: Id, d: Id) {
    (c != a || d != b) && EdgeKey(c, d) == EdgeKey(a, b)
  }

  lemma SplitAtArrow(id: Id) returns (p: Id, q: Id)
    requires HasArrow(id)
    ensures id == p + "->" + q
  {
    var i :| OccursAt(id, "->", i);
    p, q := id[..i], id[i + 2..];
    assert id == id[..i] + id[i..i + 2] + id[i + 2..];
  }

  /** The key of a pair is the key of another pair exactly if one of its IDs contains the arrow. */
  lemma KeyIsSharedIffArrow(a: Id, b: Id)
    ensures (exists c, d :: SharesKey(a, b, c, d)) <==> HasArrow(a) || HasArrow(b)
  {
    if HasArrow(a) {
      var p, q := SplitAtArrow(a);
      ArrowInIdConfusesKeys(p, q, b);
      assert SharesKey(a, b, p, q + "->" + b);
    } else if HasArrow(b) {
      var p, q := SplitAtArrow(b);
      ArrowInIdConfusesKeys(a, p, q);
      assert SharesKey(a, b, a + "->" + p, q);
    }
    if c, d :| SharesKey(a, b, c, d) {
      SharedKeyHasArrow(a, b, c, d);
    }
  }

  lemma SharedKeyHasArrow(a: Id, b: Id, c: Id, d: Id)
    requires SharesKey(a, b, c, d)
    ensures HasArrow(a) || HasArrow(b)
  {
    var key := EdgeKey(a, b);
    assert key == EdgeKey(c, d);
    if |c| < |a| {
      ArrowInside(key, c, a);
    } else if |a| < |c| {
      ArrowBehind(key, a, b, c);
    } else {
      SameLengthSamePair(a, b, c, d);
    }
  }

  lemma SameLengthSamePair(a: Id, b: Id, c: Id, d: Id)
    requires EdgeKey(a, b) == EdgeKey(c, d) && |a| == |c|
    ensures a == c && b == d
  {
    var key := EdgeKey(a, b);
    assert a == key[..|a|] && c == key[..|c|];
    assert b == key[|a| + 2..] && d == key[|c| + 2..];
  }

  lemma ArrowBehind(key: string, a: Id, b: Id, c: Id)
    requires key == EdgeKey(a, b) && |a| < |c| && c + "->" <= key
    ensures HasArrow(b)
  {
    assert key[|a|] == '-' && key[|a| + 1] == '>';
    assert key[|c|] == '-' && key[|c| + 1] == '>';
    assert |c| >= |a| + 2;
    var i := |c| - |a| - 2;
    assert b == key[|a| + 2..];
    assert b[i] == key[|c|] && b[i + 1] == key[|c| + 1];
    assert OccursAt(b, "->", i);
  }

  /** An edge row links the two, either way. */
  ghost predicate RowJoins(edges: seq<(Id, Id)>, a: Id, b: Id) {
    (a, b) in edges || (b, a) in edges
  }

  /** The key of an arrow-free pair is its own. */
  lemma EdgeKeyIsInjective(a: Id, b: Id, c: Id, d: Id)
    requires !HasArrow(a) && !HasArrow(b)
    ensures EdgeKey(a, b) == EdgeKey(c, d) <==> a == c && b == d
  {
    KeyIsSharedIffArrow(a, b);
    assert !SharesKey(a, b, c, d);
  }

  /** If another pair has the key of `(a, b)` at all, it is the reverse pair. */
  ghost predicate OnlyReverseShares(a: Id, b: Id) {
    forall c, d | SharesKey(a, b, c, d) :: c == b && d == a
  }

  lemma RowHasKey(edges: seq<(Id, Id)>, a: Id, b: Id)
    requires RowJoins(edges, a, b)
    ensures EdgeKey(a, b) in KeysOf(edges)
  {
    if (a, b) in edges {
      assert EdgeKey(a, b) == EdgeKey((a, b).0, (a, b).1);
    } else {
      assert EdgeKey(a, b) == EdgeKey((b, a).1, (b, a).0);
    }
  }

  lemma KeyHasRow(edges: seq<(Id, Id)>, a: Id, b: Id) returns (c: Id, d: Id)
    requires EdgeKey(a, b) in KeysOf(edges)
    ensures EdgeKey(c, d) == EdgeKey(a, b) && RowJoins(edges, c, d)
  {
    var e :| e in edges && (EdgeKey(a, b) == EdgeKey(e.0, e.1) || EdgeKey(a, b) == EdgeKey(e.1, e.0));
    assert e == (e.0, e.1);
    if EdgeKey(a, b) == EdgeKey(e.0, e.1) {
      return e.0, e.1;
    }
    return e.1, e.0;
  }

  /** The key test of a pair means an edge row between the two, in every table, exactly if no third pair has its key. */
  lemma EdgeTestIsAdjacencyIff(a: Id, b: Id)
    ensures (forall edges :: EdgeKey(a, b) in KeysOf(edges) <==> RowJoins(edges, a, b)) <==> OnlyReverseShares(a, b)
  {
    if OnlyReverseShares(a, b) {
      forall edges
        ensures EdgeKey(a, b) in KeysOf(edges) <==> RowJoins(edges, a, b)
      {
        EdgeTestIsAdjacency(edges, a, b);
      }
    } else {
      var c, d :| SharesKey(a, b, c, d) && (c != b || d != a);
      var edges := [(c, d)];
      RowHasKey(edges, c, d);
      assert !RowJoins(edges, a, b);
    }
  }

  lemma EdgeTestIsAdjacency(edges: seq<(Id, Id)>, a: Id, b: Id)
    requires OnlyReverseShares(a, b)
    ensures EdgeKey(a, b) in KeysOf(edges) <==> RowJoins(edges, a, b)
  {
    if EdgeKey(a, b) in KeysOf(edges) {
      var c, d := KeyHasRow(edges, a, b);
      assert SharesKey(a, b, c, d) ==> c == b && d == a;
    }
    if RowJoins(edges, a, b) {
      RowHasKey(edges, a, b);
    }
  }

  // ---------------------------------------------------------------- clusters in terms of edge rows

  /** What the clusters are meant to join: an edge row links the two, or both are embedded and similar. */
  ghost predicate LinkedByRows(input: Input, edges: seq<(Id, Id)>, x: nat, y: nat) {
    && x < |input.entities| && y < |input.entities| && x != y
    && var a, b := input.entities[if x < y then x else y], input.entities[if x < y then y else x];
       RowJoins(edges, a.id, b.id)
       || (a.embedding != [] && b.embedding != [] && input.similarity(a.embedding, b.embedding) >= input.threshold)
  }

  ghost function RowLinks(input: Input, edges: seq<(Id, Id)>): (links: set<(nat, nat)>)
    ensures forall x: nat, y: nat :: (x, y) in links <==> LinkedByRows(input, edges, x, y)
  {
    set x: nat, y: nat | x < |input.entities| && y < |input.entities| && LinkedByRows(input, edges, x, y) :: (x, y)
  }

  /** The call on the same entities with these edge rows. */
  function WithRows(input: Input, edges: seq<(Id, Id)>): Input {
    input.(edges := KeysOf(edges))
  }

  /** Rows and similarities always link. */
  lemma RowsLink(input: Input, edges: seq<(Id, Id)>, x: nat, y: nat)
    requires LinkedByRows(input, edges, x, y)
    ensures Linked(WithRows(input, edges), x, y)
  {
    var i, j := if x < y then x else y, if x < y then y else x;
    var a, b := input.entities[i].id, input.entities[j].id;
    if RowJoins(edges, a, b) {
      RowHasKey(edges, a, b);
    }
  }

  /** The links are those of the rows, unless a pair that is not similar shares its key with a third. */
  ghost predicate KeysAreOwn(input: Input) {
    forall i: nat, j: nat | i < j < |input.entities| ::
      AreSimilar(input, i, j) || OnlyReverseShares(input.entities[i].id, input.entities[j].id)
  }

  lemma LinksAreRows(input: Input, edges: seq<(Id, Id)>, x: nat, y: nat)
    requires KeysAreOwn(input)
    ensures Linked(WithRows(input, edges), x, y) <==> LinkedByRows(input, edges, x, y)
  {
    if LinkedByRows(input, edges, x, y) {
      RowsLink(input, edges, x, y);
    }
    if Linked(WithRows(input, edges), x, y) {
      var i, j := if x < y then x else y, if x < y then y else x;
      if !AreSimilar(input, i, j) {
        EdgeTestIsAdjacency(edges, input.entities[i].id, input.entities[j].id);
      }
    }
  }

  /** For a list of entities: the key test links what rows and similarities link, in every table, exactly then. */
  lemma LinksAreRowsIff(input: Input)
    ensures (forall edges :: Links(WithRows(input, edges)) == RowLinks(input, edges)) <==> KeysAreOwn(input)
  {
    if KeysAreOwn(input) {
      forall edges
        ensures Links(WithRows(input, edges)) == RowLinks(input, edges)
      {
        forall x: nat, y: nat {
          LinksAreRows(input, edges, x, y);
        }
      }
    } else {
      var i: nat, j: nat :| i < j < |input.entities| && !AreSimilar(input, i, j)
                            && !OnlyReverseShares(input.entities[i].id, input.entities[j].id);
      var c, d :| SharesKey(input.entities[i].id, input.entities[j].id, c, d)
                  && (c != input.entities[j].id || d != input.entities[i].id);
      var edges := [(c, d)];
      RowHasKey(edges, c, d);
      assert (i, j) in Links(WithRows(input, edges)) && (i, j) !in RowLinks(input, edges);
    }
  }

  /** Whichever row has the key of two entities, that row and the similarities connect the two. */
  ghost predicate KeysAreHarmless(input: Input) {
    forall i: nat, j: nat, c, d |
      i < j < |input.entities| && EdgeKey(c, d) == EdgeKey(input.entities[i].id, input.entities[j].id) ::
      Connected(RowLinks(input, [(c, d)]), i, j)
  }

  lemma RowLinksAreSymmetric(input: Input, edges: seq<(Id, Id)>)
    ensures IsSymmetric(RowLinks(input, edges))
  {
  }

  lemma OneRowOfMany(input: Input, edges: seq<(Id, Id)>, c: Id, d: Id, x: nat, y: nat)
    requires RowJoins(edges, c, d) && Connected(RowLinks(input, [(c, d)]), x, y)
    ensures Connected(RowLinks(input, edges), x, y)
  {
    var one, all := RowLinks(input, [(c, d)]), RowLinks(input, edges);
    forall p: nat, q: nat | (p, q) in one
      ensures Connected(all, p, q)
    {
      assert LinkedByRows(input, edges, p, q);
      ConnectedStep(all, p, q);
    }
    ConnectedWithin(one, all, x, y);
  }

  lemma LinkIsConnectedByRows(input: Input, edges: seq<(Id, Id)>, x: nat, y: nat)
    requires KeysAreHarmless(input) && Linked(WithRows(input, edges), x, y)
    ensures Connected(RowLinks(input, edges), x, y)
  {
    var i, j := if x < y then x else y, if x < y then y else x;
    if AreSimilar(input, i, j) {
      ConnectedStep(RowLinks(input, edges), x, y);
    } else {
      var c, d := KeyHasRow(edges, input.entities[i].id, input.entities[j].id);
      OneRowOfMany(input, edges, c, d, i, j);
      RowLinksAreSymmetric(input, edges);
      ConnectedSymmetric(RowLinks(input, edges), i, j);
    }
  }

  ghost predicate ClustersFollowRows(input: Input, edges: seq<(Id, Id)>) {
    forall x: nat, y: nat :: Connected(Links(WithRows(input, edges)), x, y) <==> Connected(RowLinks(input, edges), x, y)
  }

  lemma HarmlessKeysFollowRows(input: Input, edges: seq<(Id, Id)>)
    requires KeysAreHarmless(input)
    ensures ClustersFollowRows(input, edges)
  {
    var links, rows := Links(WithRows(input, edges)), RowLinks(input, edges);
    forall x: nat, y: nat | (x, y) in links
      ensures Connected(rows, x, y)
    {
      LinkIsConnectedByRows(input, edges, x, y);
    }
    forall x: nat, y: nat | (x, y) in rows
      ensures Connected(links, x, y)
    {
      RowsLink(input, edges, x, y);
      ConnectedStep(links, x, y);
    }
    forall x: nat, y: nat
      ensures Connected(links, x, y) <==> Connected(rows, x, y)
    {
      if Connected(links, x, y) {
        ConnectedWithin(links, rows, x, y);
      }
      if Connected(rows, x, y) {
        ConnectedWithin(rows, links, x, y);
      }
    }
  }

  /**
   For a list of entities: the key test connects what edge rows and similarities connect, in every
   table, exactly if every key is harmless.
   */
  lemma ClustersFollowRowsIff(input: Input)
    ensures (forall edges :: ClustersFollowRows(input, edges)) <==> KeysAreHarmless(input)
  {
    if KeysAreHarmless(input) {
      forall edges
        ensures ClustersFollowRows(input, edges)
      {
        HarmlessKeysFollowRows(input, edges);
      }
    } else {
      var i: nat, j: nat, c, d :|
        i < j < |input.entities| && EdgeKey(c, d) == EdgeKey(input.entities[i].id, input.entities[j].id)
        && !Connected(RowLinks(input, [(c, d)]), i, j);
      HarmfulKeyConnects(input, i, j, c, d);
      assert !ClustersFollowRows(input, [(c, d)]);
    }
  }

  lemma HarmfulKeyConnects(input: Input, i: nat, j: nat, c: Id, d: Id)
    requires i < j < |input.entities| && EdgeKey(c, d) == EdgeKey(input.entities[i].id, input.entities[j].id)
    ensures Connected(Links(WithRows(input, [(c, d)])), i, j)
  {
    RowHasKey([(c, d)], c, d);
    ConnectedStep(Links(WithRows(input, [(c, d)])), i, j);
  }

  /** Keys that no third pair has are harmless. */
  lemma OwnKeysAreHarmless(input: Input)
    requires KeysAreOwn(input)
    ensures KeysAreHarmless(input)
  {
    forall i: nat, j: nat, c, d |
      i < j < |input.entities| && EdgeKey(c, d) == EdgeKey(input.entities[i].id, input.entities[j].id)
      ensures Connected(RowLinks(input, [(c, d)]), i, j)
    {
      var a, b := input.entities[i].id, input.entities[j].id;
      assert SharesKey(a, b, c, d) || (c == a && d == b);
      assert LinkedByRows(input, [(c, d)], i, j);
      ConnectedStep(RowLinks(input, [(c, d)]), i, j);
    }
  }

  /** Without arrows in IDs every key is its own. */
  lemma ArrowFreeKeysAreOwn(input: Input)
    requires forall x | 0 <= x < |input.entities| :: !HasArrow(input.entities[x].id)
    ensures KeysAreOwn(input)
  {
    forall i: nat, j: nat | i < j < |input.entities|
      ensures OnlyReverseShares(input.entities[i].id, input.entities[j].id)
    {
      KeyIsSharedIffArrow(input.entities[i].id, input.entities[j].id);
    }
  }

  /** With harmless keys a component of the key test is a component of the edge rows and similarities. */
  lemma ComponentsAreRowComponents(input: Input, edges: seq<(Id, Id)>, cluster: seq<nat>)
    requires KeysAreHarmless(input)
    ensures IsComponent(Links(WithRows(input, edges)), |input.entities|, cluster) <==>
            IsComponent(RowLinks(input, edges), |input.entities|, cluster)
  {
    HarmlessKeysFollowRows(input, edges);
  }

  /** Two entities without embeddings and an edge row of a third pair with their key: one cluster of two strangers. */
  lemma ArrowJoinsStrangers(a: Id, b: Id, c: Id, d: Id, similarity: (Vec, Vec) -> real)
    requires SharesKey(a, b, c, d) && (c != b || d != a)
    ensures var input := Input([Entity(a, []), Entity(b, [])], similarity, 0.0, KeysOf([(c, d)]));
            IsComponent(Links(input), 2, [0, 1]) && !Connected(RowLinks(input, [(c, d)]), 0, 1)
  {
    var edges := [(c, d)];
    var input := Input([Entity(a, []), Entity(b, [])], similarity, 0.0, KeysOf(edges));
    var links := Links(input);
    RowHasKey(edges, c, d);
    assert Linked(input, 0, 1) && Linked(input, 1, 0);
    ConnectedStep(links, 0, 1);
    ConnectedStep(links, 1, 0);
    ConnectedReflexive(links, 0);
    ConnectedReflexive(links, 1);
    if Connected(RowLinks(input, edges), 0, 1) {
      NoLinkNoConnection(RowLinks(input, edges), 0, 1);
    }
  }

  lemma NoLinkNoConnection(links: set<(nat, nat)>, x: nat, y: nat)
    requires Connected(links, x, y) && x != y
    ensures links != {}
  {
    var path :| IsPath(links, path) && path[0] == x && path[|path| - 1] == y;
    assert (path[0], path[1]) in links;
  }

  /** One such case: an edge from "a" to "b->c" clusters "a->b" with "c". */
  lemma ArrowClustersWrongPair(similarity: (Vec, Vec) -> real)
    ensures var input := Input([Entity("a->b", []), Entity("c", [])], similarity, 0.0, KeysOf([("a", "b->c")]));
            IsComponent(Links(input), 2, [0, 1]) && !Connected(RowLinks(input, [("a", "b->c")]), 0, 1)
  {
    ArrowInIdConfusesKeys("a", "b", "c");
    assert "a" + "->" + "b" == "a->b" && "b" + "->" + "c" == "b->c";
    ArrowJoinsStrangers("a->b", "c", "a", "b->c", similarity);
  }

  /** An arrow alone does no harm: "x" and "x->x" share their key with the reverse pair only. */
  lemma ArrowCanBeHarmless()
    ensures HasArrow("x->x") && OnlyReverseShares("x", "x->x")
  {
    assert OccursAt("x->x", "->", 1);
    forall c, d | SharesKey("x", "x->x", c, d)
      ensures c == "x->x" && d == "x"
    {
      var key := EdgeKey("x", "x->x");
      assert key == "x->x->x" && key == c + "->" + d;
      assert key[|c|] == '-';
      assert |c| == 1 || |c| == 4;
      SameLengthSamePair(if |c| == 1 then "x" else "x->x", if |c| == 1 then "x->x" else "x", c, d);
    }
  }
}
