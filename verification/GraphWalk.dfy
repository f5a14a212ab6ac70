/**
 Graph expansion (src/internal/retrieval/expand.go): a recursive query enumerates
 simple paths from the seeds, and a loop keeps the first row of every entity in depth
 order.  The theorems say that this is breadth-first search.
 */
module GraphWalk {
  import opened Common
  import StableSort

  // ---------------------------------------------------------------- tables

  datatype Entity = Entity(category: string, archived: bool, createdAt: Option<int>)

  datatype Edge = Edge(source: Id, target: Id, relation: string, weight: Option<real>)

  datatype Graph = Graph(entities: map<Id, Entity>, edges: set<Edge>)

  /** `from` and `to` bound the creation time of seeds only. */
  datatype Query = Query(seeds: seq<Id>, from: Option<int>, to: Option<int>, depth: nat)

  datatype Row = Row(id: Id, category: string, depth: nat, weight: real, parent: Id, relation: string)

  /** A row of the recursive table: a result row and its delimited list of visited IDs. */
  datatype WalkRow = WalkRow(row: Row, visited: string)

  /** char(31), the delimiter of the visited list. */
  const US: char := 31 as char

  predicate Live(g: Graph, id: Id) {
    id in g.entities && !g.entities[id].archived
  }

  predicate InWindow(e: Entity, q: Query) {
    && (q.from.Some? ==> e.createdAt.Some? && q.from.value <= e.createdAt.value)
    && (q.to.Some? ==> e.createdAt.Some? && e.createdAt.value <= q.to.value)
  }

  predicate IsSeed(g: Graph, q: Query, id: Id) {
    id in q.seeds && Live(g, id) && InWindow(g.entities[id], q)
  }

  // ---------------------------------------------------------------- the recursive query

  function SeedRow(g: Graph, id: Id): WalkRow
    requires id in g.entities
  {
    WalkRow(Row(id, g.entities[id].category, 0, 0.0, "", ""), [US] + id + [US])
  }

  function NearEnd(e: Edge, outgoing: bool): Id {
    if outgoing then e.source else e.target
  }

  function FarEnd(e: Edge, outgoing: bool): Id {
    if outgoing then e.target else e.source
  }

  /** The join condition of the outgoing (or the incoming) branch. */
  predicate Joins(g: Graph, q: Query, w: WalkRow, e: Edge, outgoing: bool) {
    var next := FarEnd(e, outgoing);
    && NearEnd(e, outgoing) == w.row.id
    && w.row.depth < q.depth
    && !Contains(w.visited, [US] + next + [US])
    && Live(g, next)
  }

  function NextRow(g: Graph, w: WalkRow, e: Edge, outgoing: bool): WalkRow
    requires FarEnd(e, outgoing) in g.entities
  {
    var next := FarEnd(e, outgoing);
    var weight := if e.weight.Some? then e.weight.value else 1.0;
    WalkRow(
      Row(next, g.entities[next].category, w.row.depth + 1, w.row.weight + weight, w.row.id, e.relation),
      w.visited + next + [US])
  }

  /** The rows the recursive table gains in round `k`. */
  ghost function Level(g: Graph, q: Query, k: nat): set<WalkRow> {
    if k == 0 then
      set id | id in g.entities && IsSeed(g, q, id) :: SeedRow(g, id)
    else
      set w, e, outgoing | w in Level(g, q, k - 1) && e in g.edges && Joins(g, q, w, e, outgoing)
        :: NextRow(g, w, e, outgoing)
  }

  predicate RowLe(a: Row, b: Row) {
    a.depth < b.depth || (a.depth == b.depth && StringLe(a.category, b.category))
  }

  /** `rows` is an answer of the query: the rows of all rounds, ordered by depth and category. */
  ghost predicate IsQueryResult(g: Graph, q: Query, rows: seq<Row>) {
    && SortedRows(rows)
    && (forall r | r in rows :: exists k: nat, w :: w in Level(g, q, k) && w.row == r)
    && (forall k: nat, w | w in Level(g, q, k) :: w.row in rows)
  }

  // ---------------------------------------------------------------- the row loop

  predicate HasId(rows: seq<Row>, id: Id) {
    exists r | r in rows :: r.id == id
  }

  /** The first row of every entity, in row order. */
  function FirstRows(rows: seq<Row>): seq<Row> {
    if rows == [] then []
    else
      var first := FirstRows(rows[..|rows| - 1]);
      var last := rows[|rows| - 1];
      if HasId(first, last.id) then first else first + [last]
  }

  function Capped(rows: seq<Row>, maxNodes: int): seq<Row> {
    if 0 < maxNodes < |rows| then rows[..maxNodes] else rows
  }

  lemma {:induction false} FirstRowsPrefix(rows: seq<Row>, n: nat)
    requires n <= |rows|
    ensures FirstRows(rows[..n]) <= FirstRows(rows)
  {
    if n < |rows| {
      var init := rows[..|rows| - 1];
      FirstRowsPrefix(init, n);
      assert init[..n] == rows[..n];
    } else {
      assert rows[..n] == rows;
    }
  }

  lemma FirstRowsStep(rows: seq<Row>, i: nat)
    requires i < |rows|
    ensures var first := FirstRows(rows[..i]);
            FirstRows(rows[..i + 1]) == if HasId(first, rows[i].id) then first else first + [rows[i]]
  {
    assert rows[..i + 1][..i] == rows[..i];
  }

  /** Once a further row would exceed the cap, the rows so far are the answer. */
  lemma CapIsReached(rows: seq<Row>, i: nat, maxNodes: int)
    requires i < |rows| && 0 < maxNodes == |FirstRows(rows[..i])| && !HasId(FirstRows(rows[..i]), rows[i].id)
    ensures FirstRows(rows[..i]) == Capped(FirstRows(rows), maxNodes)
  {
    FirstRowsStep(rows, i);
    FirstRowsPrefix(rows, i);
    FirstRowsPrefix(rows, i + 1);
  }

  lemma HasIdGrows(rows: seq<Row>, row: Row, id: Id)
    ensures HasId(rows + [row], id) <==> HasId(rows, id) || row.id == id
  {
    assert row in rows + [row];
    if r :| r in rows && r.id == id {
      assert r in rows + [row];
    }
  }

  method ExpandGraph(rows: seq<Row>, maxNodes: int) returns (nodes: seq<Row>)
    ensures nodes == Capped(FirstRows(rows), maxNodes)
    ensures nodes <= FirstRows(rows) && (maxNodes <= 0 || |FirstRows(rows)| <= maxNodes ==> nodes == FirstRows(rows))
    ensures 0 < maxNodes <= |FirstRows(rows)| ==> |nodes| == maxNodes
  {
    nodes := [];
    var seenIDs: set<Id> := {};
    for i := 0 to |rows|
      invariant nodes == FirstRows(rows[..i])
      invariant forall id :: id in seenIDs <==> HasId(nodes, id)
      invariant |seenIDs| == |nodes|
      invariant maxNodes > 0 ==> |nodes| <= maxNodes
    {
      var node := rows[i];
      FirstRowsStep(rows, i);
      if node.id in seenIDs {
        continue;
      }
      seenIDs := seenIDs + {node.id};
      if maxNodes > 0 && |seenIDs| > maxNodes {
        CapIsReached(rows, i, maxNodes);
        return;
      }
      forall id
        ensures HasId(nodes + [node], id) <==> HasId(nodes, id) || node.id == id
      {
        HasIdGrows(nodes, node, id);
      }
      nodes := nodes + [node];
    }
    assert rows[..|rows|] == rows;
  }

  // ---------------------------------------------------------------- reachability

  predicate Connects(e: Edge, a: Id, b: Id) {
    (e.source == a && e.target == b) || (e.target == a && e.source == b)
  }

  /** An edge connects the two, in whichever direction. */
  ghost predicate Adjacent(g: Graph, a: Id, b: Id) {
    exists e :: e in g.edges && Connects(e, a, b)
  }

  /** The two branches of the join reach exactly the neighbours. */
  lemma BranchesReachNeighbours(g: Graph, a: Id, b: Id)
    ensures (exists e, outgoing :: e in g.edges && NearEnd(e, outgoing) == a && FarEnd(e, outgoing) == b) <==>
            Adjacent(g, a, b)
  {
    if e :| e in g.edges && Connects(e, a, b) {
      var outgoing := e.source == a;
      assert NearEnd(e, outgoing) == a && FarEnd(e, outgoing) == b;
    }
    if e, outgoing :| e in g.edges && NearEnd(e, outgoing) == a && FarEnd(e, outgoing) == b {
      assert Connects(e, a, b);
    }
  }

  /** Breadth-first search: the live entities within `k` hops of a seed. */
  ghost function Ball(g: Graph, q: Query, k: nat): set<Id> {
    if k == 0 then
      set id | id in g.entities && IsSeed(g, q, id)
    else
      var inner := Ball(g, q, k - 1);
      inner + set id | id in g.entities && Live(g, id) && exists p :: p in inner && Adjacent(g, p, id)
  }

  /** `time` lies between the bounds, as far as there are any; an unknown time lies between no bounds. */
  predicate IsBetween(time: Option<int>, from: Option<int>, to: Option<int>) {
    match time
    case None => from == None && to == None
    case Some(t) => (from == None || t >= from.value) && (to == None || t <= to.value)
  }

  /** A walk of entities that are not archived, from a seed in the time window; edges are followed either way. */
  ghost predicate IsWalk(g: Graph, q: Query, path: seq<Id>) {
    && path != []
    && (forall id | id in path :: id in g.entities && !g.entities[id].archived)
    && path[0] in q.seeds && IsBetween(g.entities[path[0]].createdAt, q.from, q.to)
    && (forall i | 0 < i < |path| :: Adjacent(g, path[i - 1], path[i]))
  }

  lemma {:induction false} BallIsReachability(g: Graph, q: Query, k: nat, id: Id)
    ensures id in Ball(g, q, k) <==> exists path :: IsWalk(g, q, path) && |path| <= k + 1 && path[|path| - 1] == id
  {
    if id in Ball(g, q, k) {
      var path := BallHasWalk(g, q, k, id);
    }
    if path :| IsWalk(g, q, path) && |path| <= k + 1 && path[|path| - 1] == id {
      WalkEndsInBall(g, q, k, path);
    }
  }

  lemma {:induction false} BallHasWalk(g: Graph, q: Query, k: nat, id: Id) returns (path: seq<Id>)
    requires id in Ball(g, q, k)
    ensures IsWalk(g, q, path) && |path| <= k + 1 && path[|path| - 1] == id
  {
    if k == 0 {
      SeedIsWalk(g, q, id);
      path := [id];
    } else if id in Ball(g, q, k - 1) {
      path := BallHasWalk(g, q, k - 1, id);
    } else {
      var p :| p in Ball(g, q, k - 1) && Adjacent(g, p, id);
      var init := BallHasWalk(g, q, k - 1, p);
      WalkExtends(g, q, init, id);
      path := init + [id];
    }
  }

  lemma WalkExtends(g: Graph, q: Query, path: seq<Id>, id: Id)
    requires IsWalk(g, q, path) && Live(g, id) && Adjacent(g, path[|path| - 1], id)
    ensures IsWalk(g, q, path + [id])
  {
  }

  lemma SeedIsWalk(g: Graph, q: Query, id: Id)
    requires id in Ball(g, q, 0)
    ensures IsWalk(g, q, [id])
  {
  }

  lemma BallStep(g: Graph, q: Query, k: nat, p: Id, id: Id)
    ensures p in Ball(g, q, k) && Adjacent(g, p, id) && Live(g, id) ==> id in Ball(g, q, k + 1)
  {
  }

  lemma WalkPrefix(g: Graph, q: Query, path: seq<Id>)
    requires IsWalk(g, q, path) && |path| > 1
    ensures IsWalk(g, q, path[..|path| - 1])
    ensures Adjacent(g, path[|path| - 2], path[|path| - 1]) && Live(g, path[|path| - 1])
  {
    var init := path[..|path| - 1];
    forall i | 0 < i < |init|
      ensures Adjacent(g, init[i - 1], init[i])
    {
      assert Adjacent(g, path[i - 1], path[i]);
    }
  }

  lemma {:induction false} WalkEndsInBall(g: Graph, q: Query, k: nat, path: seq<Id>)
    requires IsWalk(g, q, path) && |path| <= k + 1
    ensures path[|path| - 1] in Ball(g, q, k)
  {
    if k > 0 {
      if |path| == 1 {
        WalkEndsInBall(g, q, k - 1, path);
      } else {
        WalkPrefix(g, q, path);
        WalkEndsInBall(g, q, k - 1, path[..|path| - 1]);
        BallStep(g, q, k - 1, path[|path| - 2], path[|path| - 1]);
      }
    }
  }

  lemma {:induction false} BallGrows(g: Graph, q: Query, j: nat, k: nat)
    requires j <= k
    ensures Ball(g, q, j) <= Ball(g, q, k)
  {
    if j < k {
      BallGrows(g, q, j, k - 1);
    }
  }

  /** The distance of an entity from the seeds is `d`. */
  ghost predicate AtDistance(g: Graph, q: Query, id: Id, d: nat) {
    id in Ball(g, q, d) && (d > 0 ==> id !in Ball(g, q, d - 1))
  }

  // ---------------------------------------------------------------- the visited list

  /** The visited list of a path. */
  function Visited(path: seq<Id>): string {
    if path == [] then [US] else Visited(path[..|path| - 1]) + path[|path| - 1] + [US]
  }

  lemma VisitedOfOne(id: Id)
    ensures Visited([id]) == [US] + id + [US]
  {
    assert [id][..0] == [];
  }

  lemma VisitedGrows(path: seq<Id>, p: Id)
    ensures Visited(path + [p]) == Visited(path) + p + [US]
  {
    assert (path + [p])[..|path|] == path;
  }

  /** IDs free of the delimiter. */
  predicate CleanIds(ids: set<Id>) {
    forall id | id in ids :: US !in id
  }

  lemma {:induction false} VisitedEndsInDelimiter(path: seq<Id>)
    ensures Visited(path) != [] && Visited(path)[|Visited(path)| - 1] == US
  {
  }

  /** Whatever characters IDs hold, a visited entity is always recognised: no path has a repetition. */
  lemma {:induction false} VisitedIsFound(path: seq<Id>, id: Id)
    requires id in path
    ensures Contains(Visited(path), [US] + id + [US])
  {
    var init, last := path[..|path| - 1], path[|path| - 1];
    var v, needle := Visited(init), [US] + id + [US];
    VisitedEndsInDelimiter(init);
    if last == id {
      assert OccursAt(Visited(path), needle, |v| - 1);
    } else {
      VisitedIsFound(init, id);
      var i :| 0 <= i <= |v| - |needle| && OccursAt(v, needle, i);
      assert Visited(path)[i..i + |needle|] == v[i..i + |needle|];
      assert OccursAt(Visited(path), needle, i);
    }
  }

  /** A delimited ID that reaches into the last entry of a delimited list is that entry. */
  lemma LastEntryMatches(v: string, last: Id, id: Id, i: nat)
    requires v != [] && v[|v| - 1] == US && US !in last && US !in id
    requires OccursAt(v + last + [US], [US] + id + [US], i) && i + |id| + 2 > |v|
    ensures id == last
  {
    var hay, needle := v + last + [US], [US] + id + [US];
    var m, end := |v|, i + |id| + 1;
    assert hay[i..i + |needle|] == needle;
    assert hay[i] == US && hay[end] == US;
    assert forall k | m <= k < m + |last| :: hay[k] != US;
    assert forall k | i < k < end :: hay[k] == needle[k - i] && needle[k - i] == id[k - i - 1];
    assert end == m + |last|;
    assert hay[m - 1] == US;
    assert i == m - 1;
    assert id == hay[i + 1..end];
    assert last == hay[m..end];
  }

  /** Without the delimiter in IDs, the substring test finds nothing but visited entities. */
  lemma {:induction false} FoundIsVisited(path: seq<Id>, id: Id)
    requires US !in id && forall p | p in path :: US !in p
    requires Contains(Visited(path), [US] + id + [US])
    ensures id in path
  {
    var needle, hay := [US] + id + [US], Visited(path);
    var i :| 0 <= i <= |hay| - |needle| && OccursAt(hay, needle, i);
    if path != [] {
      var init, last := path[..|path| - 1], path[|path| - 1];
      var v := Visited(init);
      VisitedEndsInDelimiter(init);
      if i + |needle| <= |v| {
        assert v[i..i + |needle|] == hay[i..i + |needle|];
        assert OccursAt(v, needle, i);
        FoundIsVisited(init, id);
      } else {
        LastEntryMatches(v, last, id, i);
      }
    }
  }

  lemma {:induction false} VisitedTestIsMembership(path: seq<Id>, id: Id)
    requires US !in id && forall p | p in path :: US !in p
    ensures Contains(Visited(path), [US] + id + [US]) <==> id in path
  {
    if id in path {
      VisitedIsFound(path, id);
    }
    if Contains(Visited(path), [US] + id + [US]) {
      FoundIsVisited(path, id);
    }
  }

  // ---------------------------------------------------------------- mistaken IDs

  /** On this simple path of entities the test takes `id` for visited although it is not. */
  ghost predicate Mistaken(ids: set<Id>, path: seq<Id>, id: Id) {
    && path != [] && NoDup(path) && (forall p | p in path :: p in ids)
    && id in ids && id !in path && Contains(Visited(path), [US] + id + [US])
  }

  /** The test is exact on every simple path of entities. */
  ghost predicate IsUnmistakable(ids: set<Id>) {
    forall path, id :: !Mistaken(ids, path, id)
  }

  lemma CleanIdsAreUnmistakable(ids: set<Id>)
    requires CleanIds(ids)
    ensures IsUnmistakable(ids)
  {
    forall path, id
      ensures !Mistaken(ids, path, id)
    {
      if Mistaken(ids, path, id) {
        FoundIsVisited(path, id);
      }
    }
  }

  /** A list of parts whose last part meets one more character. */
  function Extended(parts: seq<Id>, c: char): (r: seq<Id>)
    requires parts != []
    ensures r != []
  {
    if c == US then parts + [[]] else parts[..|parts| - 1] + [parts[|parts| - 1] + [c]]
  }

  /** `text` cut at its delimiters. */
  function Split(text: string): (parts: seq<Id>)
    ensures parts != []
  {
    if text == [] then [[]] else Extended(Split(text[..|text| - 1]), text[|text| - 1])
  }

  lemma {:induction false} PartsAreClean(text: string)
    ensures forall p | p in Split(text) :: US !in p
  {
    if text != [] {
      PartsAreClean(text[..|text| - 1]);
    }
  }

  lemma SplitGrows(text: string, c: char)
    ensures Split(text + [c]) == Extended(Split(text), c)
  {
    assert (text + [c])[..|text|] == text;
  }

  lemma ExtendedOnRight(left: seq<Id>, right: seq<Id>, c: char)
    requires right != []
    ensures Extended(left + right, c) == left + Extended(right, c)
  {
    assert (left + right)[..|left + right| - 1] == left + right[..|right| - 1];
  }

  /** Texts joined by a delimiter are cut there. */
  lemma {:induction false} SplitOfJoin(left: string, right: string)
    ensures Split(left + [US] + right) == Split(left) + Split(right)
  {
    var start := left + [US];
    SplitGrows(left, US);
    if right == [] {
      assert start + right == start;
    } else {
      var init, last := right[..|right| - 1], right[|right| - 1];
      SplitOfJoin(left, init);
      assert start + right == (start + init) + [last];
      SplitGrows(start + init, last);
      ExtendedOnRight(Split(left), Split(init), last);
    }
  }

  lemma {:induction false} SplitOfPart(p: Id)
    requires US !in p
    ensures Split(p) == [p]
  {
    if p != [] {
      var init, last := p[..|p| - 1], p[|p| - 1];
      SplitOfPart(init);
      assert init + [last] == p;
    }
  }

  lemma {:induction false} SplitOfPartsAndDelimiter(text: string, parts: seq<Id>, p: Id)
    requires US !in p && Split(text + [US]) == parts + [[]]
    ensures Split(text + [US] + p + [US]) == parts + [p] + [[]]
  {
    SplitGrows(text, US);
    SameButLast(Split(text), parts);
    SplitOfJoin(text, p);
    SplitOfPart(p);
    SplitGrows(text + [US] + p, US);
  }

  lemma SameButLast(left: seq<Id>, right: seq<Id>)
    requires left + [[]] == right + [[]]
    ensures left == right
  {
    assert |left| == |left + [[]]| - 1 == |right|;
    assert left == (left + [[]])[..|left|] == right;
  }

  /** Cutting the visited list of delimiter-free entities gives the path between two empty parts. */
  lemma {:induction false} SplitOfVisited(path: seq<Id>)
    requires forall p | p in path :: US !in p
    ensures Split(Visited(path)) == [[]] + path + [[]]
  {
    if path == [] {
      SplitGrows([], US);
    } else {
      var init, last := path[..|path| - 1], path[|path| - 1];
      SplitOfVisited(init);
      VisitedEndsInDelimiter(init);
      var text := Visited(init)[..|Visited(init)| - 1];
      assert Visited(init) == text + [US];
      SplitOfPartsAndDelimiter(text, [[]] + init, last);
      assert [[]] + init + [last] == [[]] + path;
    }
  }

  lemma CutAround(list: string, id: Id, k: nat)
    requires k + |id| + 2 <= |list| && OccursAt(list, [US] + id + [US], k)
    ensures list == list[..k] + [US] + (id + [US] + list[k + |id| + 2..])
  {
    var needle := [US] + id + [US];
    var right := list[k + |needle|..];
    assert list == list[..k] + list[k..k + |needle|] + right;
    assert needle + right == [US] + (id + [US] + right);
  }

  lemma SplitAround(list: string, id: Id, k: nat)
    requires k + |id| + 2 <= |list| && OccursAt(list, [US] + id + [US], k)
    ensures Split(list) == Split(list[..k]) + (Split(id) + Split(list[k + |id| + 2..]))
  {
    var right := list[k + |id| + 2..];
    CutAround(list, id, k);
    SplitOfJoin(list[..k], id + [US] + right);
    SplitOfJoin(id, right);
  }

  /** Where the test succeeds on delimiter-free entities, the parts of the ID stand in the path side by side. */
  lemma PartsStandInPath(path: seq<Id>, id: Id) returns (i: nat)
    requires (forall p | p in path :: US !in p) && Contains(Visited(path), [US] + id + [US])
    ensures i + |Split(id)| <= |path| && path[i..i + |Split(id)|] == Split(id)
  {
    var list := Visited(path);
    var k :| 0 <= k <= |list| - |[US] + id + [US]| && OccursAt(list, [US] + id + [US], k);
    SplitAround(list, id, k);
    SplitOfVisited(path);
    var left, right := Split(list[..k]), Split(list[k + |id| + 2..]);
    PartsInTheMiddle(left, Split(id), right, path);
    i := |left| - 1;
  }

  lemma PartsInTheMiddle(left: seq<Id>, parts: seq<Id>, right: seq<Id>, path: seq<Id>)
    requires left != [] && right != [] && left + (parts + right) == [[]] + path + [[]]
    ensures |left| - 1 + |parts| <= |path| && path[|left| - 1..|left| - 1 + |parts|] == parts
  {
    var all := [[]] + path + [[]];
    assert path == all[1..|path| + 1];
    assert parts == all[|left|..|left| + |parts|];
  }

  /** The visited list of the parts is the text between delimiters. */
  lemma {:induction false} VisitedOfSplit(text: string)
    ensures Visited(Split(text)) == [US] + text + [US]
  {
    if text == [] {
      assert Split(text)[..0] == [];
    } else {
      var init, last := text[..|text| - 1], text[|text| - 1];
      VisitedOfSplit(init);
      assert text == init + [last];
      if last == US {
        NewPartStarts(Split(init), init);
      } else {
        LastPartIsVisited(Split(init), init, last);
      }
    }
  }

  lemma NewPartStarts(parts: seq<Id>, text: string)
    requires Visited(parts) == [US] + text + [US]
    ensures Visited(parts + [[]]) == [US] + (text + [US]) + [US]
  {
    assert (parts + [[]])[..|parts|] == parts;
    assert [US] + text + [US] + [] + [US] == [US] + (text + [US]) + [US];
  }

  lemma LastPartIsVisited(parts: seq<Id>, text: string, c: char)
    requires parts != [] && c != US && Visited(parts) == [US] + text + [US]
    ensures Visited(Extended(parts, c)) == [US] + (text + [c]) + [US]
  {
    var front, end := parts[..|parts| - 1], parts[|parts| - 1];
    CutDelimiter(Visited(front) + end, [US] + text);
    VisitedGrows(front, end + [c]);
    Regroup(Visited(front), end, [c]);
    Regroup([US], text, [c]);
  }

  lemma Regroup(a: string, b: string, c: string)
    ensures a + (b + c) == (a + b) + c
  {
  }

  lemma CutDelimiter(u: string, v: string)
    requires u + [US] == v + [US]
    ensures u == v
  {
    assert |u| == |u + [US]| - 1 == |v|;
    assert u == (u + [US])[..|u|] == v;
  }

  /** The test reports `id` on a simple path of delimiter-free entities that it is not on. */
  ghost predicate Misleads(path: seq<Id>, id: Id) {
    && id !in path && NoDup(path) && (forall p | p in path :: US !in p)
    && Contains(Visited(path), [US] + id + [US])
  }

  /**
   Delimiter-free entities can be on a path on which `id` is taken for visited exactly if
   the delimiter is inside `id` and the parts between delimiters differ: no path has an
   entity twice.
   */
  lemma DelimiterInIdDefeatsTest(id: Id)
    ensures US in id && NoDup(Split(id)) <==> exists path :: Misleads(path, id)
  {
    if US in id && NoDup(Split(id)) {
      VisitedOfSplit(id);
      PartsAreClean(id);
      assert OccursAt(Visited(Split(id)), [US] + id + [US], 0);
      assert Misleads(Split(id), id);
    }
    if path :| Misleads(path, id) {
      if US !in id {
        FoundIsVisited(path, id);
      }
      var i := PartsStandInPath(path, id);
      assert NoDup(path[i..i + |Split(id)|]);
    }
  }

  // ---------------------------------------------------------------- rows and layers

  /** A row of a later round extends a row of the round before by one edge. */
  lemma LevelPredecessor(g: Graph, q: Query, k: nat, w: WalkRow) returns (p: WalkRow, e: Edge, outgoing: bool)
    requires k > 0 && w in Level(g, q, k)
    ensures p in Level(g, q, k - 1) && e in g.edges && Joins(g, q, p, e, outgoing) && w == NextRow(g, p, e, outgoing)
  {
    p, e, outgoing :| p in Level(g, q, k - 1) && e in g.edges && Joins(g, q, p, e, outgoing)
                      && w == NextRow(g, p, e, outgoing);
  }

  /** A row of round `k` lies within `k` hops, one hop from its parent. */
  lemma {:induction false} RowIsReachable(g: Graph, q: Query, k: nat, w: WalkRow)
    requires w in Level(g, q, k)
    ensures w.row.depth == k <= q.depth
    ensures w.row.id in Ball(g, q, k) && Live(g, w.row.id)
    ensures k == 0 ==> w.row.parent == ""
    ensures k > 0 ==> w.row.parent in Ball(g, q, k - 1) && Adjacent(g, w.row.parent, w.row.id)
  {
    if k > 0 {
      var p, e, outgoing := LevelPredecessor(g, q, k, w);
      RowIsReachable(g, q, k - 1, p);
      assert e in g.edges && Connects(e, p.row.id, w.row.id);
      BallStep(g, q, k - 1, p.row.id, w.row.id);
    }
  }

  function TotalWeight(edges: seq<Edge>): real {
    if edges == [] then 0.0
    else
      var last := edges[|edges| - 1];
      TotalWeight(edges[..|edges| - 1]) + if last.weight.Some? then last.weight.value else 1.0
  }

  /** `edges` leads along the entities of `path`. */
  ghost predicate EdgesAlong(g: Graph, path: seq<Id>, edges: seq<Edge>) {
    && |path| == |edges| + 1
    && forall i | 0 <= i < |edges| :: edges[i] in g.edges && Connects(edges[i], path[i], path[i + 1])
  }

  lemma EdgesAlongExtends(g: Graph, path: seq<Id>, edges: seq<Edge>, id: Id, e: Edge)
    requires EdgesAlong(g, path, edges) && e in g.edges && Connects(e, path[|path| - 1], id)
    ensures EdgesAlong(g, path + [id], edges + [e])
    ensures TotalWeight(edges + [e]) == TotalWeight(edges) + if e.weight.Some? then e.weight.value else 1.0
    ensures Visited(path + [id]) == Visited(path) + id + [US]
  {
    VisitedGrows(path, id);
    assert (edges + [e])[..|edges|] == edges;
  }

  /** The row's last step: the path and the edges of the row before it, and one more of each. */
  lemma NextRowFollows(g: Graph, q: Query, p: WalkRow, e: Edge, outgoing: bool, init: seq<Id>, edges: seq<Edge>)
    requires e in g.edges && Joins(g, q, p, e, outgoing)
    requires EdgesAlong(g, init, edges) && NoDup(init) && init[|init| - 1] == p.row.id
    requires p.visited == Visited(init) && p.row.weight == TotalWeight(edges)
    ensures var w := NextRow(g, p, e, outgoing);
            && NoDup(init + [w.row.id]) && EdgesAlong(g, init + [w.row.id], edges + [e])
            && w.visited == Visited(init + [w.row.id]) && w.row.weight == TotalWeight(edges + [e])
  {
    var id := FarEnd(e, outgoing);
    EdgesAlongExtends(g, init, edges, id, e);
    if id in init {
      VisitedIsFound(init, id);
    }
  }

  /** A row stands for a simple live path, and carries its weight, its last edge and its visited list. */
  lemma {:induction false} RowFollowsSimplePath(g: Graph, q: Query, k: nat, w: WalkRow)
    returns (path: seq<Id>, edges: seq<Edge>)
    requires w in Level(g, q, k)
    ensures EdgesAlong(g, path, edges) && |edges| == k && NoDup(path)
    ensures IsSeed(g, q, path[0]) && (forall id | id in path :: Live(g, id)) && path[k] == w.row.id
    ensures w.visited == Visited(path) && w.row.weight == TotalWeight(edges)
    ensures w.row.category == g.entities[w.row.id].category
    ensures k > 0 ==> w.row.parent == path[k - 1] && w.row.relation == edges[k - 1].relation
  {
    if k == 0 {
      path, edges := [w.row.id], [];
      VisitedOfOne(w.row.id);
    } else {
      var p, e, outgoing := LevelPredecessor(g, q, k, w);
      var init, initEdges := RowFollowsSimplePath(g, q, k - 1, p);
      NextRowFollows(g, q, p, e, outgoing, init, initEdges);
      path, edges := init + [w.row.id], initEdges + [e];
    }
  }

  /** `w` is a row about `id` in round `k`; its simple path lies within `k` hops. */
  ghost predicate IsRowAbout(g: Graph, q: Query, k: nat, id: Id, w: WalkRow, path: seq<Id>) {
    && w in Level(g, q, k) && w.row.id == id && w.row.depth == k && w.visited == Visited(path)
    && path != [] && NoDup(path) && forall p | p in path :: p in Ball(g, q, k) && p in g.entities
  }

  lemma SeedHasRow(g: Graph, q: Query, id: Id) returns (w: WalkRow)
    requires id in Ball(g, q, 0)
    ensures IsRowAbout(g, q, 0, id, w, [id])
  {
    w := SeedRow(g, id);
    VisitedOfOne(id);
  }

  lemma NearNeighbour(g: Graph, q: Query, k: nat, id: Id) returns (p: Id)
    requires k > 0 && AtDistance(g, q, id, k)
    ensures AtDistance(g, q, p, k - 1) && Adjacent(g, p, id) && Live(g, id)
  {
    p :| p in Ball(g, q, k - 1) && Adjacent(g, p, id);
    if k > 1 {
      BallStep(g, q, k - 2, p, id);
    }
  }

  lemma NotTakenForVisited(ids: set<Id>, path: seq<Id>, id: Id)
    requires IsUnmistakable(ids) && path != [] && NoDup(path) && (forall p | p in path :: p in ids)
    requires id in ids && id !in path
    ensures !Contains(Visited(path), [US] + id + [US])
  {
    assert !Mistaken(ids, path, id);
  }

  /** An entity that the test does not take for visited continues the row of a neighbour. */
  lemma NeighbourHasRow(g: Graph, q: Query, k: nat, p: WalkRow, id: Id) returns (w: WalkRow)
    requires p in Level(g, q, k) && p.row.depth < q.depth && Adjacent(g, p.row.id, id) && Live(g, id)
    requires !Contains(p.visited, [US] + id + [US])
    ensures w in Level(g, q, k + 1) && w.row.id == id && w.row.depth == p.row.depth + 1
    ensures w.visited == p.visited + id + [US]
  {
    BranchesReachNeighbours(g, p.row.id, id);
    var e, outgoing :| e in g.edges && NearEnd(e, outgoing) == p.row.id && FarEnd(e, outgoing) == id;
    assert Joins(g, q, p, e, outgoing);
    w := NextRow(g, p, e, outgoing);
  }

  lemma RowContinues(g: Graph, q: Query, k: nat, p: Id, pw: WalkRow, init: seq<Id>, id: Id) returns (w: WalkRow)
    requires IsUnmistakable(g.entities.Keys) && k < q.depth && IsRowAbout(g, q, k, p, pw, init)
    requires Adjacent(g, p, id) && Live(g, id) && id in Ball(g, q, k + 1) && id !in Ball(g, q, k)
    ensures IsRowAbout(g, q, k + 1, id, w, init + [id])
  {
    assert id !in init;
    NotTakenForVisited(g.entities.Keys, init, id);
    w := NeighbourHasRow(g, q, k, pw, id);
    VisitedGrows(init, id);
    BallGrows(g, q, k, k + 1);
  }

  /** Every entity first met at distance `k` has a row in round `k`, although paths must be simple. */
  lemma {:induction false} LayerHasRow(g: Graph, q: Query, k: nat, id: Id) returns (w: WalkRow, path: seq<Id>)
    requires IsUnmistakable(g.entities.Keys) && k <= q.depth && AtDistance(g, q, id, k)
    ensures IsRowAbout(g, q, k, id, w, path)
  {
    if k == 0 {
      w := SeedHasRow(g, q, id);
      path := [id];
    } else {
      var p := NearNeighbour(g, q, k, id);
      var pw, init := LayerHasRow(g, q, k - 1, p);
      w := RowContinues(g, q, k - 1, p, pw, init, id);
      path := init + [id];
    }
  }

  // ---------------------------------------------------------------- what the loop keeps

  ghost predicate SortedRows(rows: seq<Row>) {
    forall i, j | 0 <= i < j < |rows| :: RowLe(rows[i], rows[j])
  }

  lemma {:induction false} FirstRowIsRow(rows: seq<Row>, n: Row)
    requires n in FirstRows(rows)
    ensures n in rows
  {
    if n != rows[|rows| - 1] {
      FirstRowIsRow(rows[..|rows| - 1], n);
    }
  }

  /** The kept rows are one per ID, in order of depth. */
  lemma {:induction false} FirstRowsAreOrdered(rows: seq<Row>, i: nat, j: nat)
    requires SortedRows(rows) && i < j < |FirstRows(rows)|
    ensures FirstRows(rows)[i].id != FirstRows(rows)[j].id && RowLe(FirstRows(rows)[i], FirstRows(rows)[j])
  {
    var init, last := rows[..|rows| - 1], rows[|rows| - 1];
    var first := FirstRows(init);
    if j < |first| {
      FirstRowsAreOrdered(init, i, j);
    } else {
      assert first[i] in first;
      FirstRowIsRow(init, first[i]);
      var k :| 0 <= k < |init| && init[k] == first[i];
      assert RowLe(rows[k], rows[|rows| - 1]);
    }
  }

  lemma FirstRowsAreRows(rows: seq<Row>)
    requires SortedRows(rows)
    ensures var nodes := FirstRows(rows);
            && (forall n | n in nodes :: n in rows)
            && (forall i, j | 0 <= i < j < |nodes| :: nodes[i].id != nodes[j].id && nodes[i].depth <= nodes[j].depth)
            && SortedRows(nodes)
  {
    forall n | n in FirstRows(rows)
      ensures n in rows
    {
      FirstRowIsRow(rows, n);
    }
    forall i, j | 0 <= i < j < |FirstRows(rows)|
      ensures FirstRows(rows)[i].id != FirstRows(rows)[j].id && RowLe(FirstRows(rows)[i], FirstRows(rows)[j])
    {
      FirstRowsAreOrdered(rows, i, j);
    }
  }

  /** Every row has a kept row of the same ID that is no deeper. */
  lemma {:induction false} KeptForRow(rows: seq<Row>, r: Row) returns (n: Row)
    requires SortedRows(rows) && r in rows
    ensures n in FirstRows(rows) && n.id == r.id && n.depth <= r.depth
  {
    var init, last := rows[..|rows| - 1], rows[|rows| - 1];
    if r in init {
      n := KeptForRow(init, r);
    } else if HasId(FirstRows(init), last.id) {
      n :| n in FirstRows(init) && n.id == last.id;
      FirstRowIsRow(init, n);
      var k :| 0 <= k < |init| && init[k] == n;
      assert RowLe(rows[k], rows[|rows| - 1]);
    } else {
      n := last;
    }
  }

  lemma KeptIsUnique(rows: seq<Row>, n: Row, m: Row)
    requires SortedRows(rows) && n in FirstRows(rows) && m in FirstRows(rows) && n.id == m.id
    ensures n == m
  {
    FirstRowsAreRows(rows);
  }

  /** An entity in reach has a least distance. */
  lemma {:induction false} LeastDistance(g: Graph, q: Query, id: Id, k: nat) returns (d: nat)
    requires id in Ball(g, q, k)
    ensures d <= k && AtDistance(g, q, id, d)
  {
    if k > 0 && id in Ball(g, q, k - 1) {
      d := LeastDistance(g, q, id, k - 1);
    } else {
      d := k;
    }
  }

  lemma DistanceIsUnique(g: Graph, q: Query, id: Id, c: nat, d: nat)
    requires AtDistance(g, q, id, c) && AtDistance(g, q, id, d)
    ensures c == d
  {
    if c < d {
      BallGrows(g, q, c, d - 1);
    } else if d < c {
      BallGrows(g, q, d, c - 1);
    }
  }

  /** The row of the walk behind a row of the answer. */
  lemma RowSource(g: Graph, q: Query, rows: seq<Row>, n: Row) returns (w: WalkRow)
    requires IsQueryResult(g, q, rows) && n in rows
    ensures w in Level(g, q, n.depth) && w.row == n
  {
    var k: nat;
    k, w :| w in Level(g, q, k) && w.row == n;
    RowIsReachable(g, q, k, w);
  }

  /** An entity at distance `d` within the bound is kept, by a row no deeper than `d`. */
  lemma KeptAtDistance(g: Graph, q: Query, rows: seq<Row>, id: Id, d: nat) returns (n: Row)
    requires IsUnmistakable(g.entities.Keys) && IsQueryResult(g, q, rows)
    requires d <= q.depth && AtDistance(g, q, id, d)
    ensures n in FirstRows(rows) && n.id == id && n.depth <= d
  {
    var w, _ := LayerHasRow(g, q, d, id);
    assert w.row in rows;
    n := KeptForRow(rows, w.row);
  }

  /** A neighbour that lies within `d - 1` hops of an entity at distance `d` is at distance `d - 1`. */
  lemma NearNeighbourDistance(g: Graph, q: Query, p: Id, id: Id, d: nat)
    requires d > 0 && AtDistance(g, q, id, d) && Live(g, id)
    requires p in Ball(g, q, d - 1) && Adjacent(g, p, id)
    ensures AtDistance(g, q, p, d - 1)
  {
    if d > 1 {
      BallStep(g, q, d - 2, p, id);
    }
  }

  /** A kept row lies within as many hops as it says, behind its parent. */
  lemma KeptRowIsReachable(g: Graph, q: Query, rows: seq<Row>, n: Row)
    requires IsQueryResult(g, q, rows) && n in FirstRows(rows)
    ensures n.depth <= q.depth && n.id in Ball(g, q, n.depth) && Live(g, n.id)
    ensures n.depth == 0 ==> n.parent == ""
    ensures n.depth > 0 ==> n.parent in Ball(g, q, n.depth - 1) && Adjacent(g, n.parent, n.id)
  {
    FirstRowIsRow(rows, n);
    var w := RowSource(g, q, rows, n);
    RowIsReachable(g, q, n.depth, w);
  }

  /** A kept row carries the distance of its entity. */
  lemma KeptDepthIsDistance(g: Graph, q: Query, rows: seq<Row>, n: Row)
    requires IsUnmistakable(g.entities.Keys) && IsQueryResult(g, q, rows) && n in FirstRows(rows)
    ensures n.depth <= q.depth && AtDistance(g, q, n.id, n.depth)
  {
    KeptRowIsReachable(g, q, rows, n);
    var d := LeastDistance(g, q, n.id, n.depth);
    var m := KeptAtDistance(g, q, rows, n.id, d);
    KeptIsUnique(rows, n, m);
  }

  /** The parent of a kept row is one hop nearer. */
  lemma KeptParentDistance(g: Graph, q: Query, rows: seq<Row>, n: Row)
    requires IsUnmistakable(g.entities.Keys) && IsQueryResult(g, q, rows) && n in FirstRows(rows)
    ensures n.depth == 0 ==> n.parent == "" && IsSeed(g, q, n.id)
    ensures n.depth > 0 ==> AtDistance(g, q, n.parent, n.depth - 1) && Adjacent(g, n.parent, n.id)
  {
    KeptDepthIsDistance(g, q, rows, n);
    KeptRowIsReachable(g, q, rows, n);
    if n.depth > 0 {
      NearNeighbourDistance(g, q, n.parent, n.id, n.depth);
    }
  }

  /**
   The first rows are a breadth-first search: exactly the entities within the depth bound,
   each once, each with its shortest hop distance.
   */
  ghost predicate IsBreadthFirst(g: Graph, q: Query, rows: seq<Row>) {
    var nodes := FirstRows(rows);
    && (forall i, j | 0 <= i < j < |nodes| :: nodes[i].id != nodes[j].id)
    && (forall id :: HasId(nodes, id) <==> id in Ball(g, q, q.depth))
    && (forall n | n in nodes :: n.depth <= q.depth && AtDistance(g, q, n.id, n.depth))
  }

  /** With IDs that cannot be mistaken, every answer of the walk is a breadth-first search. */
  lemma WalkIsBreadthFirstSearch(g: Graph, q: Query, rows: seq<Row>)
    requires IsUnmistakable(g.entities.Keys) && IsQueryResult(g, q, rows)
    ensures IsBreadthFirst(g, q, rows)
  {
    var nodes := FirstRows(rows);
    FirstRowsAreRows(rows);
    forall n | n in nodes
      ensures n.depth <= q.depth && AtDistance(g, q, n.id, n.depth) && n.id in Ball(g, q, q.depth)
    {
      KeptDepthIsDistance(g, q, rows, n);
      BallGrows(g, q, n.depth, q.depth);
    }
    forall id | id in Ball(g, q, q.depth)
      ensures HasId(nodes, id)
    {
      var d := LeastDistance(g, q, id, q.depth);
      var n := KeptAtDistance(g, q, rows, id, d);
    }
  }

  // ---------------------------------------------------------------- every query has an answer

  /** Row order for a sort. */
  predicate RowBefore(a: Row, b: Row) {
    !RowLe(b, a)
  }

  lemma RowBeforeIsWeakOrder()
    ensures StableSort.IsWeakOrder(RowBefore)
  {
    forall x: Row, y: Row
      ensures RowBefore(x, y) ==> !RowBefore(y, x)
    {
      StringOrder(x.category, y.category, x.category);
    }
    forall x: Row, y: Row, z: Row
      ensures RowBefore(x, z) ==> RowBefore(x, y) || RowBefore(y, z)
    {
      StringOrder(z.category, y.category, x.category);
    }
  }

  /** The rows of all rounds up to `k`. */
  ghost function RowsUpTo(g: Graph, q: Query, k: nat): set<Row> {
    (set w | w in Level(g, q, k) :: w.row) + if k == 0 then {} else RowsUpTo(g, q, k - 1)
  }

  lemma {:induction false} RowsAreOfRounds(g: Graph, q: Query, k: nat, r: Row)
    requires r in RowsUpTo(g, q, k)
    ensures exists j: nat, w :: w in Level(g, q, j) && w.row == r
  {
    if w :| w in Level(g, q, k) && w.row == r {
    } else {
      RowsAreOfRounds(g, q, k - 1, r);
    }
  }

  lemma {:induction false} RoundsAreUpTo(g: Graph, q: Query, j: nat, k: nat, w: WalkRow)
    requires j <= k && w in Level(g, q, j)
    ensures w.row in RowsUpTo(g, q, k)
  {
    if j < k {
      RoundsAreUpTo(g, q, j, k - 1, w);
    }
  }

  /** The recursion ends and its rows can be put in order. */
  lemma AnswerExists(g: Graph, q: Query) returns (rows: seq<Row>)
    ensures IsQueryResult(g, q, rows)
  {
    var list := ListOf(RowsUpTo(g, q, q.depth));
    rows := StableSort.Sort(RowBefore, list);
    RowBeforeIsWeakOrder();
    StableSort.SortIsStableSort(RowBefore, list);
    forall r
      ensures r in rows <==> r in RowsUpTo(g, q, q.depth)
    {
      assert r in multiset(rows) <==> r in multiset(list);
      assert r in list <==> r in ToSet(list);
    }
    forall r | r in rows
      ensures exists k: nat, w :: w in Level(g, q, k) && w.row == r
    {
      RowsAreOfRounds(g, q, q.depth, r);
    }
    forall k: nat, w | w in Level(g, q, k)
      ensures w.row in rows
    {
      RowIsReachable(g, q, k, w);
      RoundsAreUpTo(g, q, k, q.depth, w);
    }
    assert forall i, j | 0 <= i < j < |rows| :: !RowBefore(rows[j], rows[i]);
  }

  // ---------------------------------------------------------------- a walk that misses an entity

  ghost predicate HasRow(g: Graph, q: Query, id: Id) {
    exists k: nat, w :: w in Level(g, q, k) && w.row.id == id
  }

  /** Live entities with these IDs, joined by edges along `line`. */
  ghost function LineGraph(ids: set<Id>, line: seq<Id>): Graph {
    Graph(map id | id in ids :: Entity("", false, None),
          set i: nat | i < |line| - 1 :: LineEdge(line, i))
  }

  function LineEdge(line: seq<Id>, i: nat): Edge
    requires i < |line| - 1
  {
    Edge(line[i], line[i + 1], "", None)
  }

  /** The walk from the first entity of `line`. */
  function LineQuery(line: seq<Id>, depth: nat): Query
    requires line != []
  {
    Query([line[0]], None, None, depth)
  }

  ghost predicate IsLine(ids: set<Id>, line: seq<Id>) {
    |line| >= 2 && NoDup(line) && forall id | id in line :: id in ids
  }

  lemma LineStep(ids: set<Id>, line: seq<Id>, i: nat)
    requires IsLine(ids, line) && 0 < i < |line|
    ensures Adjacent(LineGraph(ids, line), line[i - 1], line[i]) && Live(LineGraph(ids, line), line[i])
  {
    var e := LineEdge(line, i - 1);
    assert e in LineGraph(ids, line).edges && Connects(e, line[i - 1], line[i]);
  }

  lemma LineStarts(ids: set<Id>, line: seq<Id>, depth: nat)
    requires IsLine(ids, line)
    ensures IsSeed(LineGraph(ids, line), LineQuery(line, depth), line[0])
  {
    assert line[0] in line;
  }

  lemma {:induction false} LineIsReached(ids: set<Id>, line: seq<Id>, depth: nat, i: nat)
    requires IsLine(ids, line) && i < |line|
    ensures line[i] in Ball(LineGraph(ids, line), LineQuery(line, depth), i)
  {
    if i == 0 {
      LineStarts(ids, line, depth);
    } else {
      LineIsReached(ids, line, depth, i - 1);
      LineStep(ids, line, i);
      BallStep(LineGraph(ids, line), LineQuery(line, depth), i - 1, line[i - 1], line[i]);
    }
  }

  lemma LineNeighbours(ids: set<Id>, line: seq<Id>, e: Edge, i: nat, b: Id)
    requires IsLine(ids, line) && e in LineGraph(ids, line).edges && i < |line| && Connects(e, line[i], b)
    ensures (i > 0 && b == line[i - 1]) || (i + 1 < |line| && b == line[i + 1])
  {
    var j: nat :| j < |line| - 1 && e == LineEdge(line, j);
    assert i == j || i == j + 1;
  }

  /** A simple path from the start of the line follows it. */
  lemma {:induction false} SimplePathFollowsLine(ids: set<Id>, line: seq<Id>, path: seq<Id>, edges: seq<Edge>)
    requires IsLine(ids, line) && EdgesAlong(LineGraph(ids, line), path, edges) && NoDup(path) && path[0] == line[0]
    ensures |path| <= |line| && path == line[..|path|]
  {
    if edges != [] {
      var init, initEdges, last := path[..|path| - 1], edges[..|edges| - 1], edges[|edges| - 1];
      forall i | 0 <= i < |initEdges|
        ensures initEdges[i] in LineGraph(ids, line).edges && Connects(initEdges[i], init[i], init[i + 1])
      {
        assert edges[i] in LineGraph(ids, line).edges && Connects(edges[i], path[i], path[i + 1]);
      }
      SimplePathFollowsLine(ids, line, init, initEdges);
      var k := |init| - 1;
      assert init[k] == line[k] && Connects(last, path[k], path[k + 1]);
      LineNeighbours(ids, line, last, k, path[k + 1]);
      if k > 0 {
        assert path[k - 1] == init[k - 1] == line[k - 1];
      }
    }
  }

  /** A simple path that an edge continues to the end of the line is the line up to there. */
  lemma WayToLast(ids: set<Id>, line: seq<Id>, way: seq<Id>, edges: seq<Edge>, e: Edge)
    requires IsLine(ids, line) && EdgesAlong(LineGraph(ids, line), way, edges) && NoDup(way) && way[0] == line[0]
    requires e in LineGraph(ids, line).edges && Connects(e, way[|way| - 1], line[|line| - 1])
    ensures way == line[..|line| - 1]
  {
    SimplePathFollowsLine(ids, line, way, edges);
    var i := |way| - 1;
    assert way[i] == line[i];
    LineNeighbours(ids, line, e, i, line[|line| - 1]);
  }

  lemma OnlyFirstIsSeed(ids: set<Id>, line: seq<Id>, depth: nat, w: WalkRow)
    requires IsLine(ids, line) && w in Level(LineGraph(ids, line), LineQuery(line, depth), 0)
    ensures w.row.id == line[0] != line[|line| - 1]
  {
  }

  /** A row about the last entity of a line continues the row of the way to it. */
  lemma RowBeforeLast(ids: set<Id>, line: seq<Id>, depth: nat, k: nat, w: WalkRow)
    requires IsLine(ids, line) && w in Level(LineGraph(ids, line), LineQuery(line, depth), k)
    requires w.row.id == line[|line| - 1]
    ensures !Contains(Visited(line[..|line| - 1]), [US] + w.row.id + [US])
  {
    var g, q := LineGraph(ids, line), LineQuery(line, depth);
    if k == 0 {
      OnlyFirstIsSeed(ids, line, depth, w);
    } else {
      var p, e, outgoing := LevelPredecessor(g, q, k, w);
      var way, edges := RowFollowsSimplePath(g, q, k - 1, p);
      WayToLast(ids, line, way, edges, e);
    }
  }

  lemma LineOfMistaken(ids: set<Id>, path: seq<Id>, id: Id)
    requires Mistaken(ids, path, id)
    ensures IsLine(ids, path + [id])
  {
  }

  /** The walk along such a line misses its last entity, however deep it goes. */
  lemma MistakenIsMissed(ids: set<Id>, path: seq<Id>, id: Id, depth: nat)
    requires Mistaken(ids, path, id) && depth >= |path|
    ensures IsLine(ids, path + [id])
    ensures var g, q := LineGraph(ids, path + [id]), LineQuery(path + [id], depth);
            g.entities.Keys == ids && id in Ball(g, q, q.depth) && !HasRow(g, q, id)
  {
    LineOfMistaken(ids, path, id);
    var line := path + [id];
    var g, q := LineGraph(ids, line), LineQuery(line, depth);
    LineIsReached(ids, line, depth, |path|);
    BallGrows(g, q, |path|, depth);
    assert line[..|path|] == path;
    forall k: nat, w | w in Level(g, q, k)
      ensures w.row.id != id
    {
      if w.row.id == id {
        RowBeforeLast(ids, line, depth, k, w);
      }
    }
  }

  ghost predicate FindsAll(g: Graph, q: Query) {
    forall id | id in Ball(g, q, q.depth) :: HasRow(g, q, id)
  }

  lemma UnmistakableFindsAll(g: Graph, q: Query)
    requires IsUnmistakable(g.entities.Keys)
    ensures FindsAll(g, q)
  {
    forall id | id in Ball(g, q, q.depth)
      ensures HasRow(g, q, id)
    {
      var d := LeastDistance(g, q, id, q.depth);
      var w, _ := LayerHasRow(g, q, d, id);
    }
  }

  /**
   For a set of entity IDs: the walk has a row for everything in reach, in every graph over
   them and for every query, exactly if none can be mistaken for visited.
   */
  lemma WalkFindsAllIff(ids: set<Id>)
    ensures (forall g: Graph, q: Query | g.entities.Keys == ids :: FindsAll(g, q)) <==> IsUnmistakable(ids)
  {
    if IsUnmistakable(ids) {
      forall g: Graph, q: Query | g.entities.Keys == ids
        ensures FindsAll(g, q)
      {
        UnmistakableFindsAll(g, q);
      }
    } else {
      var path, id :| Mistaken(ids, path, id);
      var depth := |path|;
      MistakenIsMissed(ids, path, id, depth);
      assert !FindsAll(LineGraph(ids, path + [id]), LineQuery(path + [id], depth));
    }
  }

  lemma MissedIsNotKept(g: Graph, q: Query, rows: seq<Row>, id: Id)
    requires IsQueryResult(g, q, rows) && !HasRow(g, q, id)
    ensures !HasId(FirstRows(rows), id)
  {
    forall r | r in FirstRows(rows)
      ensures r.id != id
    {
      FirstRowIsRow(rows, r);
      var w := RowSource(g, q, rows, r);
    }
  }

  ghost predicate AnswersAreBreadthFirst(g: Graph, q: Query) {
    forall rows | IsQueryResult(g, q, rows) :: IsBreadthFirst(g, q, rows)
  }

  /** The same for what the row loop keeps: it is breadth-first search exactly for such IDs. */
  lemma WalkIsBreadthFirstSearchIff(ids: set<Id>)
    ensures (forall g: Graph, q: Query | g.entities.Keys == ids :: AnswersAreBreadthFirst(g, q)) <==>
            IsUnmistakable(ids)
  {
    if IsUnmistakable(ids) {
      forall g: Graph, q: Query, rows: seq<Row> | g.entities.Keys == ids && IsQueryResult(g, q, rows)
        ensures IsBreadthFirst(g, q, rows)
      {
        WalkIsBreadthFirstSearch(g, q, rows);
      }
    } else {
      var path, id :| Mistaken(ids, path, id);
      var depth := |path|;
      MistakenIsMissed(ids, path, id, depth);
      var g, q := LineGraph(ids, path + [id]), LineQuery(path + [id], depth);
      var rows := AnswerExists(g, q);
      MissedIsNotKept(g, q, rows, id);
      assert !IsBreadthFirst(g, q, rows);
      assert !AnswersAreBreadthFirst(g, q);
    }
  }

  /** An ID whose parts differ is missed by some walk among them, under any depth bound that reaches it. */
  lemma DelimiterMakesWalkMiss(id: Id, depth: nat) returns (g: Graph, q: Query, rows: seq<Row>)
    requires US in id && NoDup(Split(id)) && depth >= |Split(id)|
    ensures q.depth == depth && g.entities.Keys == ToSet(Split(id)) + {id} && IsQueryResult(g, q, rows)
    ensures id in Ball(g, q, q.depth) && !HasId(FirstRows(rows), id)
  {
    var path, ids := Split(id), ToSet(Split(id)) + {id};
    VisitedOfSplit(id);
    PartsAreClean(id);
    assert OccursAt(Visited(path), [US] + id + [US], 0);
    assert Mistaken(ids, path, id);
    MistakenIsMissed(ids, path, id, depth);
    g, q := LineGraph(ids, path + [id]), LineQuery(path + [id], depth);
    rows := AnswerExists(g, q);
    MissedIsNotKept(g, q, rows, id);
  }

  /** Such an ID: two names with the delimiter between them. */
  lemma WalkCanMiss(a: Id, b: Id, depth: nat) returns (g: Graph, q: Query, rows: seq<Row>)
    requires a != b && US !in a && US !in b && depth >= 2
    ensures q.depth == depth && IsQueryResult(g, q, rows)
    ensures a + [US] + b in Ball(g, q, q.depth) && !HasId(FirstRows(rows), a + [US] + b)
  {
    TwoParts(a, b);
    g, q, rows := DelimiterMakesWalkMiss(a + [US] + b, depth);
  }

  lemma TwoParts(a: Id, b: Id)
    requires US !in a && US !in b
    ensures US in a + [US] + b && Split(a + [US] + b) == [a, b]
  {
    SplitOfPart(a);
    SplitOfPart(b);
    SplitOfJoin(a, b);
    assert [a] + [b] == [a, b];
    assert US in a + [US];
  }

  // ---------------------------------------------------------------- the cap

  lemma ShallowerSurvivesCap(rows: seq<Row>, maxNodes: int, n: Row, p: Row)
    requires SortedRows(rows) && n in Capped(FirstRows(rows), maxNodes)
    requires p in FirstRows(rows) && p.depth < n.depth
    ensures p in Capped(FirstRows(rows), maxNodes)
  {
    var all, nodes := FirstRows(rows), Capped(FirstRows(rows), maxNodes);
    FirstRowsAreRows(rows);
    var i :| 0 <= i < |all| && all[i] == p;
    var j :| 0 <= j < |nodes| && nodes[j] == n;
    assert all[j] == n && i < j;
    assert nodes[i] == p;
  }

  /** Under a cap, every entity nearer than a kept row is kept. */
  lemma NearerIsKept(g: Graph, q: Query, rows: seq<Row>, maxNodes: int, n: Row, id: Id, d: nat) returns (p: Row)
    requires IsUnmistakable(g.entities.Keys) && IsQueryResult(g, q, rows)
    requires n in Capped(FirstRows(rows), maxNodes) && AtDistance(g, q, id, d) && d < n.depth
    ensures p in Capped(FirstRows(rows), maxNodes) && p.id == id && p.depth == d
  {
    KeptDepthIsDistance(g, q, rows, n);
    p := KeptAtDistance(g, q, rows, id, d);
    KeptDepthIsDistance(g, q, rows, p);
    DistanceIsUnique(g, q, id, d, p.depth);
    ShallowerSurvivesCap(rows, maxNodes, n, p);
  }

  ghost predicate HasParentRow(g: Graph, nodes: seq<Row>, n: Row) {
    exists p :: p in nodes && p.id == n.parent && p.depth + 1 == n.depth && Adjacent(g, p.id, n.id)
  }

  /**
   With or without a cap, the kept rows form a shortest-path forest, stand in order of depth and
   then category, and are closed downwards: a row is kept only if every nearer entity is kept.
   */
  lemma {:induction false} KeptRowsFormForest(g: Graph, q: Query, rows: seq<Row>, maxNodes: int)
    requires IsUnmistakable(g.entities.Keys) && IsQueryResult(g, q, rows)
    ensures var nodes := Capped(FirstRows(rows), maxNodes);
            && (maxNodes > 0 ==> |nodes| <= maxNodes)
            && (maxNodes <= 0 || |nodes| < maxNodes ==> forall id | id in Ball(g, q, q.depth) :: HasId(nodes, id))
            && (forall n, id, d: nat | n in nodes && AtDistance(g, q, id, d) && d < n.depth :: HasId(nodes, id))
            && (forall n | n in nodes && n.depth == 0 :: n.parent == "" && IsSeed(g, q, n.id))
            && (forall n | n in nodes && n.depth > 0 :: HasParentRow(g, nodes, n))
            && (forall i, j | 0 <= i < j < |nodes| ::
                  if nodes[i].depth == nodes[j].depth then StringLe(nodes[i].category, nodes[j].category)
                  else nodes[i].depth < nodes[j].depth)
  {
    var nodes := Capped(FirstRows(rows), maxNodes);
    FirstRowsAreRows(rows);
    if maxNodes <= 0 || |nodes| < maxNodes {
      WalkIsBreadthFirstSearch(g, q, rows);
      assert nodes == FirstRows(rows);
    }
    forall i, j | 0 <= i < j < |nodes|
      ensures RowLe(nodes[i], nodes[j])
    {
      assert nodes[i] == FirstRows(rows)[i] && nodes[j] == FirstRows(rows)[j];
    }
    forall n, id, d: nat | n in nodes && AtDistance(g, q, id, d) && d < n.depth
      ensures HasId(nodes, id)
    {
      var p := NearerIsKept(g, q, rows, maxNodes, n, id, d);
    }
    forall n | n in nodes
      ensures n.depth == 0 ==> n.parent == "" && IsSeed(g, q, n.id)
      ensures n.depth > 0 ==> HasParentRow(g, nodes, n)
    {
      KeptParentDistance(g, q, rows, n);
      if n.depth > 0 {
        var p := NearerIsKept(g, q, rows, maxNodes, n, n.parent, n.depth - 1);
      }
    }
  }
}
