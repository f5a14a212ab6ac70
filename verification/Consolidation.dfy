/**
 Consolidation passes (src/internal/consolidation/service.go): clusters are cut into
 chunks, and each chunk becomes one transaction that inserts a synthesis, links it to its
 sources and archives them; the index calls follow.
 */
module Consolidation {
  import opened Common
  import opened Stores
  import Clustering

  datatype Policy = Policy(clusterSize: int, dedupThreshold: real)

  datatype Report = Report(nodesClustered: nat, nodesSynthesized: nat, nodesArchived: nat)

  datatype Draft = Draft(category: string, content: string)

  /**
   What the outside world answers while one chunk is processed: the extractor's first
   draft, its embedding (empty without one), the minted ID, and the calls that fail.
   Failures of the edge inserts and of the archiving UPDATE are ignored by the code.
   */
  datatype Answer = Answer(
    draft: Option<Draft>, vec: Vec, newId: Id, now: int,
    beginFails: bool, insertFails: bool, edgeFails: set<Id>, archiveFails: bool, commitFails: bool,
    upsertFails: bool, deleteFails: bool)

  /** A chunk that was committed. */
  datatype Commit = Commit(newId: Id, row: Row, sources: seq<Id>, answer: Answer)

  const EXTRACTED_FROM := "extracted_from"

  predicate AllowedCategory(category: string) {
    category == "fact" || category == "belief" || category == "world" || category == "summary"
  }

  function CommitOf(chunk: seq<Id>, a: Answer): Commit
    requires a.draft.Some?
  {
    var category := if AllowedCategory(a.draft.value.category) then a.draft.value.category else "fact";
    Commit(a.newId, Row(category, a.draft.value.content, a.vec, false, 0.0, a.now), chunk, a)
  }

  /** The stores after a committed chunk and its index calls. */
  function Effect(m: Memory, c: Commit): Memory {
    var rows := m.rows[c.newId := c.row];
    var index := if |c.row.vec| > 0 && !c.answer.upsertFails then m.index[c.newId := c.row.vec] else m.index;
    Memory(
      if c.answer.archiveFails then rows else ArchiveRows(rows, ToSet(c.sources)),
      m.edges + set id | id in c.sources && id !in c.answer.edgeFails :: Edge(c.newId, id, EXTRACTED_FROM),
      if c.answer.deleteFails then index else index - ToSet(c.sources))
  }

  function Effects(m: Memory, history: seq<Commit>): Memory {
    if history == [] then m else Effect(Effects(m, history[..|history| - 1]), history[|history| - 1])
  }

  predicate ValidCommit(m: Memory, c: Commit, size: nat) {
    && c.newId !in m.rows && !c.row.archived
    && 2 <= |c.sources| <= size && NoDup(c.sources)
    && forall id | id in c.sources :: Live(m, id)
  }

  /** Each chunk of `history` was fit to be committed when its turn came. */
  predicate ValidHistory(m: Memory, history: seq<Commit>, size: nat) {
    history != [] ==>
      var init := history[..|history| - 1];
      ValidHistory(m, init, size) && ValidCommit(Effects(m, init), history[|history| - 1], size)
  }

  function AllSources(history: seq<Commit>): seq<Id> {
    if history == [] then []
    else AllSources(history[..|history| - 1]) + history[|history| - 1].sources
  }

  // ---------------------------------------------------------------- one chunk

  /** A chunk is committed exactly if it has a draft, no call of its transaction fails and its ID is new. */
  predicate Commits(m: Memory, a: Answer) {
    a.draft.Some? && !a.beginFails && !a.insertFails && !a.commitFails && a.newId !in m.rows
  }

  /** The new row as the draft describes it; a category outside the four allowed ones becomes "fact". */
  predicate IsSynthesis(row: Row, a: Answer) {
    && a.draft.Some? && row.content == a.draft.value.content && row.vec == a.vec && row.updatedAt == a.now
    && row.confidence == 0.0
    && row.category in {"fact", "belief", "world", "summary"}
    && (row.category == a.draft.value.category
        || (row.category == "fact" && a.draft.value.category !in {"fact", "belief", "world", "summary"}))
  }

  /** What a chunk that was committed leaves of its sources: archived rows, linked and without vectors. */
  predicate SourceIsReplaced(m: Memory, after: Memory, id: Id, a: Answer) {
    && (id in m.rows && id != a.newId ==>
          id in after.rows && after.rows[id] == m.rows[id].(archived := m.rows[id].archived || !a.archiveFails))
    && (id !in a.edgeFails ==> Edge(a.newId, id, "extracted_from") in after.edges)
    && (!a.deleteFails ==> id !in after.index)
  }

  predicate IsUntouched(m: Memory, after: Memory, id: Id) {
    && (id in after.rows <==> id in m.rows) && (id in m.rows ==> after.rows[id] == m.rows[id])
    && (id in after.index <==> id in m.index) && (id in m.index ==> after.index[id] == m.index[id])
  }

  /** The stores after a committed chunk, in terms of its sources and of what the outside world answered. */
  ghost predicate IsConsolidated(m: Memory, after: Memory, chunk: seq<Id>, a: Answer) {
    && a.newId in after.rows && IsSynthesis(after.rows[a.newId], a)
    && (a.newId !in chunk ==> !after.rows[a.newId].archived)
    && (a.newId !in chunk && |a.vec| > 0 && !a.upsertFails ==>
          Searchable(after, a.newId) && IsIndexed(after, a.newId, a.vec))
    && (a.newId !in chunk && (|a.vec| == 0 || a.upsertFails) ==>
          (a.newId in after.index <==> a.newId in m.index)
          && (a.newId in m.index ==> after.index[a.newId] == m.index[a.newId]))
    && (forall id | id in chunk :: SourceIsReplaced(m, after, id, a))
    && (forall id | id !in chunk && id != a.newId :: IsUntouched(m, after, id))
    && m.edges <= after.edges
    && (forall e | e in after.edges && e !in m.edges :: e.source == a.newId && e.target in chunk)
  }

  /** A committed chunk leaves a row that searches find, and archived sources that are linked to it. */
  lemma ChunkIsConsolidated(m: Memory, chunk: seq<Id>, a: Answer)
    requires a.draft.Some?
    ensures IsConsolidated(m, Effect(m, CommitOf(chunk, a)), chunk, a)
  {
    var after := Effect(m, CommitOf(chunk, a));
    assert forall id | id in chunk :: id in ToSet(chunk);
  }

  method SynthesizeChunk(store: MemoryStore, chunk: seq<Id>, a: Answer) returns (ok: bool, archived: nat)
    modifies store
    ensures ok <==> Commits(old(store.Value()), a)
    ensures ok <==> a.draft.Some? && !a.beginFails && !a.insertFails && a.newId !in old(store.rows) && !a.commitFails
    ensures ok ==> IsConsolidated(old(store.Value()), store.Value(), chunk, a)
    ensures ok ==> archived == |chunk| && store.Value() == Effect(old(store.Value()), CommitOf(chunk, a))
    ensures !ok ==> archived == 0 && store.Value() == old(store.Value())
  {
    if a.draft.None? {
      return false, 0;
    }
    var category := a.draft.value.category;
    if category == "" || !AllowedCategory(category) {
      category := "fact";
    }
    if a.beginFails {
      return false, 0;
    }
    var rows, edges := store.rows, store.edges;
    if a.insertFails || a.newId in rows {
      return false, 0;
    }
    rows := rows[a.newId := Row(category, a.draft.value.content, a.vec, false, 0.0, a.now)];
    for i := 0 to |chunk|
      invariant edges == old(store.edges) +
                         set id | id in chunk[..i] && id !in a.edgeFails :: Edge(a.newId, id, EXTRACTED_FROM)
    {
      assert chunk[..i + 1] == chunk[..i] + [chunk[i]];
      if chunk[i] !in a.edgeFails {
        edges := edges + {Edge(a.newId, chunk[i], EXTRACTED_FROM)};
      }
    }
    assert chunk[..|chunk|] == chunk;
    if !a.archiveFails {
      rows := ArchiveRows(rows, ToSet(chunk));
    }
    if a.commitFails {
      return false, 0;
    }
    store.rows, store.edges := rows, edges;
    if |a.vec| > 0 && !a.upsertFails {
      store.index := store.index[a.newId := a.vec];
    }
    if !a.deleteFails {
      store.index := store.index - ToSet(chunk);
    }
    ChunkIsConsolidated(old(store.Value()), chunk, a);
    return true, |chunk|;
  }

  /** What a commit needs of the tables: a new ID, also among its sources. */
  predicate Lands(m: Memory, c: Commit) {
    c.newId !in m.rows && !c.row.archived && c.newId !in c.sources
  }

  lemma ValidCommitLands(m: Memory, c: Commit, size: nat)
    requires ValidCommit(m, c, size)
    ensures Lands(m, c)
  {
  }

  /** The calls that failed leave the synthesis or a source outside the index. */
  ghost predicate Uncovers(m: Memory, c: Commit) {
    || (c.answer.upsertFails && |c.row.vec| > 0 && !IsIndexed(m, c.newId, c.row.vec))
    || (c.answer.archiveFails && !c.answer.deleteFails && exists id | id in c.sources :: Searchable(m, id))
  }

  /**
   A committed chunk keeps coverage, whatever became of its sources meanwhile, except
   exactly when its vector was not stored, or the archiving UPDATE failed unnoticed and
   the vectors of searchable sources were deleted.
   */
  lemma CommitKeepsCoverage(m: Memory, c: Commit)
    requires Coverage(m) && Lands(m, c)
    ensures Coverage(Effect(m, c)) <==> !Uncovers(m, c)
  {
    var after := Effect(m, c);
    assert forall id | id !in c.sources && id != c.newId :: Covered(m, id) ==> Covered(after, id);
    assert Covered(after, c.newId) <==> !(c.answer.upsertFails && |c.row.vec| > 0 && !IsIndexed(m, c.newId, c.row.vec));
    assert forall id | id in c.sources :: Covered(m, id);
    if c.answer.archiveFails && !c.answer.deleteFails {
      forall id | id in c.sources && Searchable(m, id)
        ensures !Covered(after, id)
      {
      }
    }
  }

  /** Two searchable rows are consolidated, the UPDATE fails unnoticed: both stay live and leave the index. */
  lemma UnnoticedFailureUncovers(row: Row, a: Answer) returns (m: Memory, c: Commit)
    requires |row.vec| > 0 && !row.archived && a.draft.Some? && a.newId !in {"a", "b"}
    requires a.archiveFails && !a.deleteFails && !a.upsertFails
    ensures Coverage(m) && ValidCommit(m, c, 2) && c == CommitOf(["a", "b"], a)
    ensures Live(Effect(m, c), "a") && "a" !in Effect(m, c).index && !Coverage(Effect(m, c))
  {
    m := Memory(map["a" := row, "b" := row], {}, map["a" := row.vec, "b" := row.vec]);
    c := CommitOf(["a", "b"], a);
    assert forall id :: Covered(m, id);
    assert "a" in c.sources && Searchable(m, "a");
    CommitKeepsCoverage(m, c);
  }

  // ---------------------------------------------------------------- one pass

  /** The rows of the candidate query: live observations and facts, each once. */
  ghost predicate IsCandidateList(m: Memory, candidates: seq<Id>) {
    && NoDup(candidates)
    && forall id :: id in candidates <==> Live(m, id) && m.rows[id].category in {"observation", "fact"}
  }

  function InputOf(m: Memory, candidates: seq<Id>, similarity: (Vec, Vec) -> real, threshold: real, keys: set<string>):
    (input: Clustering.Input)
    requires forall id | id in candidates :: id in m.rows
    ensures |input.entities| == |candidates| && input.threshold == threshold && input.edges == keys
    ensures forall i | 0 <= i < |candidates| ::
              candidates[i] in m.rows && input.entities[i].id == candidates[i]
              && input.entities[i].embedding == m.rows[candidates[i]].vec
  {
    assert forall i | 0 <= i < |candidates| :: candidates[i] in candidates;
    Clustering.Input(
      seq(|candidates|, i requires 0 <= i < |candidates| =>
        assert candidates[i] in candidates; Clustering.Entity(candidates[i], m.rows[candidates[i]].vec)),
      similarity, threshold, keys)
  }

  function TotalSize(clusters: seq<seq<nat>>): nat {
    if clusters == [] then 0 else TotalSize(clusters[..|clusters| - 1]) + |clusters[|clusters| - 1]|
  }

  function Pick(candidates: seq<Id>, cluster: seq<nat>): (picked: seq<Id>)
    requires forall x | x in cluster :: x < |candidates|
    ensures |picked| == |cluster| && forall id | id in picked :: id in candidates
    ensures forall i | 0 <= i < |cluster| :: cluster[i] in cluster && picked[i] == candidates[cluster[i]]
  {
    assert forall i | 0 <= i < |cluster| :: cluster[i] in cluster;
    seq(|cluster|, i requires 0 <= i < |cluster| => candidates[cluster[i]])
  }

  /** What a pass has done so far. */
  ghost predicate PassSoFar(start: Memory, now: Memory, history: seq<Commit>, size: nat, rep: Report) {
    && ValidHistory(start, history, size) && now == Effects(start, history)
    && rep.nodesSynthesized == |history| && rep.nodesArchived == |AllSources(history)|
  }

  /** `id` is a candidate that no chunk has touched. */
  ghost predicate Untouched(now: Memory, history: seq<Commit>, id: Id) {
    Live(now, id) && id !in AllSources(history)
  }

  lemma HistoryGrows(start: Memory, history: seq<Commit>, size: nat, c: Commit)
    requires ValidHistory(start, history, size) && ValidCommit(Effects(start, history), c, size)
    ensures ValidHistory(start, history + [c], size)
    ensures Effects(start, history + [c]) == Effect(Effects(start, history), c)
    ensures AllSources(history + [c]) == AllSources(history) + c.sources
  {
    assert (history + [c])[..|history|] == history;
  }

  /** A committed chunk of untouched rows extends the pass and touches nothing else. */
  lemma PassGrows(start: Memory, now: Memory, history: seq<Commit>, size: nat, rep: Report, c: Commit)
    requires PassSoFar(start, now, history, size, rep) && ValidCommit(now, c, size)
    ensures PassSoFar(start, Effect(now, c), history + [c], size,
                      rep.(nodesSynthesized := rep.nodesSynthesized + 1,
                           nodesArchived := rep.nodesArchived + |c.sources|))
    ensures forall id | Untouched(now, history, id) && id !in c.sources :: Untouched(Effect(now, c), history + [c], id)
  {
    HistoryGrows(start, history, size, c);
  }

  lemma SliceIsApart(members: seq<Id>, lo: nat, hi: nat)
    requires NoDup(members) && lo <= hi <= |members|
    ensures NoDup(members[lo..hi])
    ensures forall id | id in members[hi..] :: id in members[lo..] && id !in members[lo..hi]
    ensures forall id | id in members[lo..hi] :: id in members[lo..]
  {
    forall id | id in members[hi..]
      ensures id in members[lo..] && id !in members[lo..hi]
    {
      var k :| hi <= k < |members| && members[k] == id;
      assert members[lo..][k - lo] == id;
    }
    assert members[lo..hi] == members[lo..][..hi - lo];
  }

  // ---------------------------------------------------------------- which chunks a pass tries

  /** Where a pass stands: the stores, and the chunks committed so far. */
  datatype Pass = Pass(now: Memory, history: seq<Commit>)

  function AfterChunk(pass: Pass, chunk: seq<Id>, a: Answer): Pass {
    if Commits(pass.now, a) then
      Pass(Effect(pass.now, CommitOf(chunk, a)), pass.history + [CommitOf(chunk, a)])
    else pass
  }

  /** The chunks one after another; the `i`-th meets the `i`-th answer. */
  function PassOver(start: Memory, chunks: seq<seq<Id>>, answers: nat -> Answer): Pass {
    if chunks == [] then Pass(start, [])
    else AfterChunk(PassOver(start, chunks[..|chunks| - 1], answers), chunks[|chunks| - 1], answers(|chunks| - 1))
  }

  /** A list cut into pieces of `size` from position `lo` on, without a last piece of one. */
  function Chunks(members: seq<Id>, size: nat, lo: nat): seq<seq<Id>>
    requires size > 0 && lo <= |members|
    decreases |members| - lo
  {
    if lo == |members| then []
    else
      var hi := if lo + size > |members| then |members| else lo + size;
      (if hi - lo < 2 then [] else [members[lo..hi]]) + Chunks(members, size, hi)
  }

  function Joined(chunks: seq<seq<Id>>): seq<Id> {
    if chunks == [] then [] else chunks[0] + Joined(chunks[1..])
  }

  lemma JoinedStep(chunk: seq<Id>, rest: seq<seq<Id>>)
    ensures Joined([chunk] + rest) == chunk + Joined(rest)
  {
    assert ([chunk] + rest)[1..] == rest;
  }

  lemma {:induction false} ChunksFit(members: seq<Id>, size: nat, lo: nat)
    requires size >= 2 && lo <= |members|
    ensures forall k | 0 <= k < |Chunks(members, size, lo)| :: 2 <= |Chunks(members, size, lo)[k]| <= size
    ensures forall k | 0 <= k < |Chunks(members, size, lo)| - 1 :: |Chunks(members, size, lo)[k]| == size
    decreases |members| - lo
  {
    if lo < |members| {
      ChunksFit(members, size, if lo + size > |members| then |members| else lo + size);
    }
  }

  lemma {:induction false} ChunksJoin(members: seq<Id>, size: nat, lo: nat) returns (end: nat)
    requires size >= 2 && lo <= |members|
    ensures lo <= end <= |members| <= end + 1 && Joined(Chunks(members, size, lo)) == members[lo..end]
    decreases |members| - lo
  {
    end := lo;
    if lo < |members| {
      var hi := if lo + size > |members| then |members| else lo + size;
      var rest := ChunksJoin(members, size, hi);
      if hi - lo >= 2 {
        end := rest;
        JoinedStep(members[lo..hi], Chunks(members, size, hi));
        assert members[lo..hi] + members[hi..end] == members[lo..end];
      }
    }
  }

  /** Cutting loses, reorders and repeats nothing, but for a last member that would stand alone. */
  lemma ChunksCoverMembers(members: seq<Id>, size: nat, lo: nat) returns (end: nat)
    requires size >= 2 && lo <= |members|
    ensures lo <= end <= |members| <= end + 1 && Joined(Chunks(members, size, lo)) == members[lo..end]
    ensures forall k | 0 <= k < |Chunks(members, size, lo)| :: 2 <= |Chunks(members, size, lo)[k]| <= size
    ensures forall k | 0 <= k < |Chunks(members, size, lo)| - 1 :: |Chunks(members, size, lo)[k]| == size
  {
    ChunksFit(members, size, lo);
    end := ChunksJoin(members, size, lo);
  }

  /** The chunks of the first `n` clusters. */
  function ChunksOf(candidates: seq<Id>, clusters: seq<seq<nat>>, size: nat, n: nat): seq<seq<Id>>
    requires size > 0 && n <= |clusters|
    requires forall k, x: nat | 0 <= k < |clusters| && x in clusters[k] :: x < |candidates|
  {
    if n == 0 then []
    else ChunksOf(candidates, clusters, size, n - 1) + Chunks(Pick(candidates, clusters[n - 1]), size, 0)
  }

  /** A pass that has tried exactly the chunks in `tried`. */
  ghost predicate HasTried(start: Memory, now: Memory, history: seq<Commit>, size: nat, rep: Report,
                           tried: seq<seq<Id>>, answers: nat -> Answer)
  {
    PassSoFar(start, now, history, size, rep) && Pass(now, history) == PassOver(start, tried, answers)
  }

  method ConsolidateChunk(store: MemoryStore, chunk: seq<Id>, size: nat, answers: nat -> Answer, next: nat, rep: Report,
                          ghost start: Memory, ghost before: seq<Commit>, ghost tried: seq<seq<Id>>)
    returns (rep': Report, ghost history: seq<Commit>)
    requires 2 <= |chunk| <= size && NoDup(chunk) && next == |tried|
    requires HasTried(start, store.Value(), before, size, rep, tried, answers)
    requires forall id | id in chunk :: Untouched(store.Value(), before, id)
    modifies store
    ensures HasTried(start, store.Value(), history, size, rep', tried + [chunk], answers)
    ensures rep'.nodesClustered == rep.nodesClustered && rep'.nodesArchived <= rep.nodesArchived + |chunk|
    ensures forall id | Untouched(old(store.Value()), before, id) && id !in chunk ::
              Untouched(store.Value(), history, id)
    ensures forall id | id in AllSources(history) :: id in AllSources(before) || id in chunk
  {
    rep', history := rep, before;
    ghost var now := store.Value();
    assert (tried + [chunk])[..next] == tried;
    var ok, archived := SynthesizeChunk(store, chunk, answers(next));
    if ok {
      ghost var c := CommitOf(chunk, answers(next));
      PassGrows(start, now, before, size, rep, c);
      AllSourcesGrow(before, c);
      history := before + [c];
      rep' := rep.(nodesSynthesized := rep.nodesSynthesized + 1, nodesArchived := rep.nodesArchived + archived);
    }
  }

  lemma ChunksStep(members: seq<Id>, size: nat, lo: nat, hi: nat, tried: seq<seq<Id>>)
    requires size > 0 && lo < |members| && hi == if lo + size > |members| then |members| else lo + size
    ensures tried + Chunks(members, size, lo) ==
            (if hi - lo < 2 then tried else tried + [members[lo..hi]]) + Chunks(members, size, hi)
  {
    if hi - lo >= 2 {
      Regroup(tried, [members[lo..hi]], Chunks(members, size, hi));
    }
  }

  lemma Regroup(a: seq<seq<Id>>, b: seq<seq<Id>>, c: seq<seq<Id>>)
    ensures a + (b + c) == (a + b) + c
  {
  }

  /** Consumes the members of one cluster, chunk by chunk; a last chunk of one is skipped. */
  method ConsolidateCluster(store: MemoryStore, members: seq<Id>, size: nat, answers: nat -> Answer, first: nat,
                            rep: Report, ghost start: Memory, ghost before: seq<Commit>, ghost earlier: seq<seq<Id>>)
    returns (rep': Report, next: nat, ghost history: seq<Commit>)
    requires size > 0 && NoDup(members) && first == |earlier|
    requires HasTried(start, store.Value(), before, size, rep, earlier, answers)
    requires forall id | id in members :: Untouched(store.Value(), before, id)
    modifies store
    ensures HasTried(start, store.Value(), history, size, rep', earlier + Chunks(members, size, 0), answers)
    ensures next == |earlier + Chunks(members, size, 0)|
    ensures rep'.nodesClustered == rep.nodesClustered && rep'.nodesArchived <= rep.nodesArchived + |members|
    ensures forall id | Untouched(old(store.Value()), before, id) && id !in members ::
              Untouched(store.Value(), history, id)
    ensures forall id | id in AllSources(history) :: id in AllSources(before) || id in members
  {
    rep', next, history := rep, first, before;
    ghost var entry, tried := store.Value(), earlier;
    var lo := 0;
    while lo < |members|
      invariant 0 <= lo <= |members|
      invariant HasTried(start, store.Value(), history, size, rep', tried, answers) && next == |tried|
      invariant tried + Chunks(members, size, lo) == earlier + Chunks(members, size, 0)
      invariant rep'.nodesClustered == rep.nodesClustered && rep'.nodesArchived <= rep.nodesArchived + lo
      invariant forall id | id in members[lo..] :: Untouched(store.Value(), history, id)
      invariant forall id | Untouched(entry, before, id) && id !in members :: Untouched(store.Value(), history, id)
      invariant forall id | id in AllSources(history) :: id in AllSources(before) || id in members
    {
      var hi := lo + size;
      if hi > |members| {
        hi := |members|;
      }
      SliceIsApart(members, lo, hi);
      ChunksStep(members, size, lo, hi, tried);
      if hi - lo >= 2 {
        rep', history := ConsolidateChunk(store, members[lo..hi], size, answers, next, rep', start, history, tried);
        tried := tried + [members[lo..hi]];
        next := next + 1;
      }
      lo := hi;
    }
    assert tried == tried + Chunks(members, size, lo);
  }

  lemma PickIsDistinct(candidates: seq<Id>, cluster: seq<nat>)
    requires NoDup(candidates) && NoDup(cluster) && (forall x | x in cluster :: x < |candidates|)
    ensures NoDup(Pick(candidates, cluster))
  {
    var picked := Pick(candidates, cluster);
    forall i, j | 0 <= i < j < |picked|
      ensures picked[i] != picked[j]
    {
      assert cluster[i] in cluster && cluster[j] in cluster;
    }
  }

  lemma PicksAreApart(candidates: seq<Id>, one: seq<nat>, two: seq<nat>, id: Id)
    requires NoDup(candidates) && (forall x | x in one :: x < |candidates|) && (forall x | x in two :: x < |candidates|)
    requires forall x | x in one :: x !in two
    requires id in Pick(candidates, one)
    ensures id !in Pick(candidates, two)
  {
    var i :| 0 <= i < |one| && Pick(candidates, one)[i] == id;
    assert one[i] in one;
    forall j | 0 <= j < |two|
      ensures Pick(candidates, two)[j] != id
    {
      assert two[j] in two;
    }
  }

  function ChunkSize(policy: Policy): (size: nat)
    ensures if policy.clusterSize > 0 then size == policy.clusterSize else size == 20
  {
    if policy.clusterSize <= 0 then 20 else policy.clusterSize
  }

  function Threshold(policy: Policy): (threshold: real)
    ensures if policy.dedupThreshold > 0.0 then threshold == policy.dedupThreshold else threshold == 0.88
  {
    if policy.dedupThreshold <= 0.0 then 0.88 else policy.dedupThreshold
  }

  /** Duplicate-free lists of indices below `n` that share no index. */
  ghost predicate AreDisjointLists(clusters: seq<seq<nat>>, n: nat) {
    && (forall k | 0 <= k < |clusters| :: NoDup(clusters[k]) && forall x | x in clusters[k] :: x < n)
    && (forall k, l, x: nat | 0 <= k < l < |clusters| && x in clusters[k] :: x !in clusters[l])
  }

  /** The indices that some cluster lists. */
  ghost function Clustered(clusters: seq<seq<nat>>): set<nat> {
    set k, x | 0 <= k < |clusters| && x in clusters[k] :: x
  }

  lemma {:induction false} SizeOfClustered(clusters: seq<seq<nat>>, n: nat)
    requires AreDisjointLists(clusters, n)
    ensures |Clustered(clusters)| == TotalSize(clusters)
  {
    if clusters != [] {
      var init, last := clusters[..|clusters| - 1], clusters[|clusters| - 1];
      SizeOfClustered(init, n);
      SizeOfDistinct(last);
      forall x
        ensures x in Clustered(clusters) <==> x in Clustered(init) || x in last
      {
        if x in Clustered(init) {
          var k :| 0 <= k < |init| && x in init[k];
          assert x in clusters[k];
        }
      }
      assert Clustered(clusters) == Clustered(init) + ToSet(last);
      assert Clustered(init) !! ToSet(last);
    }
  }

  /** Disjoint lists of indices below `n` hold as many in all as there are listed, at most `n`. */
  lemma ClustersFit(clusters: seq<seq<nat>>, n: nat)
    requires AreDisjointLists(clusters, n)
    ensures TotalSize(clusters) == |Clustered(clusters)| <= n
  {
    SizeOfClustered(clusters, n);
    SubsetSize(Clustered(clusters), Below(n));
  }

  /** The clusters one after another. */
  method ConsolidateClusters(store: MemoryStore, candidates: seq<Id>, clusters: seq<seq<nat>>, size: nat,
                             answers: nat -> Answer, clustered: nat)
    returns (rep: Report, ghost history: seq<Commit>)
    requires size > 0 && NoDup(candidates) && (forall id | id in candidates :: Live(store.Value(), id))
    requires AreDisjointLists(clusters, |candidates|)
    modifies store
    ensures HasTried(old(store.Value()), store.Value(), history, size, rep,
                     ChunksOf(candidates, clusters, size, |clusters|), answers)
    ensures rep.nodesClustered == clustered && rep.nodesArchived <= TotalSize(clusters)
    ensures forall id | id in AllSources(history) :: id in candidates
  {
    rep, history := Report(clustered, 0, 0), [];
    ghost var start := store.Value();
    var next := 0;
    for i := 0 to |clusters|
      invariant HasTried(start, store.Value(), history, size, rep, ChunksOf(candidates, clusters, size, i), answers)
      invariant rep.nodesClustered == clustered && rep.nodesArchived <= TotalSize(clusters[..i])
      invariant forall k, id | i <= k < |clusters| && id in Pick(candidates, clusters[k]) ::
                  Untouched(store.Value(), history, id)
      invariant next == |ChunksOf(candidates, clusters, size, i)|
      invariant forall id | id in AllSources(history) :: id in candidates
    {
      assert clusters[..i + 1][..i] == clusters[..i];
      PickIsDistinct(candidates, clusters[i]);
      forall k, id | i + 1 <= k < |clusters| && id in Pick(candidates, clusters[k])
        ensures id !in Pick(candidates, clusters[i])
      {
        PicksAreApart(candidates, clusters[k], clusters[i], id);
      }
      rep, next, history := ConsolidateCluster(store, Pick(candidates, clusters[i]), size, answers, next, rep,
                                               start, history,
                                               ChunksOf(candidates, clusters, size, i));
    }
    assert clusters[..|clusters|] == clusters;
  }

  /** The clusters are the connected components of two members and more, all of them. */
  ghost predicate AreAllComponents(links: set<(nat, nat)>, n: nat, clusters: seq<seq<nat>>) {
    && (forall k | 0 <= k < |clusters| :: Clustering.IsComponent(links, n, clusters[k]))
    && AreDisjointLists(clusters, n)
    && forall x: nat, y: nat | x != y && x < n && y < n && Clustering.Connected(links, x, y) ::
         Clustering.InCluster(clusters, x)
  }

  /**
   The clusters are the components of the key test, and with harmless keys also those of what
   they are meant to join: edge rows and similarities.
   */
  ghost predicate AreClustersOf(input: Clustering.Input, edgeRows: seq<(Id, Id)>, clusters: seq<seq<nat>>) {
    && AreAllComponents(Clustering.Links(input), |input.entities|, clusters)
    && (Clustering.KeysAreHarmless(input) ==>
          AreAllComponents(Clustering.RowLinks(input, edgeRows), |input.entities|, clusters))
  }

  lemma FewHaveNoClusters(input: Clustering.Input, edgeRows: seq<(Id, Id)>)
    requires |input.entities| < 2
    ensures AreClustersOf(input, edgeRows, [])
  {
  }

  lemma ComponentsAreClusters(input: Clustering.Input, edgeRows: seq<(Id, Id)>, clusters: seq<seq<nat>>)
    requires input.edges == Clustering.KeysOf(edgeRows)
    requires AreAllComponents(Clustering.Links(input), |input.entities|, clusters)
    ensures AreClustersOf(input, edgeRows, clusters)
  {
    if Clustering.KeysAreHarmless(input) {
      assert Clustering.WithRows(input, edgeRows) == input;
      ComponentsByRows(input, edgeRows, clusters);
    }
  }

  /** With harmless keys these are the components of what the clusters are meant to join: edge rows and similarities. */
  lemma ComponentsByRows(input: Clustering.Input, edgeRows: seq<(Id, Id)>, clusters: seq<seq<nat>>)
    requires Clustering.KeysAreHarmless(input)
    ensures AreAllComponents(Clustering.Links(Clustering.WithRows(input, edgeRows)), |input.entities|, clusters) <==>
            AreAllComponents(Clustering.RowLinks(input, edgeRows), |input.entities|, clusters)
  {
    Clustering.HarmlessKeysFollowRows(input, edgeRows);
    forall k | 0 <= k < |clusters| {
      Clustering.ComponentsAreRowComponents(input, edgeRows, clusters[k]);
    }
  }

  method CountMembers(clusters: seq<seq<nat>>) returns (clustered: nat)
    ensures clustered == TotalSize(clusters)
  {
    clustered := 0;
    for i := 0 to |clusters|
      invariant clustered == TotalSize(clusters[..i])
    {
      assert clusters[..i + 1][..i] == clusters[..i];
      clustered := clustered + |clusters[i]|;
    }
    assert clusters[..|clusters|] == clusters;
  }

  /**
   One pass over the candidates and edges it has read.  The stores end as if exactly the chunks of all
   connected components had been tried in turn; what is committed was live and untouched at that moment.
   */
  method RunOnce(store: MemoryStore, policy: Policy, candidates: seq<Id>, edgeRows: seq<(Id, Id)>,
                 similarity: (Vec, Vec) -> real, hasExtractor: bool, answers: nat -> Answer)
    returns (rep: Report, ghost history: seq<Commit>, ghost clusters: seq<seq<nat>>)
    requires IsCandidateList(store.Value(), candidates)
    modifies store
    ensures var input := InputOf(old(store.Value()), candidates, similarity, Threshold(policy),
                                 Clustering.KeysOf(edgeRows));
            AreClustersOf(input, edgeRows, clusters)
    ensures var tried := if hasExtractor then ChunksOf(candidates, clusters, ChunkSize(policy), |clusters|) else [];
            HasTried(old(store.Value()), store.Value(), history, ChunkSize(policy), rep, tried, answers)
    ensures forall id | id in AllSources(history) ::
              id in old(store.rows) && old(store.rows)[id].category in {"observation", "fact"}
    ensures rep.nodesClustered == |Clustered(clusters)| && rep.nodesArchived <= rep.nodesClustered <= |candidates|
  {
    rep, history, clusters := Report(0, 0, 0), [], [];
    ghost var was := InputOf(store.Value(), candidates, similarity, Threshold(policy), Clustering.KeysOf(edgeRows));
    if |candidates| < 2 {
      FewHaveNoClusters(was, edgeRows);
      return;
    }
    var keys := Clustering.LoadEdgeSet(edgeRows);
    var input := InputOf(store.Value(), candidates, similarity, Threshold(policy), keys);
    var found := Clustering.ClusterEntitiesWithEdges(input);
    clusters := found;
    assert input == was;
    ComponentsAreClusters(input, edgeRows, found);
    var clustered := CountMembers(found);
    assert AreDisjointLists(found, |candidates|);
    ClustersFit(found, |candidates|);
    if !hasExtractor {
      rep := rep.(nodesClustered := clustered);
      return;
    }
    rep, history := ConsolidateClusters(store, candidates, found, ChunkSize(policy), answers, clustered);
  }

  // ---------------------------------------------------------------- any number of passes

  /** The archiving UPDATE of every chunk took effect. */
  predicate ArchivesWork(history: seq<Commit>) {
    forall c | c in history :: !c.answer.archiveFails
  }

  /** No edge insert of the chunk failed. */
  predicate KeepsEdges(c: Commit) {
    forall id | id in c.sources :: id !in c.answer.edgeFails
  }

  /** Histories of passes, each starting where the one before ended. */
  predicate ValidPasses(m: Memory, passes: seq<seq<Commit>>, size: nat) {
    passes != [] ==>
      var init := passes[..|passes| - 1];
      ValidPasses(m, init, size) && ValidHistory(Effects(m, Flat(init)), passes[|passes| - 1], size)
  }

  function Flat(passes: seq<seq<Commit>>): seq<Commit> {
    if passes == [] then [] else Flat(passes[..|passes| - 1]) + passes[|passes| - 1]
  }

  lemma {:induction false} HistoriesCompose(m: Memory, first: seq<Commit>, second: seq<Commit>, size: nat)
    requires ValidHistory(m, first, size) && ValidHistory(Effects(m, first), second, size)
    ensures ValidHistory(m, first + second, size)
    ensures Effects(m, first + second) == Effects(Effects(m, first), second)
  {
    if second == [] {
      assert first + second == first;
    } else {
      var init := second[..|second| - 1];
      HistoriesCompose(m, first, init, size);
      assert (first + second)[..|first + second| - 1] == first + init;
    }
  }

  /** Any number of passes is one valid history, so what follows holds across passes. */
  lemma {:induction false} PassesAreOneHistory(m: Memory, passes: seq<seq<Commit>>, size: nat)
    requires ValidPasses(m, passes, size)
    ensures ValidHistory(m, Flat(passes), size)
  {
    if passes != [] {
      var init := passes[..|passes| - 1];
      PassesAreOneHistory(m, init, size);
      HistoriesCompose(m, Flat(init), passes[|passes| - 1], size);
    }
  }

  predicate Archived(m: Memory, id: Id) {
    id in m.rows && m.rows[id].archived
  }

  /** No row is archived twice, and no row loses its content or its vector. */
  lemma {:induction false} SourcesAreArchivedOnce(m: Memory, history: seq<Commit>, size: nat)
    requires ValidHistory(m, history, size) && ArchivesWork(history)
    ensures NoDup(AllSources(history))
    ensures forall id | id in AllSources(history) :: Archived(Effects(m, history), id)
    ensures forall id | id in m.rows ::
              id in Effects(m, history).rows &&
              Effects(m, history).rows[id].(archived := m.rows[id].archived) == m.rows[id]
  {
    if history != [] {
      var init, c := history[..|history| - 1], history[|history| - 1];
      SourcesAreArchivedOnce(m, init, size);
      var before, sources := Effects(m, init), AllSources(init);
      assert c in history;
      forall i, j | 0 <= i < |sources| && 0 <= j < |c.sources|
        ensures sources[i] != c.sources[j]
      {
        assert sources[i] in sources && c.sources[j] in c.sources;
        assert Archived(before, sources[i]) && Live(before, c.sources[j]);
      }
    }
  }

  /**
   Every synthesis stays in the table as it was drafted; until it is consolidated in turn,
   it is found by search, if its vector could be written.
   */
  lemma {:induction false} SynthesesRemain(m: Memory, history: seq<Commit>, size: nat, c: Commit)
    requires ValidHistory(m, history, size) && c in history
    ensures var after := Effects(m, history);
            && c.newId in after.rows && after.rows[c.newId].(archived := false) == c.row
            && (c.newId !in AllSources(history) ==> Live(after, c.newId))
            && (c.newId !in AllSources(history) && |c.row.vec| > 0 && !c.answer.upsertFails ==>
                  Searchable(after, c.newId) && IsIndexed(after, c.newId, c.row.vec))
  {
    var init, last := history[..|history| - 1], history[|history| - 1];
    if c in init {
      SynthesesRemain(m, init, size, c);
    }
  }

  function LiveIds(m: Memory): set<Id> {
    set id | id in m.rows && Live(m, id)
  }

  lemma ChunkIsTraded(m: Memory, c: Commit, size: nat)
    requires ValidCommit(m, c, size) && !c.answer.archiveFails
    ensures |LiveIds(Effect(m, c))| + |c.sources| == |LiveIds(m)| + 1
    ensures LiveIds(Effect(m, c)) != {}
  {
    var before, after, sources := LiveIds(m), LiveIds(Effect(m, c)), ToSet(c.sources);
    SizeOfDistinct(c.sources);
    assert after == before - sources + {c.newId};
    assert before == (before - sources) + sources;
  }

  /**
   Bookkeeping over a history: each chunk trades its sources for one row, so there are
   fewer syntheses than rows that were live at the start.
   */
  lemma {:induction false} LiveRowsAreTraded(m: Memory, history: seq<Commit>, size: nat)
    requires ValidHistory(m, history, size) && ArchivesWork(history)
    ensures |LiveIds(Effects(m, history))| + |AllSources(history)| == |LiveIds(m)| + |history|
    ensures |AllSources(history)| >= 2 * |history|
    ensures history != [] ==> |history| < |LiveIds(m)|
  {
    if history != [] {
      var init, c := history[..|history| - 1], history[|history| - 1];
      LiveRowsAreTraded(m, init, size);
      assert c in history;
      ChunkIsTraded(Effects(m, init), c, size);
    }
  }

  /** A chain of provenance edges from an archived row up to a live synthesis. */
  ghost predicate IsProvenance(m: Memory, id: Id, chain: seq<Id>) {
    && |chain| >= 2 && chain[0] == id && Live(m, chain[|chain| - 1])
    && forall i | 0 <= i < |chain| - 1 :: Edge(chain[i + 1], chain[i], EXTRACTED_FROM) in m.edges
  }

  /** Every archived source is represented by a live row it can be reached from. */
  lemma {:induction false} SourcesKeepProvenance(m: Memory, history: seq<Commit>, size: nat, id: Id)
    returns (chain: seq<Id>)
    requires ValidHistory(m, history, size) && ArchivesWork(history) && id in AllSources(history)
    requires forall c | c in history :: KeepsEdges(c)
    ensures IsProvenance(Effects(m, history), id, chain)
  {
    var init, c := history[..|history| - 1], history[|history| - 1];
    var after := Effects(m, history);
    assert c in history;
    if id in c.sources {
      chain := [id, c.newId];
      assert Edge(c.newId, id, EXTRACTED_FROM) in after.edges;
    } else {
      chain := SourcesKeepProvenance(m, init, size, id);
      var top := chain[|chain| - 1];
      if top in c.sources {
        var shorter := chain;
        chain := chain + [c.newId];
        assert Edge(c.newId, top, EXTRACTED_FROM) in after.edges;
        assert forall i | 0 <= i < |shorter| :: chain[i] == shorter[i];
      }
    }
  }

  ghost predicate HasProvenance(m: Memory, id: Id) {
    exists chain :: IsProvenance(m, id, chain)
  }

  ghost predicate Drew(history: seq<Commit>, newId: Id, source: Id) {
    exists c :: c in history && c.newId == newId && source in c.sources && source !in c.answer.edgeFails
  }

  /** Provenance edges come from commits. */
  lemma {:induction false} EdgesComeFromCommits(m: Memory, history: seq<Commit>, e: Edge)
    requires e.relation == EXTRACTED_FROM && e !in m.edges && e in Effects(m, history).edges
    ensures Drew(history, e.source, e.target)
  {
    var init, c := history[..|history| - 1], history[|history| - 1];
    if e in Effects(m, init).edges {
      EdgesComeFromCommits(m, init, e);
      var d :| d in init && d.newId == e.source && e.target in d.sources && e.target !in d.answer.edgeFails;
      assert d in history;
    } else {
      assert c in history && c.newId == e.source && e.target in c.sources && e.target !in c.answer.edgeFails;
    }
  }

  lemma {:induction false} SourcesAreListed(history: seq<Commit>, c: Commit, id: Id)
    requires c in history && id in c.sources
    ensures id in AllSources(history)
  {
    if c != history[|history| - 1] {
      SourcesAreListed(history[..|history| - 1], c, id);
    }
  }

  /** A source belongs to one chunk. */
  lemma {:induction false} SourceBelongsToOneChunk(history: seq<Commit>, c: Commit, d: Commit, id: Id)
    requires NoDup(AllSources(history)) && c in history && d in history && id in c.sources && id in d.sources
    ensures c == d
  {
    var init, last := history[..|history| - 1], history[|history| - 1];
    var earlier := AllSources(init);
    assert AllSources(history) == earlier + last.sources;
    if c != last {
      SourcesAreListed(init, c, id);
    }
    if d != last {
      SourcesAreListed(init, d, id);
    }
    if id in earlier {
      NotInBoth(earlier, last.sources, id);
    }
    if c != last && d != last {
      DistinctPrefix(earlier, last.sources);
      SourceBelongsToOneChunk(init, c, d, id);
    }
  }

  lemma NotInBoth(s: seq<Id>, t: seq<Id>, id: Id)
    requires NoDup(s + t) && id in s
    ensures id !in t
  {
    var i :| 0 <= i < |s| && s[i] == id;
    forall j | 0 <= j < |t|
      ensures t[j] != id
    {
      assert (s + t)[i] == id && (s + t)[|s| + j] == t[j];
    }
  }

  lemma DistinctPrefix(s: seq<Id>, t: seq<Id>)
    requires NoDup(s + t)
    ensures NoDup(s)
  {
    assert (s + t)[..|s|] == s;
  }

  /** A lost edge cuts its source off for good: no chain of provenance edges leads up from it. */
  lemma LostEdgeCutsProvenance(m: Memory, history: seq<Commit>, size: nat, c: Commit, id: Id)
    requires ValidHistory(m, history, size) && ArchivesWork(history)
             && (forall e | e in m.edges :: e.relation != EXTRACTED_FROM)
    requires c in history && id in c.sources && id in c.answer.edgeFails
    ensures !HasProvenance(Effects(m, history), id)
  {
    SourcesAreArchivedOnce(m, history, size);
    forall chain
      ensures !IsProvenance(Effects(m, history), id, chain)
    {
      if IsProvenance(Effects(m, history), id, chain) {
        var e := Edge(chain[1], chain[0], EXTRACTED_FROM);
        assert e in Effects(m, history).edges;
        EdgesComeFromCommits(m, history, e);
        var d :| d in history && d.newId == e.source && id in d.sources && id !in d.answer.edgeFails;
        SourceBelongsToOneChunk(history, c, d, id);
        assert false;
      }
    }
  }

  /** Every archived source can be traced to a live row exactly if no chunk has lost an edge. */
  lemma ProvenanceIsKeptIff(m: Memory, history: seq<Commit>, size: nat)
    requires ValidHistory(m, history, size) && ArchivesWork(history)
             && (forall e | e in m.edges :: e.relation != EXTRACTED_FROM)
    ensures (forall id | id in AllSources(history) :: HasProvenance(Effects(m, history), id)) <==>
            (forall c | c in history :: KeepsEdges(c))
  {
    if forall c | c in history :: KeepsEdges(c) {
      forall id | id in AllSources(history)
        ensures HasProvenance(Effects(m, history), id)
      {
        var chain := SourcesKeepProvenance(m, history, size, id);
      }
    } else {
      var c :| c in history && !KeepsEdges(c);
      var id :| id in c.sources && id in c.answer.edgeFails;
      LostEdgeCutsProvenance(m, history, size, c, id);
      SourcesAreListed(history, c, id);
    }
  }

  lemma {:induction false} CommitsHaveSources(m: Memory, history: seq<Commit>, size: nat, c: Commit)
    requires ValidHistory(m, history, size) && c in history
    ensures 2 <= |c.sources| <= size && NoDup(c.sources)
  {
    if c != history[|history| - 1] {
      CommitsHaveSources(m, history[..|history| - 1], size, c);
    }
  }

  /** A source whose archiving failed stays live until another chunk takes it. */
  lemma {:induction false} UnarchivedSourceStaysLive(m: Memory, history: seq<Commit>, size: nat, c: Commit, id: Id)
    requires ValidHistory(m, history, size) && NoDup(AllSources(history))
    requires c in history && c.answer.archiveFails && id in c.sources
    ensures Live(Effects(m, history), id)
  {
    var init, last := history[..|history| - 1], history[|history| - 1];
    if c in init {
      DistinctPrefix(AllSources(init), last.sources);
      UnarchivedSourceStaysLive(m, init, size, c, id);
      SourcesAreListed(init, c, id);
      NotInBoth(AllSources(init), last.sources, id);
    }
  }

  /** Sources whose archiving failed unnoticed, in whichever chunk, can be consolidated a second time. */
  lemma UnarchivedSourcesReturn(m: Memory, history: seq<Commit>, size: nat, c: Commit, again: Commit)
    requires ValidHistory(m, history, size) && NoDup(AllSources(history)) && c in history && c.answer.archiveFails
    requires again.sources == c.sources && again.newId !in Effects(m, history).rows && !again.row.archived
    ensures ValidCommit(Effects(m, history), again, size) && !NoDup(AllSources(history + [again]))
  {
    CommitsHaveSources(m, history, size, c);
    forall id | id in again.sources
      ensures Live(Effects(m, history), id)
    {
      UnarchivedSourceStaysLive(m, history, size, c, id);
    }
    var id := c.sources[0];
    SourcesAreListed(history, c, id);
    AllSourcesGrow(history, again);
    if NoDup(AllSources(history + [again])) {
      NotInBoth(AllSources(history), again.sources, id);
    }
  }

  /**
   After a history without repetitions, a further chunk can repeat a source exactly if an
   archiving UPDATE has failed.
   */
  lemma SourcesReturnIff(m: Memory, history: seq<Commit>, size: nat, unused: Id)
    requires ValidHistory(m, history, size) && NoDup(AllSources(history)) && unused !in Effects(m, history).rows
    ensures (exists again ::
               ValidCommit(Effects(m, history), again, size) && !NoDup(AllSources(history + [again]))) <==>
            !ArchivesWork(history)
  {
    if !ArchivesWork(history) {
      var c :| c in history && c.answer.archiveFails;
      var again := c.(newId := unused, row := c.row.(archived := false));
      UnarchivedSourcesReturn(m, history, size, c, again);
    } else {
      forall again | ValidCommit(Effects(m, history), again, size)
        ensures NoDup(AllSources(history + [again]))
      {
        SourcesAreArchivedOnce(m, history, size);
        AllSourcesGrow(history, again);
        ApartIsDistinct(AllSources(history), again.sources);
      }
    }
  }

  lemma AllSourcesGrow(history: seq<Commit>, c: Commit)
    ensures AllSources(history + [c]) == AllSources(history) + c.sources
  {
    assert (history + [c])[..|history|] == history;
  }

  lemma ApartIsDistinct(s: seq<Id>, t: seq<Id>)
    requires NoDup(s) && NoDup(t) && forall id | id in s :: id !in t
    ensures NoDup(s + t)
  {
    assert forall i | 0 <= i < |t| :: t[i] in t;
  }

  /** Coverage is kept by any history whose statements and vector writes took effect. */
  lemma {:induction false} HistoryKeepsCoverage(m: Memory, history: seq<Commit>, size: nat)
    requires Coverage(m) && ValidHistory(m, history, size) && ArchivesWork(history)
    requires forall c | c in history :: !c.answer.upsertFails
    ensures Coverage(Effects(m, history))
  {
    if history != [] {
      var init, c := history[..|history| - 1], history[|history| - 1];
      assert c in history;
      HistoryKeepsCoverage(m, init, size);
      ValidCommitLands(Effects(m, init), c, size);
      CommitKeepsCoverage(Effects(m, init), c);
    }
  }
}
