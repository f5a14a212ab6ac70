/**
 Ingestion of one extracted item (src/internal/ingestion/dialog.go, worker.go and
 contradiction_handler.go): new, keep both, prefer incoming, or merge.  The decision is
 taken before the transaction; the index calls are made after it.
 */
module Ingestion {
  import opened Common
  import opened Stores

  datatype Relation = Relation(target: Id, kind: string)

  datatype Item = Item(id: Id, category: string, content: string, relations: seq<Relation>, embedding: Vec)

  datatype Resolution = ActionKeepBoth | ActionPreferIncoming | ActionOther

  datatype Contradiction = NoContradiction | KeepBoth | PreferIncoming

  /** What the worker was configured with, and what its collaborators answer during one attempt. */
  datatype Worker = Worker(
    dedupThreshold: real,
    allowedRelations: set<string>,
    relationContradicts: string,
    similarity: (Vec, Vec) -> real,
    detect: (string, string) -> bool,
    resolve: real -> Resolution,
    embed: string -> Option<Vec>,
    now: int)

  /** Where a database call of one attempt fails, and which of its index calls do. */
  datatype Faults = Faults(match_: bool, begin: bool, write: bool, archive: bool, edges: bool, commit: bool,
                           index: set<nat>)

  /** The default resolver: an existing row of confidence at least the threshold is kept. */
  function ResolveByThreshold(threshold: real, confidence: real): (r: Resolution)
    ensures threshold > 0.0 && confidence != 0.0 ==> (r == ActionKeepBoth <==> confidence >= threshold)
    ensures 0.0 < threshold <= 1.0 && confidence == 0.0 ==> r == ActionKeepBoth
    ensures r != ActionOther
  {
    var t := if threshold <= 0.0 then 0.7 else threshold;
    var c := if confidence == 0.0 then 1.0 else confidence;
    if c >= t then ActionKeepBoth else ActionPreferIncoming
  }

  // ---------------------------------------------------------------- the decision

  /** The nearest other entity, if it is near enough. */
  function FindMatch(rows: map<Id, Row>, w: Worker, embedding: Vec, similarIds: seq<Id>, selfId: Id): (r: Option<Id>)
    ensures r.Some? ==> r.value in rows && r.value in similarIds
  {
    if |similarIds| == 0 then None
    else if similarIds[0] == selfId && |similarIds| < 2 then None
    else
      var candidate := if similarIds[0] == selfId then similarIds[1] else similarIds[0];
      if candidate !in rows then None
      else
        var vec := rows[candidate].vec;
        var sim := if |vec| > 0 && |vec| == |embedding| then w.similarity(embedding, vec) else 0.0;
        if sim >= w.dedupThreshold then Some(candidate) else None
  }

  function HandleContradiction(w: Worker, existingId: Id, existing: Row, incoming: Item):
    (Contradiction, Id, seq<IndexOp>)
  {
    if !w.detect(existing.content, incoming.content) then (NoContradiction, "", [])
    else
      match w.resolve(existing.confidence)
      case ActionKeepBoth => (KeepBoth, "", [])
      case ActionPreferIncoming => (PreferIncoming, existingId, [Remove({existingId})])
      case ActionOther => (NoContradiction, "", [])
  }

  function MergedContent(existing: string, incoming: string): string {
    if Contains(existing, incoming) then existing else existing + "; " + incoming
  }

  /** The merged row, unless its content cannot be embedded. */
  function MergeExisting(w: Worker, existing: Row, incoming: Item): Option<Row> {
    var content := MergedContent(existing.content, incoming.content);
    match w.embed(content)
    case None => None
    case Some(vec) => Some(existing.(content := content, vec := vec, confidence := 1.0, updatedAt := w.now))
  }

  function NewRow(w: Worker, item: Item): Row {
    Row(item.category, item.content, item.embedding, false, 1.0, w.now)
  }

  /** What the transaction writes and which index calls follow it. */
  datatype Plan = Plan(
    targetId: Id, row: Row, archiveId: Id, relations: seq<Relation>, ops: seq<IndexOp>)

  /** The four outcomes, as the item's owner would describe them. */
  ghost function PlanFor(w: Worker, rows: map<Id, Row>, item: Item, existing: Option<Id>): Option<Plan>
    requires existing.Some? ==> existing.value in rows
  {
    if existing.None? then
      Some(Plan(item.id, NewRow(w, item), "", item.relations, [Upsert(item.id, item.embedding)]))
    else
      var x := existing.value;
      match HandleContradiction(w, x, rows[x], item).0
      case KeepBoth =>
        Some(Plan(item.id, NewRow(w, item), "", item.relations + [Relation(x, w.relationContradicts)],
                  [Upsert(item.id, item.embedding)]))
      case PreferIncoming =>
        var ops := [Remove({x}), Upsert(item.id, item.embedding)];
        // An existing row with the empty ID is taken for "nothing to archive".
        Some(Plan(item.id, NewRow(w, item), x, item.relations,
                  if x == "" then ops + [Upsert(item.id, item.embedding)] else ops))
      case NoContradiction =>
        match MergeExisting(w, rows[x], item)
        case None => None
        case Some(row) => Some(Plan(x, row, "", item.relations, [Remove({item.id}), Upsert(x, row.vec)]))
  }

  // ---------------------------------------------------------------- what the outcomes mean

  /** The cosine that decides about a match; vectors of different lengths, or none, count as 0. */
  function Closeness(w: Worker, embedding: Vec, vec: Vec): real {
    if vec == [] || |vec| != |embedding| then 0.0 else w.similarity(embedding, vec)
  }

  /** The match is the first hit, or the second if the first is the item itself, and near enough. */
  lemma MatchIsNearestOther(rows: map<Id, Row>, w: Worker, embedding: Vec, similarIds: seq<Id>, selfId: Id, x: Id)
    ensures FindMatch(rows, w, embedding, similarIds, selfId) == Some(x) <==>
            && x in rows && Closeness(w, embedding, rows[x].vec) >= w.dedupThreshold
            && ((|similarIds| >= 1 && similarIds[0] == x && x != selfId)
                || (|similarIds| >= 2 && similarIds[0] == selfId && similarIds[1] == x))
  {
  }

  /** The existing row is taken for a contradiction, and resolved in this way. */
  predicate Contradicts(w: Worker, existing: Row, item: Item, resolution: Resolution) {
    w.detect(existing.content, item.content) && w.resolve(existing.confidence) == resolution
  }

  /** The item has its own row, with no relation lost. */
  ghost predicate IsAdded(w: Worker, m: Memory, after: Memory, item: Item) {
    && item.id in after.rows
    && after.rows[item.id].category == item.category && after.rows[item.id].content == item.content
    && after.rows[item.id].vec == item.embedding && after.rows[item.id].confidence == 1.0
    && after.rows[item.id].updatedAt == w.now
    && m.edges <= after.edges && (forall r | r in item.relations :: Edge(item.id, r.target, r.kind) in after.edges)
  }

  ghost predicate OthersStay(m: Memory, after: Memory, ids: set<Id>) {
    forall id | id !in ids :: (id in after.rows <==> id in m.rows) && (id in m.rows ==> after.rows[id] == m.rows[id])
  }

  /** Both texts are in the row, the older one first, and the vector is that of the whole text. */
  ghost predicate IsMerged(w: Worker, seen: Row, merged: Row, item: Item) {
    && seen.content <= merged.content && Contains(merged.content, item.content)
    && (Contains(seen.content, item.content) ==> merged.content == seen.content)
    && (!Contains(seen.content, item.content) ==> merged.content == seen.content + "; " + item.content)
    && merged.category == seen.category && w.embed(merged.content) == Some(merged.vec)
    && merged.confidence == 1.0 && merged.updatedAt == w.now
  }

  lemma SuffixIsContained(a: string, b: string)
    ensures Contains(a + b, b)
  {
    assert OccursAt(a + b, b, |a|);
  }

  /** What is left of the match, if there is one, and what became of the item; `seen` are the rows decided on. */
  ghost predicate IsOutcome(w: Worker, seen: map<Id, Row>, m: Memory, after: Memory, item: Item, existing: Option<Id>)
    requires existing.Some? ==> existing.value in seen
  {
    match existing
    case None =>
      IsAdded(w, m, after, item) && OthersStay(m, after, {item.id})
    case Some(x) =>
      if Contradicts(w, seen[x], item, ActionKeepBoth) then
        && IsAdded(w, m, after, item) && OthersStay(m, after, {item.id})
        && Edge(item.id, x, w.relationContradicts) in after.edges
      else if Contradicts(w, seen[x], item, ActionPreferIncoming) then
        && IsAdded(w, m, after, item) && OthersStay(m, after, {item.id, x})
        && (x in m.rows && x != item.id ==>
              x in after.rows && after.rows[x] == m.rows[x].(archived := m.rows[x].archived || x != ""))
      else
        && x in after.rows && IsMerged(w, seen[x], after.rows[x], item) && OthersStay(m, after, {x})
        && m.edges <= after.edges && (forall r | r in item.relations :: Edge(x, r.target, r.kind) in after.edges)
  }

  // ---------------------------------------------------------------- the transaction

  function EdgesOf(source: Id, relations: seq<Relation>): set<Edge> {
    set r | r in relations :: Edge(source, r.target, r.kind)
  }

  /** An insertion the schema and the foreign keys accept. */
  predicate EdgeAllowed(w: Worker, rows: map<Id, Row>, source: Id, r: Relation) {
    r.kind in w.allowedRelations && source in rows && r.target in rows
  }

  /**
   One bulk statement: refused for an unknown relation before it is sent, or by a foreign
   key when it runs.
   */
  method InsertChunk(w: Worker, rows: map<Id, Row>, entityId: Id, chunk: seq<Relation>)
    returns (ok: bool, args: set<Edge>)
    ensures ok <==> forall r | r in chunk :: EdgeAllowed(w, rows, entityId, r)
    ensures ok ==> args == EdgesOf(entityId, chunk)
  {
    args := {};
    for i := 0 to |chunk|
      invariant forall k | 0 <= k < i :: chunk[k].kind in w.allowedRelations
      invariant args == EdgesOf(entityId, chunk[..i])
    {
      if chunk[i].kind !in w.allowedRelations {
        assert chunk[i] in chunk && !EdgeAllowed(w, rows, entityId, chunk[i]);
        return false, {};
      }
      args := args + {Edge(entityId, chunk[i].target, chunk[i].kind)};
      assert chunk[..i + 1] == chunk[..i] + [chunk[i]];
    }
    assert chunk[..|chunk|] == chunk;
    assert forall r | r in chunk :: Edge(entityId, r.target, r.kind) in args;
    ok := forall e | e in args :: e.source in rows && e.target in rows;
  }

  /** Bulk insert in chunks of 166 (the variable limit); the caller rolls back a refused one. */
  method CreateEdgesInTx(w: Worker, rows: map<Id, Row>, edges: set<Edge>, entityId: Id, relations: seq<Relation>)
    returns (ok: bool, after: set<Edge>)
    ensures ok <==> forall r | r in relations :: EdgeAllowed(w, rows, entityId, r)
    ensures ok ==> after == edges + EdgesOf(entityId, relations)
  {
    ok, after := true, edges;
    var chunkSize := 166;
    var start := 0;
    while start < |relations|
      invariant 0 <= start <= |relations|
      invariant forall r | r in relations[..start] :: EdgeAllowed(w, rows, entityId, r)
      invariant after == edges + EdgesOf(entityId, relations[..start])
      invariant ok
    {
      var end := start + chunkSize;
      if end > |relations| {
        end := |relations|;
      }
      var args;
      ok, args := InsertChunk(w, rows, entityId, relations[start..end]);
      if !ok {
        assert forall r | r in relations[start..end] :: r in relations;
        return;
      }
      after := after + args;
      assert relations[..end] == relations[..start] + relations[start..end];
      start := end;
    }
    assert relations[..|relations|] == relations;
  }

  /** The tables after the transaction of a plan. */
  ghost function Committed(m: Memory, plan: Plan): Memory {
    var rows := UpsertRow(m.rows, plan.targetId, plan.row);
    m.(rows := if plan.archiveId == "" then rows else ArchiveRows(rows, {plan.archiveId}),
       edges := m.edges + EdgesOf(plan.targetId, plan.relations))
  }

  ghost predicate EdgesAccepted(w: Worker, m: Memory, plan: Plan) {
    forall r | r in plan.relations ::
      EdgeAllowed(w, UpsertRow(m.rows, plan.targetId, plan.row), plan.targetId, r)
  }

  predicate NoTxFault(f: Faults) {
    !f.begin && !f.write && !f.archive && !f.edges && !f.commit
  }

  /** All or nothing: either the whole plan is in the tables, or nothing is. */
  method ExecuteItemTx(store: MemoryStore, w: Worker, plan: Plan, f: Faults) returns (ok: bool)
    modifies store`rows, store`edges
    ensures ok ==> store.Value() == Committed(old(store.Value()), plan)
    ensures !ok ==> store.Value() == old(store.Value())
    ensures NoTxFault(f) ==> (ok <==> EdgesAccepted(w, old(store.Value()), plan))
  {
    if f.begin {
      return false;
    }
    var rows, edges := store.rows, store.edges;
    if f.write {
      return false;
    }
    rows := UpsertRow(rows, plan.targetId, plan.row);
    if plan.archiveId != "" {
      if f.archive {
        return false;
      }
      rows := ArchiveRows(rows, {plan.archiveId});
    }
    var inserted;
    inserted, edges := CreateEdgesInTx(w, rows, edges, plan.targetId, plan.relations);
    assert inserted <==> EdgesAccepted(w, store.Value(), plan);
    if !inserted || f.edges || f.commit {
      return false;
    }
    store.rows, store.edges := rows, edges;
    return true;
  }

  // ---------------------------------------------------------------- one attempt

  lemma PlannedEdges(m: Memory, plan: Plan)
    ensures forall r | r in plan.relations :: Edge(plan.targetId, r.target, r.kind) in Committed(m, plan).edges
    ensures m.edges <= Committed(m, plan).edges
    ensures forall e | e in Committed(m, plan).edges && e !in m.edges :: e.source == plan.targetId
  {
  }

  /** Whatever has been committed since the decision, a committed ingest does to its rows what was decided. */
  lemma IngestHasOutcome(w: Worker, seen: map<Id, Row>, m: Memory, item: Item, existing: Option<Id>)
    requires (existing.Some? ==> existing.value in seen) && PlanFor(w, seen, item, existing).Some?
    ensures IsOutcome(w, seen, m, Committed(m, PlanFor(w, seen, item, existing).value), item, existing)
  {
    var plan := PlanFor(w, seen, item, existing).value;
    PlannedEdges(m, plan);
    assert forall r | r in item.relations :: r in plan.relations;
    if existing.Some? && Contradicts(w, seen[existing.value], item, ActionKeepBoth) {
      assert plan.relations[|item.relations|] == Relation(existing.value, w.relationContradicts);
    } else if existing.Some? && !Contradicts(w, seen[existing.value], item, ActionPreferIncoming) {
      SuffixIsContained(seen[existing.value].content + "; ", item.content);
    }
  }

  /** A decision fails exactly if the texts to be merged cannot be embedded. */
  lemma OnlyMergesCanFail(w: Worker, seen: map<Id, Row>, item: Item, existing: Option<Id>)
    requires existing.Some? ==> existing.value in seen
    ensures PlanFor(w, seen, item, existing).None? <==>
            && existing.Some? && !Contradicts(w, seen[existing.value], item, ActionKeepBoth)
            && !Contradicts(w, seen[existing.value], item, ActionPreferIncoming)
            && var text := seen[existing.value].content;
               w.embed(if Contains(text, item.content) then text else text + "; " + item.content) == None
  {
  }

  /** The transaction is refused exactly for a relation that the schema does not know or whose target does not exist. */
  lemma EdgesAreAcceptedIff(w: Worker, seen: map<Id, Row>, m: Memory, item: Item, existing: Option<Id>)
    requires (existing.Some? ==> existing.value in seen) && PlanFor(w, seen, item, existing).Some?
    ensures var both := existing.Some? && Contradicts(w, seen[existing.value], item, ActionKeepBoth);
            var prefer := existing.Some? && Contradicts(w, seen[existing.value], item, ActionPreferIncoming);
            var owner := if existing.None? || both || prefer then item.id else existing.value;
            EdgesAccepted(w, m, PlanFor(w, seen, item, existing).value) <==>
            && (forall r | r in item.relations :: r.kind in w.allowedRelations && r.target in m.rows.Keys + {owner})
            && (both ==> w.relationContradicts in w.allowedRelations && existing.value in m.rows.Keys + {owner})
  {
    var plan := PlanFor(w, seen, item, existing).value;
    if existing.Some? && Contradicts(w, seen[existing.value], item, ActionKeepBoth) {
      assert forall r :: r in plan.relations <==>
          r in item.relations || r == Relation(existing.value, w.relationContradicts);
    }
    assert UpsertRow(m.rows, plan.targetId, plan.row).Keys == m.rows.Keys + {plan.targetId};
  }

  /** The memory after an attempt that commits. */
  ghost function Ingested(m: Memory, plan: Plan, indexFaults: set<nat>): Memory {
    Committed(m, plan).(index := ApplyOps(m.index, plan.ops, indexFaults))
  }

  method ProcessOneItemOnce(store: MemoryStore, w: Worker, it: Item, similarIds: seq<Id>, selfId: Id, f: Faults)
    returns (ok: bool)
    modifies store
    ensures !ok ==> store.Value() == old(store.Value())
    ensures var plan := PlanFor(w, old(store.rows), it,
                                FindMatch(old(store.rows), w, it.embedding, similarIds, selfId));
            && (ok ==> plan.Some? && store.Value() == Ingested(old(store.Value()), plan.value, f.index))
            && (NoTxFault(f) && !f.match_ ==> (ok <==> plan.Some? && EdgesAccepted(w, old(store.Value()), plan.value)))
    ensures ok ==> IsOutcome(w, old(store.rows), old(store.Value()), store.Value(), it,
                             FindMatch(old(store.rows), w, it.embedding, similarIds, selfId))
  {
    var targetId, relations, row := it.id, it.relations, NewRow(w, it);
    if f.match_ {
      return false;
    }
    var existing := FindMatch(store.rows, w, it.embedding, similarIds, selfId);
    var viOps: seq<IndexOp>, archiveId := [], "";
    if existing.Some? {
      var (action, archived, ops) := HandleContradiction(w, existing.value, store.rows[existing.value], it);
      archiveId := archived;
      viOps := viOps + ops;
      match action {
        case KeepBoth =>
          relations := relations + [Relation(existing.value, w.relationContradicts)];
          existing := None;
        case PreferIncoming =>
          viOps := viOps + [Upsert(it.id, it.embedding)];
          existing := None;
        case NoContradiction =>
      }
    }
    if existing.Some? {
      var merged := MergeExisting(w, store.rows[existing.value], it);
      if merged.None? {
        return false;
      }
      targetId, row := existing.value, merged.value;
      viOps := viOps + [Remove({it.id}), Upsert(targetId, row.vec)];
    } else if archiveId == "" {
      viOps := viOps + [Upsert(it.id, it.embedding)];
    }
    var plan := Plan(targetId, row, archiveId, relations, viOps);
    ghost var planned := PlanFor(w, store.rows, it, FindMatch(store.rows, w, it.embedding, similarIds, selfId));
    assert planned.Some? && plan.ops == planned.value.ops;
    ok := ExecuteItemTx(store, w, plan, f);
    if ok {
      IngestHasOutcome(w, old(store.rows), old(store.Value()), it,
                       FindMatch(old(store.rows), w, it.embedding, similarIds, selfId));
      store.ApplyIndexOps(viOps, f.index);
    }
  }

  // ---------------------------------------------------------------- retries

  datatype Attempt = Attempt(worker: Worker, faults: Faults, busy: bool, cancelled: bool)

  /**
   Up to five attempts while the database is busy.  However many fail, the item is
   applied at most once: the final state is the old one, or the old one after one attempt.
   */
  method ProcessOneItem(store: MemoryStore, attempts: seq<Attempt>, it: Item, similarIds: seq<Id>, selfId: Id)
    returns (ok: bool, made: nat)
    requires |attempts| == 5
    modifies store
    ensures 1 <= made <= 5
    ensures !ok ==> store.Value() == old(store.Value())
    ensures ok ==>
              var w := attempts[made - 1].worker;
              var plan := PlanFor(w, old(store.rows), it,
                                  FindMatch(old(store.rows), w, it.embedding, similarIds, selfId));
              plan.Some? && store.Value() == Ingested(old(store.Value()), plan.value, attempts[made - 1].faults.index)
    ensures forall i | 0 <= i < made - 1 :: attempts[i].busy && !attempts[i].cancelled
  {
    made := 0;
    while true
      invariant 0 <= made < 5
      invariant store.Value() == old(store.Value())
      invariant forall i | 0 <= i < made :: attempts[i].busy && !attempts[i].cancelled
      decreases 5 - made
    {
      var a := attempts[made];
      made := made + 1;
      ok := ProcessOneItemOnce(store, a.worker, it, similarIds, selfId, a.faults);
      if ok || !a.busy || made == 5 || a.cancelled {
        return;
      }
    }
  }

  // ---------------------------------------------------------------- coverage

  /** Whether some call that stores the target's vector works. */
  predicate IsStored(plan: Plan, faults: set<nat>) {
    exists i | 0 <= i < |plan.ops| :: plan.ops[i].Upsert? && i !in faults
  }

  /** The IDs whose vectors are deleted. */
  function Removed(plan: Plan, faults: set<nat>): set<Id> {
    if plan.ops != [] && plan.ops[0].Remove? && 0 !in faults then plan.ops[0].ids else {}
  }

  /** The target will be live with a vector. */
  predicate TargetIsSearchable(m: Memory, plan: Plan) {
    && !(plan.targetId in m.rows && m.rows[plan.targetId].archived)
    && (plan.archiveId == "" || plan.archiveId != plan.targetId)
    && |plan.row.vec| > 0
  }

  /**
   A searchable row loses its vector although it is not archived, or no call stores the
   vector of the target and the index does not have it already.
   */
  ghost predicate Uncovers(m: Memory, plan: Plan, faults: set<nat>) {
    || (exists id | id in Removed(plan, faults) ::
          id != plan.targetId && Searchable(m, id) && (plan.archiveId == "" || id != plan.archiveId))
    || (TargetIsSearchable(m, plan) && !IsStored(plan, faults)
        && (plan.targetId in Removed(plan, faults) || !IsIndexed(m, plan.targetId, plan.row.vec)))
  }

  /** The calls of a plan: at most one deletion, and then the target's vector, once or twice. */
  ghost predicate IsShaped(plan: Plan) {
    var store := Upsert(plan.targetId, plan.row.vec);
    || plan.ops == [store]
    || exists ids :: plan.ops == [Remove(ids), store] || plan.ops == [Remove(ids), store, store]
  }

  lemma PlansAreShaped(w: Worker, seen: map<Id, Row>, item: Item, existing: Option<Id>)
    requires existing.Some? ==> existing.value in seen
    ensures var plan := PlanFor(w, seen, item, existing); plan.Some? ==> IsShaped(plan.value)
  {
    var plan := PlanFor(w, seen, item, existing);
    if plan.Some? {
      var store := Upsert(plan.value.targetId, plan.value.row.vec);
      if existing.Some? {
        var x := existing.value;
        assert [Remove({x}), store] + [store] == [Remove({x}), store, store];
        assert HandleContradiction(w, x, seen[x], item).0.PreferIncoming? ==>
            plan.value.ops == [Remove({x}), store] || plan.value.ops == [Remove({x}), store, store];
        assert HandleContradiction(w, x, seen[x], item).0.NoContradiction? ==>
               plan.value.ops == [Remove({item.id}), store];
      }
    }
  }

  lemma OneCall(index: map<Id, Vec>, op: IndexOp, faults: set<nat>)
    ensures ApplyOps(index, [op], faults) == if 0 in faults then index else ApplyOp(index, op)
  {
    assert [op][..0] == [];
  }

  lemma TwoCalls(index: map<Id, Vec>, op: IndexOp, op': IndexOp, faults: set<nat>)
    ensures var one := if 0 in faults then index else ApplyOp(index, op);
            ApplyOps(index, [op, op'], faults) == if 1 in faults then one else ApplyOp(one, op')
  {
    assert [op, op'][..1] == [op];
    OneCall(index, op, faults);
  }

  lemma ThreeCalls(index: map<Id, Vec>, op: IndexOp, op': IndexOp, op'': IndexOp, faults: set<nat>)
    ensures var one := if 0 in faults then index else ApplyOp(index, op);
            var two := if 1 in faults then one else ApplyOp(one, op');
            ApplyOps(index, [op, op', op''], faults) == if 2 in faults then two else ApplyOp(two, op'')
  {
    assert [op, op', op''][..2] == [op, op'];
    TwoCalls(index, op, op', faults);
  }

  lemma IndexAfterPlan(index: map<Id, Vec>, plan: Plan, faults: set<nat>)
    requires IsShaped(plan)
    ensures var rest := index - Removed(plan, faults);
            ApplyOps(index, plan.ops, faults) ==
            if IsStored(plan, faults) then rest[plan.targetId := plan.row.vec] else rest
  {
    var store := Upsert(plan.targetId, plan.row.vec);
    if plan.ops == [store] {
      OneCall(index, store, faults);
      assert plan.ops[0] == store;
    } else {
      var ids :| plan.ops == [Remove(ids), store] || plan.ops == [Remove(ids), store, store];
      assert plan.ops[0] == Remove(ids) && plan.ops[1] == store;
      if |plan.ops| == 2 {
        TwoCalls(index, Remove(ids), store, faults);
      } else {
        ThreeCalls(index, Remove(ids), store, store, faults);
        assert plan.ops[2] == store;
      }
    }
  }

  lemma RowsAfterPlan(m: Memory, plan: Plan, id: Id)
    ensures id != plan.targetId ==>
              (Searchable(Committed(m, plan), id) <==>
               Searchable(m, id) && (plan.archiveId == "" || id != plan.archiveId))
    ensures id != plan.targetId && Searchable(m, id) ==> Committed(m, plan).rows[id].vec == m.rows[id].vec
    ensures Searchable(Committed(m, plan), plan.targetId) <==> TargetIsSearchable(m, plan)
    ensures plan.targetId in Committed(m, plan).rows && Committed(m, plan).rows[plan.targetId].vec == plan.row.vec
  {
  }

  /**
   A commit keeps coverage exactly unless it uncovers: whatever rows the plan was made
   from, whatever has been committed since, and whichever index calls fail.
   */
  lemma PlanKeepsCoverage(m: Memory, plan: Plan, faults: set<nat>)
    requires Coverage(m) && IsShaped(plan)
    ensures Coverage(Ingested(m, plan, faults)) <==> !Uncovers(m, plan, faults)
  {
    var after, t := Ingested(m, plan, faults), plan.targetId;
    IndexAfterPlan(m.index, plan, faults);
    forall id | id != t
      ensures Covered(after, id) <==>
                !(id in Removed(plan, faults) && Searchable(m, id) && (plan.archiveId == "" || id != plan.archiveId))
    {
      RowsAfterPlan(m, plan, id);
      assert Covered(m, id);
    }
    RowsAfterPlan(m, plan, t);
    assert Covered(after, t) <==>
        !(TargetIsSearchable(m, plan) && !IsStored(plan, faults)
          && (t in Removed(plan, faults) || !IsIndexed(m, t, plan.row.vec)));
  }

  /** The same for the plan of an ingest; `seen` are the rows it was made from. */
  lemma IngestKeepsCoverage(w: Worker, seen: map<Id, Row>, m: Memory, item: Item, existing: Option<Id>,
                            faults: set<nat>)
    requires Coverage(m) && (existing.Some? ==> existing.value in seen) && PlanFor(w, seen, item, existing).Some?
    ensures var plan := PlanFor(w, seen, item, existing).value;
            Coverage(Ingested(m, plan, faults)) <==> !Uncovers(m, plan, faults)
  {
    PlansAreShaped(w, seen, item, existing);
    PlanKeepsCoverage(m, PlanFor(w, seen, item, existing).value, faults);
  }

  // With working index calls the four outcomes read as follows.

  lemma AdditionKeepsCoverage(w: Worker, seen: map<Id, Row>, m: Memory, item: Item, existing: Option<Id>)
    requires Coverage(m) && (existing.Some? ==> existing.value in seen)
    requires existing.Some? ==> HandleContradiction(w, existing.value, seen[existing.value], item).0.KeepBoth?
    ensures Coverage(Ingested(m, PlanFor(w, seen, item, existing).value, {}))
  {
    var plan := PlanFor(w, seen, item, existing).value;
    IngestKeepsCoverage(w, seen, m, item, existing, {});
    assert plan.ops[0].Upsert?;
  }

  lemma PreferenceKeepsCoverage(w: Worker, seen: map<Id, Row>, m: Memory, item: Item, x: Id)
    requires Coverage(m) && x in seen && HandleContradiction(w, x, seen[x], item).0.PreferIncoming?
    ensures Coverage(Ingested(m, PlanFor(w, seen, item, Some(x)).value, {})) <==>
            !(x == "" && x != item.id && Searchable(m, x))
  {
    var plan := PlanFor(w, seen, item, Some(x)).value;
    IngestKeepsCoverage(w, seen, m, item, Some(x), {});
    assert plan.ops[1].Upsert? && plan.ops[0] == Remove({x});
  }

  lemma MergeKeepsCoverage(w: Worker, seen: map<Id, Row>, m: Memory, item: Item, x: Id)
    requires Coverage(m) && x in seen && HandleContradiction(w, x, seen[x], item).0.NoContradiction?
    requires PlanFor(w, seen, item, Some(x)).Some?
    ensures Coverage(Ingested(m, PlanFor(w, seen, item, Some(x)).value, {})) <==>
            !(x != item.id && Searchable(m, item.id))
  {
    var plan := PlanFor(w, seen, item, Some(x)).value;
    IngestKeepsCoverage(w, seen, m, item, Some(x), {});
    assert plan.ops[1].Upsert? && plan.ops[0] == Remove({item.id});
  }

  /** A low-confidence row under the empty ID stays live but leaves the index. */
  lemma EmptyIdIsNotArchived() returns (w: Worker, m: Memory, item: Item)
    ensures forall c :: w.resolve(c) == ResolveByThreshold(0.7, c)
    ensures Coverage(m) && FindMatch(m.rows, w, item.embedding, [""], item.id) == Some("")
    ensures PlanFor(w, m.rows, item, Some("")).Some?
    ensures !Coverage(Ingested(m, PlanFor(w, m.rows, item, Some("")).value, {}))
  {
    var resolve := (c: real) => ResolveByThreshold(0.7, c);
    w := Worker(0.8, {}, "contradicts", (a, b) => 1.0, (a, b) => true, resolve, t => None, 0);
    m := Memory(map["" := Row("world", "User loves X", [1.0], false, 0.5, 0)], {}, map["" := [1.0]]);
    item := Item("ent-1", "world", "User hates X", [], [1.0]);
    assert Coverage(m);
    assert ResolveByThreshold(0.7, 0.5) == ActionPreferIncoming;
    PreferenceKeepsCoverage(w, m.rows, m, item, "");
  }
}
