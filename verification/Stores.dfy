/**
 The two stores every writer must keep in step: the tables (rows and edges) and the
 vector index.  A transaction is one atomic step on the tables; index calls follow it.
 */
module Stores {
  import opened Common

  type Vec = seq<real>

  /** A row of the entity table; a NULL confidence reads as 0. */
  datatype Row = Row(
    category: string, content: string, vec: Vec, archived: bool, confidence: real, updatedAt: int)

  datatype Edge = Edge(source: Id, target: Id, relation: string)

  datatype Memory = Memory(rows: map<Id, Row>, edges: set<Edge>, index: map<Id, Vec>)

  datatype IndexOp = Upsert(id: Id, vec: Vec) | Remove(ids: set<Id>)

  // ---------------------------------------------------------------- coverage

  predicate Live(m: Memory, id: Id) {
    id in m.rows && !m.rows[id].archived
  }

  /** A row that searches must be able to find. */
  predicate Searchable(m: Memory, id: Id) {
    Live(m, id) && |m.rows[id].vec| > 0
  }

  /** The index has this vector for the row. */
  predicate IsIndexed(m: Memory, id: Id, vec: Vec) {
    id in m.index && m.index[id] == vec
  }

  ghost predicate Covered(m: Memory, id: Id) {
    Searchable(m, id) ==> IsIndexed(m, id, m.rows[id].vec)
  }

  /** Every live row with an embedding is in the index, under the same vector. */
  ghost predicate Coverage(m: Memory) {
    forall id :: Covered(m, id)
  }

  // ---------------------------------------------------------------- table updates

  /** Insert, or update everything but the archived flag. */
  function UpsertRow(rows: map<Id, Row>, id: Id, row: Row): map<Id, Row> {
    rows[id := row.(archived := id in rows && rows[id].archived)]
  }

  function ArchiveRows(rows: map<Id, Row>, ids: set<Id>): map<Id, Row> {
    map id | id in rows :: if id in ids then rows[id].(archived := true) else rows[id]
  }

  // ---------------------------------------------------------------- index updates

  function ApplyOp(index: map<Id, Vec>, op: IndexOp): map<Id, Vec> {
    match op
    case Upsert(id, vec) => index[id := vec]
    case Remove(ids) => index - ids
  }

  /** The calls in order; the call at a position in `faults` fails and changes nothing. */
  function ApplyOps(index: map<Id, Vec>, ops: seq<IndexOp>, faults: set<nat>): map<Id, Vec> {
    if ops == [] then index
    else
      var last := |ops| - 1;
      var before := ApplyOps(index, ops[..last], faults);
      if last in faults then before else ApplyOp(before, ops[last])
  }

  /** The calls that do not fail. */
  function Working(ops: seq<IndexOp>, faults: set<nat>): seq<IndexOp> {
    if ops == [] then []
    else
      var last := |ops| - 1;
      Working(ops[..last], faults) + if last in faults then [] else [ops[last]]
  }

  /** What calls that all work make of the index. */
  function ApplyAll(index: map<Id, Vec>, ops: seq<IndexOp>): map<Id, Vec> {
    if ops == [] then index else ApplyOp(ApplyAll(index, ops[..|ops| - 1]), ops[|ops| - 1])
  }

  lemma {:induction false} FailedCallsDoNothing(index: map<Id, Vec>, ops: seq<IndexOp>, faults: set<nat>)
    ensures ApplyOps(index, ops, faults) == ApplyAll(index, Working(ops, faults))
  {
    if ops != [] {
      var last := |ops| - 1;
      FailedCallsDoNothing(index, ops[..last], faults);
      if last !in faults {
        assert Working(ops, faults)[..|Working(ops, faults)| - 1] == Working(ops[..last], faults);
      } else {
        assert Working(ops, faults) == Working(ops[..last], faults);
      }
    }
  }

  lemma {:induction false} CallsCompose(index: map<Id, Vec>, first: seq<IndexOp>, second: seq<IndexOp>)
    ensures ApplyAll(index, first + second) == ApplyAll(ApplyAll(index, first), second)
  {
    if second == [] {
      assert first + second == first;
    } else {
      assert (first + second)[..|first + second| - 1] == first + second[..|second| - 1];
      CallsCompose(index, first, second[..|second| - 1]);
    }
  }

  /** The stores as the services hold them. */
  class MemoryStore {
    var rows: map<Id, Row>
    var edges: set<Edge>
    var index: map<Id, Vec>

    constructor ()
      ensures Value() == Memory(map[], {}, map[])
    {
      rows, edges, index := map[], {}, map[];
    }

    function Value(): Memory
      reads this
    {
      Memory(rows, edges, index)
    }

    /** Post-commit index calls, one after another; a failed call is logged and skipped. */
    method ApplyIndexOps(ops: seq<IndexOp>, faults: set<nat>)
      modifies this`index
      ensures index == ApplyOps(old(index), ops, faults)
    {
      for i := 0 to |ops|
        invariant index == ApplyOps(old(index), ops[..i], faults)
      {
        assert ops[..i + 1][..i] == ops[..i];
        if i !in faults {
          match ops[i]
          case Upsert(id, vec) => index := index[id := vec];
          case Remove(ids) => index := index - ids;
        }
      }
      assert ops[..|ops|] == ops;
    }
  }
}
