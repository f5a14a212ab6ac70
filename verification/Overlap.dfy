/**
 Overlapping operations: every operation commits to the tables in one step and makes its
 index calls in later steps, one at a time, while others commit and make theirs.  What a
 writer has read before its commit may be out of date by then.
 */
module Overlap {
  import opened Common
  import opened Stores
  import CallOrder
  import Consolidation
  import Ingestion
  import Reembed
  import Runs

  type Operation = Runs.Operation

  // ---------------------------------------------------------------- an operation in two parts

  /** The index calls of an operation that work, in order. */
  ghost function Calls(op: Operation): seq<IndexOp> {
    match op
    case RolledBack => []
    case Ingest(_, _, _, _, faults) => if Runs.HasPlan(op) then Working(Runs.PlanOf(op).ops, faults) else []
    case Sweep(ids, deleted) => if deleted then [Remove(ids)] else []
    case Consolidate(c) =>
      (if |c.row.vec| > 0 && !c.answer.upsertFails then [Upsert(c.newId, c.row.vec)] else [])
      + (if c.answer.deleteFails then [] else [Remove(ToSet(c.sources))])
    case ReEmbed(a, dim, work) =>
      if Reembed.Succeeds(a, dim, work) && work.id !in a.indexFails then [Upsert(work.id, a.embed(work).value)] else []
  }

  /** The commit alone. */
  ghost function Tables(m: Memory, op: Operation): Memory
    requires Runs.Possible(m, op)
  {
    Runs.After(m, op).(index := m.index)
  }

  lemma OneCall(index: map<Id, Vec>, call: IndexOp, made: bool)
    ensures ApplyAll(index, if made then [call] else []) == if made then ApplyOp(index, call) else index
  {
    assert [call][..0] == [];
  }

  lemma ConsolidationCalls(m: Memory, c: Consolidation.Commit)
    ensures Consolidation.Effect(m, c).index == ApplyAll(m.index, Calls(Runs.Consolidate(c)))
  {
    var stores, removes := |c.row.vec| > 0 && !c.answer.upsertFails, !c.answer.deleteFails;
    var store, remove := Upsert(c.newId, c.row.vec), Remove(ToSet(c.sources));
    var stored := if stores then ApplyOp(m.index, store) else m.index;
    OneCall(m.index, store, stores);
    OneCall(stored, remove, removes);
    CallsCompose(m.index, if stores then [store] else [], if removes then [remove] else []);
  }

  /** An operation is its commit followed by its index calls. */
  lemma OperationIsCommitThenCalls(m: Memory, op: Operation)
    requires Runs.Possible(m, op)
    ensures Runs.After(m, op) == Tables(m, op).(index := ApplyAll(m.index, Calls(op)))
  {
    match op
    case RolledBack =>
    case Ingest(_, _, _, _, faults) => FailedCallsDoNothing(m.index, Runs.PlanOf(op).ops, faults);
    case Sweep(ids, deleted) => OneCall(m.index, Remove(ids), deleted);
    case Consolidate(c) => ConsolidationCalls(m, c);
    case ReEmbed(a, dim, work) =>
      if Calls(op) != [] {
        OneCall(m.index, Calls(op)[0], true);
      }
  }

  ghost predicate SameTables(m: Memory, m': Memory) {
    m.rows == m'.rows && m.edges == m'.edges
  }

  /** No commit looks at the index. */
  lemma CommitsIgnoreIndex(m: Memory, m': Memory, op: Operation)
    requires SameTables(m, m') && Runs.Possible(m, op)
    ensures Runs.Possible(m', op) && SameTables(Runs.After(m, op), Runs.After(m', op))
  {
  }

  // ---------------------------------------------------------------- interleavings

  /** The stores, the operations that have committed, and the calls they have made and have still to make. */
  datatype State = State(now: Memory, ops: seq<Operation>, queue: CallOrder.Queue)

  datatype Event = Commit(op: Operation) | Call(k: nat)

  ghost predicate Enabled(s: State, e: Event) {
    match e
    case Commit(op) => Runs.Possible(s.now, op)
    case Call(k) => CallOrder.Enabled(s.queue, CallOrder.Make(k))
  }

  /** The calls in question, as an event of the queue. */
  ghost function Queued(e: Event): CallOrder.Event {
    match e
    case Commit(op) => CallOrder.Issue(Calls(op))
    case Call(k) => CallOrder.Make(k)
  }

  ghost function Apply(s: State, e: Event): State
    requires Enabled(s, e)
  {
    var queue := CallOrder.Apply(s.queue, Queued(e));
    match e
    case Commit(op) => State(Tables(s.now, op), s.ops + [op], queue)
    case Call(k) => State(s.now.(index := ApplyOp(s.now.index, s.queue.pending[k][0])), s.ops, queue)
  }

  function Start(m: Memory): State {
    State(m, [], CallOrder.EMPTY)
  }

  ghost predicate Reaches(m: Memory, events: seq<Event>, s: State) {
    if events == [] then s == Start(m)
    else
      var last := events[|events| - 1];
      exists p :: Reaches(m, events[..|events| - 1], p) && Enabled(p, last) && s == Apply(p, last)
  }

  /** Every commit is on other IDs than the operations that have not finished by then. */
  ghost predicate ReachesApart(m: Memory, events: seq<Event>, s: State) {
    if events == [] then s == Start(m)
    else
      var last := events[|events| - 1];
      exists p :: ReachesApart(m, events[..|events| - 1], p) && Enabled(p, last) && s == Apply(p, last)
                  && (last.Commit? ==> CallOrder.IsApart(p.queue.pending, Calls(last.op)))
  }

  /** All calls of all operations have been made. */
  predicate Finished(s: State) {
    CallOrder.Finished(s.queue)
  }

  ghost function CallLists(ops: seq<Operation>): (lists: seq<seq<IndexOp>>)
    ensures |lists| == |ops| && forall i | 0 <= i < |ops| :: lists[i] == Calls(ops[i])
  {
    if ops == [] then [] else CallLists(ops[..|ops| - 1]) + [Calls(ops[|ops| - 1])]
  }

  lemma ListsGrow(ops: seq<Operation>, op: Operation)
    ensures CallLists(ops + [op]) == CallLists(ops) + [Calls(op)]
  {
    assert (ops + [op])[..|ops|] == ops;
  }

  /** The calls of the run without overlaps. */
  ghost function AllCalls(ops: seq<Operation>): seq<IndexOp> {
    CallOrder.Flat(CallLists(ops))
  }

  lemma {:induction false} ApartIsReached(m: Memory, events: seq<Event>, s: State)
    requires ReachesApart(m, events, s)
    ensures Reaches(m, events, s)
  {
    if events != [] {
      var init, last := events[..|events| - 1], events[|events| - 1];
      var p :| ReachesApart(m, init, p) && Enabled(p, last) && s == Apply(p, last);
      ApartIsReached(m, init, p);
    }
  }

  // ---------------------------------------------------------------- what every interleaving keeps

  lemma QueueStep(s: State, e: Event, queued: seq<CallOrder.Event>)
    requires Enabled(s, e) && s.queue.issued == CallLists(s.ops)
    ensures Apply(s, e).queue.issued == CallLists(Apply(s, e).ops)
    ensures CallOrder.Reaches(queued, s.queue) ==> CallOrder.Reaches(queued + [Queued(e)], Apply(s, e).queue)
    ensures CallOrder.ReachesApart(queued, s.queue)
            && (e.Commit? ==> CallOrder.IsApart(s.queue.pending, Calls(e.op))) ==>
              CallOrder.ReachesApart(queued + [Queued(e)], Apply(s, e).queue)
  {
    if e.Commit? {
      ListsGrow(s.ops, e.op);
    }
    var longer := queued + [Queued(e)];
    assert longer[..|longer| - 1] == queued && longer[|longer| - 1] == Queued(e);
  }

  lemma {:induction false} QueueIsReached(m: Memory, events: seq<Event>, s: State)
    returns (queued: seq<CallOrder.Event>)
    requires Reaches(m, events, s)
    ensures CallOrder.Reaches(queued, s.queue) && s.queue.issued == CallLists(s.ops)
  {
    queued := [];
    if events != [] {
      var init, last := events[..|events| - 1], events[|events| - 1];
      var p :| Reaches(m, init, p) && Enabled(p, last) && s == Apply(p, last);
      queued := QueueIsReached(m, init, p);
      QueueStep(p, last, queued);
      queued := queued + [Queued(last)];
    }
  }

  lemma {:induction false} QueueIsApart(m: Memory, events: seq<Event>, s: State) returns (queued: seq<CallOrder.Event>)
    requires ReachesApart(m, events, s)
    ensures CallOrder.ReachesApart(queued, s.queue) && s.queue.issued == CallLists(s.ops)
  {
    queued := [];
    if events != [] {
      var init, last := events[..|events| - 1], events[|events| - 1];
      var p :| ReachesApart(m, init, p) && Enabled(p, last) && s == Apply(p, last)
               && (last.Commit? ==> CallOrder.IsApart(p.queue.pending, Calls(last.op)));
      queued := QueueIsApart(m, init, p);
      QueueStep(p, last, queued);
      queued := queued + [Queued(last)];
    }
  }

  /** The tables are those of the run without overlaps; the index is what the calls made so far make of it. */
  ghost predicate TablesAgree(m: Memory, s: State) {
    && Runs.IsRun(m, s.ops) && SameTables(s.now, Runs.RunAll(m, s.ops))
    && s.now.index == ApplyAll(m.index, s.queue.made)
  }

  lemma CommitAgrees(m: Memory, s: State, op: Operation)
    requires TablesAgree(m, s) && Enabled(s, Commit(op))
    ensures TablesAgree(m, Apply(s, Commit(op)))
  {
    var ops := s.ops + [op];
    assert ops[..|ops| - 1] == s.ops && ops[|ops| - 1] == op;
    CommitsIgnoreIndex(s.now, Runs.RunAll(m, s.ops), op);
  }

  lemma CallAgrees(m: Memory, s: State, k: nat)
    requires TablesAgree(m, s) && Enabled(s, Call(k))
    ensures TablesAgree(m, Apply(s, Call(k)))
  {
    var made := s.queue.made + [s.queue.pending[k][0]];
    assert made[..|made| - 1] == s.queue.made;
  }

  lemma {:induction false} ReachableAgrees(m: Memory, events: seq<Event>, s: State)
    requires Reaches(m, events, s)
    ensures TablesAgree(m, s)
  {
    if events != [] {
      var init, last := events[..|events| - 1], events[|events| - 1];
      var p :| Reaches(m, init, p) && Enabled(p, last) && s == Apply(p, last);
      ReachableAgrees(m, init, p);
      match last
      case Commit(op) => CommitAgrees(m, p, op);
      case Call(k) => CallAgrees(m, p, k);
    }
  }

  lemma {:induction false} RunIndex(m: Memory, ops: seq<Operation>)
    requires Runs.IsRun(m, ops)
    ensures Runs.RunAll(m, ops).index == ApplyAll(m.index, AllCalls(ops))
  {
    if ops != [] {
      var init, last := ops[..|ops| - 1], ops[|ops| - 1];
      RunIndex(m, init);
      OperationIsCommitThenCalls(Runs.RunAll(m, init), last);
      CallsCompose(m.index, AllCalls(init), Calls(last));
      CallOrder.FlatGrows(CallLists(init), Calls(last));
    }
  }

  // ---------------------------------------------------------------- when an overlap does no harm

  /** The last call on the ID is, in effect, that of the run without overlaps. */
  ghost predicate InOrderAt(s: State, id: Id) {
    CallOrder.LastEffect(s.queue.made, id) == CallOrder.LastEffect(AllCalls(s.ops), id)
  }

  /** Two indexes that agree but for calls on the ID, one of them covering the row. */
  lemma EffectMatters(index: map<Id, Vec>, made: seq<IndexOp>, all: seq<IndexOp>, id: Id, vec: Vec)
    requires CallOrder.LastEffect(made, id).None? <==> CallOrder.LastEffect(all, id).None?
    requires id in ApplyAll(index, all) && ApplyAll(index, all)[id] == vec
    ensures id in ApplyAll(index, made) && ApplyAll(index, made)[id] == vec <==>
            CallOrder.LastEffect(made, id) == CallOrder.LastEffect(all, id)
  {
    CallOrder.LastCallDecides(index, made, id);
    CallOrder.LastCallDecides(index, all, id);
  }

  lemma EffectsAgree(m: Memory, events: seq<Event>, s: State, id: Id)
    requires Reaches(m, events, s) && Finished(s) && Searchable(s.now, id)
    requires Runs.IsRun(m, s.ops) && Coverage(Runs.RunAll(m, s.ops))
    ensures Covered(s.now, id) <==> InOrderAt(s, id)
  {
    ReachableAgrees(m, events, s);
    var queued := QueueIsReached(m, events, s);
    CallOrder.TouchedTogether(queued, s.queue, id);
    RunIndex(m, s.ops);
    assert Covered(Runs.RunAll(m, s.ops), id);
    EffectMatters(m.index, s.queue.made, AllCalls(s.ops), id, s.now.rows[id].vec);
  }

  /**
   When all calls have been made, overlapping operations that one after another would have
   kept coverage have kept it exactly if, for every searchable row, the last call on it is
   in effect that of the last operation that concerns it.
   */
  lemma OverlapKeepsCoverageIff(m: Memory, events: seq<Event>, s: State)
    requires Reaches(m, events, s) && Finished(s)
    requires Runs.IsRun(m, s.ops) && Coverage(Runs.RunAll(m, s.ops))
    ensures Coverage(s.now) <==> forall id | Searchable(s.now, id) :: InOrderAt(s, id)
  {
    forall id | Searchable(s.now, id)
      ensures Covered(s.now, id) <==> InOrderAt(s, id)
    {
      EffectsAgree(m, events, s, id);
    }
    assert Coverage(s.now) <==> forall id | Searchable(s.now, id) :: Covered(s.now, id);
  }

  /** If the calls on every ID come in commit order, overlapping changes nothing at all. */
  lemma CommitOrderIsSequential(m: Memory, events: seq<Event>, s: State)
    requires Reaches(m, events, s)
    requires forall id :: CallOrder.CallsOn(s.queue.made, id) == CallOrder.CallsOn(AllCalls(s.ops), id)
    ensures Runs.IsRun(m, s.ops) && s.now == Runs.RunAll(m, s.ops)
  {
    ReachableAgrees(m, events, s);
    RunIndex(m, s.ops);
    CallOrder.SameCallsSameIndex(m.index, s.queue.made, AllCalls(s.ops));
  }

  /**
   If operations overlap only with operations on other IDs, the stores end as if they had
   not overlapped, in whatever order their index calls were made.
   */
  lemma ApartIsSequential(m: Memory, events: seq<Event>, s: State)
    requires ReachesApart(m, events, s) && Finished(s)
    ensures Runs.IsRun(m, s.ops) && s.now == Runs.RunAll(m, s.ops)
  {
    ApartIsReached(m, events, s);
    var queued := QueueIsApart(m, events, s);
    forall id
      ensures CallOrder.CallsOn(s.queue.made, id) == CallOrder.CallsOn(AllCalls(s.ops), id)
    {
      CallOrder.ApartIsInOrder(queued, s.queue, id);
    }
    CommitOrderIsSequential(m, events, s);
  }

  /** So they keep coverage if none of them breaks it when its turn comes. */
  lemma ApartKeepsCoverage(m: Memory, events: seq<Event>, s: State)
    requires ReachesApart(m, events, s) && Finished(s) && Coverage(m)
    requires Runs.IsRun(m, s.ops) && forall k: nat | k < |s.ops| :: Runs.Unbroken(m, s.ops, k)
    ensures Coverage(s.now)
  {
    ApartIsSequential(m, events, s);
    Runs.UnbrokenIsCovered(m, s.ops, |s.ops|);
    assert s.ops[..|s.ops|] == s.ops;
  }

  // ---------------------------------------------------------------- when every overlap is harmless

  /** The operations that concern the ID all leave the same: the same vector, or nothing. */
  ghost predicate AgreeOn(ops: seq<Operation>, id: Id) {
    forall i | 0 <= i < |ops| :: EffectFits(ops, i, id)
  }

  ghost predicate EffectFits(ops: seq<Operation>, i: nat, id: Id)
    requires i < |ops|
  {
    || CallOrder.LastEffect(Calls(ops[i]), id).None?
    || CallOrder.LastEffect(Calls(ops[i]), id) == CallOrder.LastEffect(AllCalls(ops), id)
  }

  lemma AgreementKeepsOrder(m: Memory, events: seq<Event>, s: State, id: Id)
    requires Reaches(m, events, s) && Finished(s) && AgreeOn(s.ops, id)
    ensures InOrderAt(s, id)
  {
    var queued := QueueIsReached(m, events, s);
    CallOrder.TouchedTogether(queued, s.queue, id);
    if CallOrder.LastEffect(s.queue.made, id).Some? {
      var i := CallOrder.FinishedFromOne(queued, s.queue, id);
      assert EffectFits(s.ops, i, id);
    }
  }

  // The other half: an operation that disagrees may make its calls last.

  ghost predicate Reachable(m: Memory, s: State) {
    exists events :: Reaches(m, events, s)
  }

  lemma Then(m: Memory, s: State, e: Event) returns (t: State)
    requires Reachable(m, s) && Enabled(s, e)
    ensures t == Apply(s, e) && Reachable(m, t)
  {
    var events :| Reaches(m, events, s);
    var longer := events + [e];
    t := Apply(s, e);
    assert longer[..|longer| - 1] == events && longer[|longer| - 1] == e;
    assert Reaches(m, longer, t);
  }

  /** Calls that are still to be made stand in the way of no commit. */
  lemma NextCommits(m: Memory, s: State, op: Operation) returns (t: State)
    requires Reachable(m, s) && Runs.IsRun(m, s.ops) && Runs.Possible(Runs.RunAll(m, s.ops), op)
    ensures Reachable(m, t) && t.ops == s.ops + [op]
    ensures t.queue.made == s.queue.made && t.queue.pending == s.queue.pending + [Calls(op)]
  {
    var events :| Reaches(m, events, s);
    ReachableAgrees(m, events, s);
    CommitsIgnoreIndex(Runs.RunAll(m, s.ops), s.now, op);
    t := Then(m, s, Commit(op));
  }

  /** All operations have committed and none has made a call. */
  lemma {:induction false} AllCommit(m: Memory, ops: seq<Operation>) returns (s: State)
    requires Runs.IsRun(m, ops)
    ensures Reachable(m, s) && s.ops == ops && s.queue.made == [] && s.queue.pending == CallLists(ops)
  {
    if ops == [] {
      s := Start(m);
      assert Reaches(m, [], s);
    } else {
      var init, last := ops[..|ops| - 1], ops[|ops| - 1];
      var before := AllCommit(m, init);
      s := NextCommits(m, before, last);
      ListsGrow(init, last);
      InitAndLast(ops);
    }
  }

  lemma InitAndLast<T>(s: seq<T>)
    requires s != []
    ensures s[..|s| - 1] + [s[|s| - 1]] == s
  {
  }

  /** One operation makes all its calls. */
  lemma {:induction false} MakeCalls(m: Memory, s: State, k: nat) returns (t: State)
    requires Reachable(m, s) && k < |s.queue.pending|
    ensures Reachable(m, t) && t.ops == s.ops
    ensures t.queue.made == s.queue.made + s.queue.pending[k] && t.queue.pending == s.queue.pending[k := []]
    decreases |s.queue.pending[k]|
  {
    var calls := s.queue.pending[k];
    if calls == [] {
      t := s;
      assert s.queue.pending[k := []] == s.queue.pending && s.queue.made + [] == s.queue.made;
    } else {
      var next := Then(m, s, Call(k));
      t := MakeCalls(m, next, k);
      assert s.queue.made + calls == (s.queue.made + [calls[0]]) + calls[1..];
    }
  }

  /** All of the first `n` operations but one make all their calls. */
  lemma {:induction false} AllButOneFinish(m: Memory, s: State, but: nat, n: nat) returns (t: State)
    requires Reachable(m, s) && n <= |s.queue.pending| && but < |s.queue.pending|
    ensures Reachable(m, t) && t.ops == s.ops && |t.queue.pending| == |s.queue.pending|
    ensures forall k | 0 <= k < |s.queue.pending| ::
              t.queue.pending[k] == if k < n && k != but then [] else s.queue.pending[k]
  {
    t := s;
    if n > 0 {
      t := AllButOneFinish(m, s, but, n - 1);
      if n - 1 != but {
        t := MakeCalls(m, t, n - 1);
      }
    }
  }

  /** An operation's calls can be the last to be made. */
  lemma OneFinishesLast(m: Memory, ops: seq<Operation>, i: nat) returns (s: State, before: seq<IndexOp>)
    requires Runs.IsRun(m, ops) && i < |ops|
    ensures Reachable(m, s) && Finished(s) && s.ops == ops && s.queue.made == before + Calls(ops[i])
  {
    var committed := AllCommit(m, ops);
    var others := AllButOneFinish(m, committed, i, |ops|);
    before := others.queue.made;
    s := MakeCalls(m, others, i);
  }

  /** However the operations overlap, coverage holds once all calls have been made. */
  ghost predicate IsSafe(m: Memory, ops: seq<Operation>) {
    forall s | Reachable(m, s) && Finished(s) && s.ops == ops :: Coverage(s.now)
  }

  lemma DisagreementUncovers(m: Memory, ops: seq<Operation>, i: nat, id: Id) returns (s: State)
    requires Runs.IsRun(m, ops) && Coverage(Runs.RunAll(m, ops)) && i < |ops|
    requires Searchable(Runs.RunAll(m, ops), id) && !EffectFits(ops, i, id)
    ensures Reachable(m, s) && Finished(s) && s.ops == ops && !Covered(s.now, id)
  {
    var before;
    s, before := OneFinishesLast(m, ops, i);
    var events :| Reaches(m, events, s);
    ReachableAgrees(m, events, s);
    CallOrder.EffectOfParts(before, Calls(ops[i]), id);
    EffectsAgree(m, events, s, id);
  }

  /**
   Operations that keep coverage one after another keep it in every overlap exactly if, on
   every row that is searchable in the end, the index calls of all of them that concern
   the row leave what the last of them leaves.
   */
  lemma OverlapIsSafeIff(m: Memory, ops: seq<Operation>)
    requires Runs.IsRun(m, ops) && Coverage(Runs.RunAll(m, ops))
    ensures IsSafe(m, ops) <==> forall id | Searchable(Runs.RunAll(m, ops), id) :: AgreeOn(ops, id)
  {
    if forall id | Searchable(Runs.RunAll(m, ops), id) :: AgreeOn(ops, id) {
      forall s | Reachable(m, s) && Finished(s) && s.ops == ops
        ensures Coverage(s.now)
      {
        var events :| Reaches(m, events, s);
        ReachableAgrees(m, events, s);
        forall id | Searchable(s.now, id)
          ensures InOrderAt(s, id)
        {
          assert AgreeOn(s.ops, id);
          AgreementKeepsOrder(m, events, s, id);
        }
        OverlapKeepsCoverageIff(m, events, s);
      }
    } else {
      var id :| Searchable(Runs.RunAll(m, ops), id) && !AgreeOn(ops, id);
      var i :| 0 <= i < |ops| && !EffectFits(ops, i, id);
      var s := DisagreementUncovers(m, ops, i, id);
      assert !Coverage(s.now);
    }
  }

  // ---------------------------------------------------------------- two merges into one row

  /**
   Two items merged into the same row, the second after the first has committed: unless
   both merges have the same vector, there is an overlap after which the index has the
   older one.
   */
  lemma LateIndexCallsUncover(m: Memory, first: Operation, second: Operation, x: Id) returns (s: State)
    requires Runs.IsRun(m, [first, second]) && Coverage(Runs.RunAll(m, [first, second]))
    requires Runs.HasPlan(first) && Runs.PlanOf(first).targetId == x
    requires Runs.HasPlan(second) && Runs.PlanOf(second).targetId == x
    requires first.faults == {} && second.faults == {}
    requires Searchable(Runs.RunAll(m, [first, second]), x) && Runs.PlanOf(first).row.vec != Runs.PlanOf(second).row.vec
    ensures Reachable(m, s) && Finished(s) && s.ops == [first, second] && !Coverage(s.now)
  {
    var ops := [first, second];
    PlanLeavesVector(first);
    PlanLeavesVector(second);
    assert ops[..1] == [first];
    CallOrder.FlatGrows(CallLists([first]), Calls(second));
    CallOrder.EffectOfParts(AllCalls([first]), Calls(second), x);
    assert !EffectFits(ops, 0, x);
    s := DisagreementUncovers(m, ops, 0, x);
    assert !Covered(s.now, x);
  }

  lemma ShapeLeavesVector(plan: Ingestion.Plan)
    requires Ingestion.IsShaped(plan)
    ensures CallOrder.LastEffect(plan.ops, plan.targetId) == Some(Some(plan.row.vec))
  {
    assert plan.ops[|plan.ops| - 1] == Upsert(plan.targetId, plan.row.vec);
  }

  /** With working calls an ingest leaves its target's vector. */
  lemma PlanLeavesVector(op: Operation)
    requires Runs.HasPlan(op) && op.faults == {}
    ensures CallOrder.LastEffect(Calls(op), Runs.PlanOf(op).targetId) == Some(Some(Runs.PlanOf(op).row.vec))
  {
    Ingestion.PlansAreShaped(op.worker, op.seen, op.item, op.existing);
    WorkingAll(Runs.PlanOf(op).ops);
    ShapeLeavesVector(Runs.PlanOf(op));
  }

  lemma {:induction false} WorkingAll(ops: seq<IndexOp>)
    ensures Working(ops, {}) == ops
  {
    if ops != [] {
      WorkingAll(ops[..|ops| - 1]);
    }
  }

  const EAST: Vec := [1.0, 0.0]
  const NORTH: Vec := [0.0, 1.0]

  /** Merges whatever is as near as it gets; long texts point north. */
  function Merger(): Ingestion.Worker {
    Ingestion.Worker(0.9, {}, "contradicts", (u, v) => if u == v then 1.0 else 0.0, (a, b) => false,
                     c => Ingestion.ResolveByThreshold(0.7, c), (t: string) => Some(if |t| > 5 then NORTH else EAST), 0)
  }

  function OneRow(): Memory {
    Memory(map["x" := Row("world", "x", EAST, false, 1.0, 0)], {}, map["x" := EAST])
  }

  function Incoming(id: Id, content: string): Ingestion.Item {
    Ingestion.Item(id, "world", content, [], EAST)
  }

  function MergeOf(id: Id, content: string): Operation {
    Runs.Ingest(Merger(), OneRow().rows, Incoming(id, content), Some("x"), {})
  }

  /** An item that is not part of the row's text is matched with the row and merged into it. */
  lemma ItemIsMerged(id: Id, content: string)
    requires id != "x" && |content| > 1
    ensures Ingestion.FindMatch(OneRow().rows, Merger(), EAST, ["x"], id) == Some("x")
    ensures Runs.HasPlan(MergeOf(id, content))
    ensures var plan := Runs.PlanOf(MergeOf(id, content));
            plan.targetId == "x" && plan.row.vec == (if |content| > 2 then NORTH else EAST)
  {
    assert EAST == EAST && |EAST| == 2;
    assert !Contains("x", content);
    assert |"x" + "; " + content| == |content| + 3;
  }

  lemma MergeIsUnbroken(m: Memory, id: Id, content: string)
    requires id != "x" && |content| > 1 && Coverage(m) && id !in m.rows && "x" in m.rows && !m.rows["x"].archived
    ensures Runs.Possible(m, MergeOf(id, content))
    ensures var after := Runs.After(m, MergeOf(id, content));
            Coverage(after) && after.rows.Keys == m.rows.Keys && Searchable(after, "x")
  {
    ItemIsMerged(id, content);
    Ingestion.MergeKeepsCoverage(Merger(), OneRow().rows, m, Incoming(id, content), "x");
  }

  /** Two ingests that read the same row before either commits, and make their index calls in the other order. */
  lemma TwoMergesCollide() returns (first: Operation, second: Operation, s: State)
    ensures first == MergeOf("a", "aa") && second == MergeOf("b", "bbb")
    ensures Ingestion.FindMatch(OneRow().rows, first.worker, first.item.embedding, ["x"], "a") == first.existing
    ensures Ingestion.FindMatch(OneRow().rows, second.worker, second.item.embedding, ["x"], "b") == second.existing
    ensures Coverage(OneRow()) && Runs.IsRun(OneRow(), [first, second])
            && Coverage(Runs.RunAll(OneRow(), [first, second]))
    ensures Reachable(OneRow(), s) && Finished(s) && s.ops == [first, second] && !Coverage(s.now)
  {
    first, second := MergeOf("a", "aa"), MergeOf("b", "bbb");
    ItemIsMerged("a", "aa");
    ItemIsMerged("b", "bbb");
    assert Coverage(OneRow());
    MergeIsUnbroken(OneRow(), "a", "aa");
    MergeIsUnbroken(Runs.After(OneRow(), first), "b", "bbb");
    Runs.TwoOperations(OneRow(), first, second);
    assert EAST[0] != NORTH[0];
    s := LateIndexCallsUncover(OneRow(), first, second, "x");
  }
}
