/**
 Runs: any sequence of the writers' committed operations, each one finished before the
 next begins, and what becomes of the agreement between tables and index.  Module Overlap
 lets them overlap.
 */
module Runs {
  import opened Common
  import opened Stores
  import Consolidation
  import Ingestion
  import Reembed
  import Sweeps

  /**
   One completed operation.  `seen` are the rows an ingest decided on, which may be older
   than those it commits to; any index call may fail, and so may the statements whose
   errors a consolidation ignores.
   */
  datatype Operation =
    | RolledBack
    | Ingest(worker: Ingestion.Worker, seen: map<Id, Row>, item: Ingestion.Item, existing: Option<Id>, faults: set<nat>)
    | Sweep(ids: set<Id>, deleted: bool)
    | Consolidate(commit: Consolidation.Commit)
    | ReEmbed(answers: Reembed.Answers, dim: nat, work: Reembed.Work)

  ghost predicate HasPlan(op: Operation) {
    op.Ingest? && (op.existing.Some? ==> op.existing.value in op.seen)
    && Ingestion.PlanFor(op.worker, op.seen, op.item, op.existing).Some?
  }

  ghost function PlanOf(op: Operation): Ingestion.Plan
    requires HasPlan(op)
  {
    Ingestion.PlanFor(op.worker, op.seen, op.item, op.existing).value
  }

  ghost predicate Possible(m: Memory, op: Operation) {
    match op
    case Ingest(_, _, _, _, _) => HasPlan(op)
    case Consolidate(c) => Consolidation.Lands(m, c)
    case _ => true
  }

  /** Only an ingest whose merge cannot be embedded, and a synthesis under a taken ID, cannot be committed. */
  lemma PossibleIff(m: Memory, op: Operation)
    ensures !Possible(m, op) <==>
            || (op.Ingest? && !HasPlan(op))
            || (op.Consolidate? && (op.commit.newId in m.rows || op.commit.row.archived
                                    || op.commit.newId in op.commit.sources))
  {
  }

  ghost function After(m: Memory, op: Operation): Memory
    requires Possible(m, op)
  {
    match op
    case RolledBack => m
    case Ingest(_, _, _, _, faults) => Ingestion.Ingested(m, PlanOf(op), faults)
    case Sweep(ids, deleted) => Sweeps.Swept(m, ids, deleted)
    case Consolidate(c) => Consolidation.Effect(m, c)
    case ReEmbed(a, dim, work) => Reembed.ReEmbedded(m, a, dim, work)
  }

  /** The operations that leave a searchable row without its vector. */
  ghost predicate Breaks(m: Memory, op: Operation)
    requires Possible(m, op)
  {
    match op
    case Ingest(_, _, _, _, faults) => Ingestion.Uncovers(m, PlanOf(op), faults)
    case Consolidate(c) => Consolidation.Uncovers(m, c)
    case ReEmbed(a, dim, work) => Reembed.Uncovers(m, a, dim, work)
    case _ => false
  }

  lemma StepKeepsCoverage(m: Memory, op: Operation)
    requires Coverage(m) && Possible(m, op)
    ensures Coverage(After(m, op)) <==> !Breaks(m, op)
  {
    match op
    case RolledBack =>
    case Ingest(w, seen, item, existing, faults) => Ingestion.IngestKeepsCoverage(w, seen, m, item, existing, faults);
    case Sweep(ids, deleted) => Sweeps.SweepKeepsCoverage(m, ids, deleted);
    case Consolidate(c) => Consolidation.CommitKeepsCoverage(m, c);
    case ReEmbed(a, dim, work) => Reembed.ReEmbedKeepsCoverage(m, a, dim, work);
  }

  // ---------------------------------------------------------------- one operation after another

  /** Each operation is possible when its turn comes. */
  ghost predicate IsRun(m: Memory, ops: seq<Operation>)
    decreases |ops|, 0
  {
    ops != [] ==>
      var init := ops[..|ops| - 1];
      IsRun(m, init) && Possible(RunAll(m, init), ops[|ops| - 1])
  }

  ghost function RunAll(m: Memory, ops: seq<Operation>): Memory
    requires IsRun(m, ops)
    decreases |ops|, 1
  {
    if ops == [] then m else After(RunAll(m, ops[..|ops| - 1]), ops[|ops| - 1])
  }

  lemma OneOperation(m: Memory, op: Operation)
    requires Possible(m, op)
    ensures IsRun(m, [op]) && RunAll(m, [op]) == After(m, op)
  {
    var ops := [op];
    assert ops[..|ops| - 1] == [] && IsRun(m, []) && RunAll(m, []) == m;
    assert ops[|ops| - 1] == op;
  }

  lemma TwoOperations(m: Memory, first: Operation, second: Operation)
    requires Possible(m, first) && Possible(After(m, first), second)
    ensures IsRun(m, [first, second]) && RunAll(m, [first, second]) == After(After(m, first), second)
  {
    OneOperation(m, first);
    var ops := [first, second];
    assert ops[..|ops| - 1] == [first] && ops[|ops| - 1] == second;
  }

  /** The operation at `k` does not break coverage when its turn comes. */
  ghost predicate Unbroken(m: Memory, ops: seq<Operation>, k: nat)
    requires k < |ops| && IsRun(m, ops)
  {
    PrefixIsRun(m, ops, k);
    PrefixIsRun(m, ops, k + 1);
    assert ops[..k + 1][..k] == ops[..k];
    !Breaks(RunAll(m, ops[..k]), ops[k])
  }

  ghost predicate CoveredAt(m: Memory, ops: seq<Operation>, k: nat)
    requires k <= |ops| && IsRun(m, ops)
  {
    PrefixIsRun(m, ops, k);
    Coverage(RunAll(m, ops[..k]))
  }

  lemma {:induction false} PrefixIsRun(m: Memory, ops: seq<Operation>, k: nat)
    requires IsRun(m, ops) && k <= |ops|
    ensures IsRun(m, ops[..k])
  {
    if k < |ops| {
      PrefixIsRun(m, ops[..|ops| - 1], k);
      assert ops[..|ops| - 1][..k] == ops[..k];
    } else {
      assert ops[..k] == ops;
    }
  }

  lemma OneMoreStep(m: Memory, ops: seq<Operation>, k: nat)
    requires IsRun(m, ops) && k < |ops| && CoveredAt(m, ops, k)
    ensures CoveredAt(m, ops, k + 1) <==> Unbroken(m, ops, k)
  {
    PrefixIsRun(m, ops, k);
    PrefixIsRun(m, ops, k + 1);
    assert ops[..k + 1][..k] == ops[..k];
    StepKeepsCoverage(RunAll(m, ops[..k]), ops[k]);
  }

  lemma {:induction false} UnbrokenIsCovered(m: Memory, ops: seq<Operation>, k: nat)
    requires IsRun(m, ops) && Coverage(m) && k <= |ops|
    requires forall i: nat | i < |ops| :: Unbroken(m, ops, i)
    ensures CoveredAt(m, ops, k)
  {
    if k > 0 {
      UnbrokenIsCovered(m, ops, k - 1);
      OneMoreStep(m, ops, k - 1);
    } else {
      assert ops[..0] == [];
    }
  }

  /** A run that starts in agreement stays in agreement, at every step, exactly if none of its operations breaks it. */
  lemma RunKeepsCoverage(m: Memory, ops: seq<Operation>)
    requires IsRun(m, ops) && Coverage(m)
    ensures (forall k: nat | k <= |ops| :: CoveredAt(m, ops, k)) <==> (forall k: nat | k < |ops| :: Unbroken(m, ops, k))
  {
    if forall k: nat | k < |ops| :: Unbroken(m, ops, k) {
      forall k: nat | k <= |ops|
        ensures CoveredAt(m, ops, k)
      {
        UnbrokenIsCovered(m, ops, k);
      }
    }
    if forall k: nat | k <= |ops| :: CoveredAt(m, ops, k) {
      forall k: nat | k < |ops|
        ensures Unbroken(m, ops, k)
      {
        assert CoveredAt(m, ops, k) && CoveredAt(m, ops, k + 1);
        OneMoreStep(m, ops, k);
      }
    }
  }
}
