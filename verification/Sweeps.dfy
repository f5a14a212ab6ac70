/**
 The two expiry sweeps (src/internal/retention/service.go and confidence_lifecycle.go):
 select a batch, archive it in one transaction, and only then delete its vectors.
 */
module Sweeps {
  import opened Common
  import opened Stores

  /** Which rows a sweep may archive, and how many at a time (a negative limit is none). */
  datatype Policy =
    | StaleObservations(cutoff: int, batchSize: int)
    | LowConfidence(enabled: bool, configuredThreshold: real, cutoff: int, configuredBatch: int)

  datatype Faults = Faults(select_: bool, begin: bool, archive: bool, commit: bool, index: bool)

  predicate Eligible(p: Policy, r: Row) {
    && !r.archived
    && match p
       case StaleObservations(cutoff, _) => r.category == "observation" && r.updatedAt < cutoff
       case LowConfidence(_, configured, cutoff, _) =>
         0.0 < r.confidence < (if configured <= 0.0 then 0.7 else configured) && r.updatedAt < cutoff
  }

  /** What the stale sweep takes: live observations older than the cutoff. */
  lemma StaleSweepSpares(cutoff: int, batchSize: int, r: Row)
    ensures !Eligible(StaleObservations(cutoff, batchSize), r) <==>
            r.archived || r.category != "observation" || r.updatedAt >= cutoff
  {
  }

  /** What the confidence sweep takes: live rows with a known confidence below the threshold, or 0.7 without one. */
  lemma ConfidenceSweepSpares(enabled: bool, threshold: real, cutoff: int, batch: int, r: Row)
    ensures !Eligible(LowConfidence(enabled, threshold, cutoff, batch), r) <==>
            r.archived || r.confidence <= 0.0 || r.updatedAt >= cutoff ||
            (threshold > 0.0 && r.confidence >= threshold) || (threshold <= 0.0 && r.confidence >= 0.7)
  {
  }

  function Limit(p: Policy): (limit: int)
    ensures p.StaleObservations? ==> limit == p.batchSize
    ensures p.LowConfidence? ==> if p.configuredBatch > 0 then limit == p.configuredBatch else limit == 200
  {
    match p
    case StaleObservations(_, batchSize) => batchSize
    case LowConfidence(_, _, _, configured) => if configured <= 0 then 200 else configured
  }

  function EligibleIds(m: Memory, p: Policy): set<Id> {
    set id | id in m.rows && Eligible(p, m.rows[id])
  }

  /** The effect of a sweep of `ids`; its index deletion may have failed. */
  function Swept(m: Memory, ids: set<Id>, deleted: bool): Memory {
    m.(rows := ArchiveRows(m.rows, ids), index := if deleted then m.index - ids else m.index)
  }

  /** Some eligible IDs, in no particular order, as many as the limit allows. */
  method SelectIds(m: Memory, p: Policy) returns (ids: seq<Id>)
    ensures NoDup(ids) && ToSet(ids) <= EligibleIds(m, p)
    ensures Limit(p) >= 0 ==> |ids| <= Limit(p)
    ensures (Limit(p) < 0 || |ids| < Limit(p)) ==> ToSet(ids) == EligibleIds(m, p)
  {
    ids := [];
    var rest := EligibleIds(m, p);
    while rest != {} && (Limit(p) < 0 || |ids| < Limit(p))
      invariant NoDup(ids) && ToSet(ids) !! rest && ToSet(ids) + rest == EligibleIds(m, p)
      invariant Limit(p) >= 0 ==> |ids| <= Limit(p)
      decreases rest
    {
      var id :| id in rest;
      assert forall i | 0 <= i < |ids| :: ids[i] in ToSet(ids);
      assert ToSet(ids + [id]) == ToSet(ids) + {id};
      ids := ids + [id];
      rest := rest - {id};
    }
  }

  /** One sweep: the whole batch is archived, or nothing changes. */
  method RunOnce(store: MemoryStore, p: Policy, f: Faults) returns (swept: nat, ok: bool, ids: seq<Id>)
    modifies store
    ensures swept == |ids|
    ensures ok && (p.StaleObservations? || p.enabled) ==>
              && NoDup(ids) && ToSet(ids) <= EligibleIds(old(store.Value()), p)
              && (Limit(p) >= 0 ==> |ids| <= Limit(p))
              && (Limit(p) < 0 || |ids| < Limit(p) ==> ToSet(ids) == EligibleIds(old(store.Value()), p))
    ensures ok ==> store.Value() == Swept(old(store.Value()), ToSet(ids), !f.index || ids == [])
    ensures !ok ==> store.Value() == old(store.Value()) && ids == []
  {
    swept, ok, ids := 0, true, [];
    var m := store.Value();
    NothingSwept(m);
    if p.LowConfidence? && !p.enabled {
      return;
    }
    if f.select_ {
      ok := false;
      return;
    }
    var selected := SelectIds(m, p);
    if |selected| == 0 {
      return;
    }
    if f.begin || f.archive || f.commit {
      ok := false;
      return;
    }
    store.rows := ArchiveRows(store.rows, ToSet(selected));
    if !f.index {
      store.index := store.index - ToSet(selected);
    }
    swept, ids := |selected|, selected;
  }

  lemma NothingSwept(m: Memory)
    ensures Swept(m, ToSet([]), true) == m
  {
  }

  /**
   A sweep keeps coverage whichever rows it takes and whether or not its index deletion
   works; the entry of an archived row survives only if the deletion failed.
   */
  lemma SweepKeepsCoverage(m: Memory, ids: set<Id>, deleted: bool)
    requires Coverage(m)
    ensures Coverage(Swept(m, ids, deleted))
    ensures forall id | id in ids && id in m.rows :: !Live(Swept(m, ids, deleted), id)
    ensures deleted ==> forall id | id in ids :: id !in Swept(m, ids, deleted).index
  {
    assert forall id :: Covered(m, id) ==> Covered(Swept(m, ids, deleted), id);
  }

  /** Deleting vectors before the commit would not be safe: a rolled-back batch loses coverage. */
  lemma EarlyDeletionUncovers(m: Memory, ids: set<Id>, id: Id)
    requires id in ids && Searchable(m, id)
    ensures !Coverage(m.(index := m.index - ids))
  {
    assert !Covered(m.(index := m.index - ids), id);
  }

  /** A sweep changes nothing but the archived flag of its own rows and the vectors it deletes. */
  lemma SweepTouchesItsRowsOnly(m: Memory, ids: set<Id>, deleted: bool)
    ensures var after := Swept(m, ids, deleted);
            && after.edges == m.edges && after.rows.Keys == m.rows.Keys
            && (forall id | id in m.rows && id !in ids :: after.rows[id] == m.rows[id])
            && (forall id | id in m.rows && id in ids :: after.rows[id] == m.rows[id].(archived := true))
            && (forall id | id in m.index && (id !in ids || !deleted) ::
                  id in after.index && after.index[id] == m.index[id])
            && after.index.Keys <= m.index.Keys
  {
  }

  /** Sweeps make progress: what remains eligible is what was not taken. */
  lemma SweepShrinksEligible(m: Memory, p: Policy, ids: set<Id>, deleted: bool)
    requires ids <= EligibleIds(m, p)
    ensures EligibleIds(Swept(m, ids, deleted), p) == EligibleIds(m, p) - ids
    ensures |EligibleIds(Swept(m, ids, deleted), p)| == |EligibleIds(m, p)| - |ids|
  {
    var before, after := EligibleIds(m, p), EligibleIds(Swept(m, ids, deleted), p);
    assert after == before - ids;
    assert before == after + ids;
  }
}
