/**
 Re-embedding of every live row (src/internal/reembed/service.go): a batch buffer, four
 counters, and a paired row and index write per item.
 */
module Reembed {
  import opened Common
  import opened Stores

  datatype Work = Work(id: Id, content: string)

  /** What the collaborators answer for an item; the vector is the normalised one. */
  datatype Answers = Answers(embed: Work -> Option<Vec>, updateFails: set<Id>, indexFails: set<Id>, now: int)

  class ReEmbedResult {
    var total: nat
    var reEmbedded: nat
    var skipped: nat
    var failed: nat
    var batches: nat

    constructor ()
      ensures total == reEmbedded == skipped == failed == batches == 0
    {
      total, reEmbedded, skipped, failed, batches := 0, 0, 0, 0, 0;
    }
  }

  predicate Succeeds(a: Answers, dim: nat, w: Work) {
    a.embed(w).Some? && |a.embed(w).value| == dim && w.id !in a.updateFails
  }

  /** An UPDATE of a row that is gone changes nothing, but the vector is stored all the same. */
  function ReEmbedded(m: Memory, a: Answers, dim: nat, w: Work): Memory {
    if !Succeeds(a, dim, w) then m
    else
      var vec := a.embed(w).value;
      m.(rows := if w.id in m.rows then m.rows[w.id := m.rows[w.id].(vec := vec, updatedAt := a.now)] else m.rows,
         index := if w.id in a.indexFails then m.index else m.index[w.id := vec])
  }

  /** One item after another, without batches. */
  function AllReEmbedded(m: Memory, a: Answers, dim: nat, work: seq<Work>): Memory {
    if work == [] then m
    else ReEmbedded(AllReEmbedded(m, a, dim, work[..|work| - 1]), a, dim, work[|work| - 1])
  }

  /** The rows that are sent to the embedder: those with content. */
  function NonEmpty(work: seq<Work>): seq<Work> {
    if work == [] then []
    else
      var last := work[|work| - 1];
      NonEmpty(work[..|work| - 1]) + if last.content == "" then [] else [last]
  }

  function Successes(a: Answers, dim: nat, work: seq<Work>): nat {
    if work == [] then 0
    else Successes(a, dim, work[..|work| - 1]) + if Succeeds(a, dim, work[|work| - 1]) then 1 else 0
  }

  /** The rows that are sent are those that have content. */
  lemma {:induction false} NonEmptyHolds(work: seq<Work>, w: Work)
    ensures w in NonEmpty(work) <==> w in work && w.content != ""
  {
    if work != [] {
      var init, last := work[..|work| - 1], work[|work| - 1];
      NonEmptyHolds(init, w);
      assert w in work <==> w in init || w == last;
    }
  }

  /** The embedder answers with a vector of the right length, and the UPDATE goes through. */
  predicate IsDone(a: Answers, dim: nat, w: Work) {
    match a.embed(w)
    case None => false
    case Some(vec) => |vec| == dim && w.id !in a.updateFails
  }

  lemma {:induction false} SuccessesAreDone(a: Answers, dim: nat, work: seq<Work>)
    ensures Successes(a, dim, work) == |set i | 0 <= i < |work| && IsDone(a, dim, work[i])|
  {
    var done := set i | 0 <= i < |work| && IsDone(a, dim, work[i]);
    if work != [] {
      var init := work[..|work| - 1];
      SuccessesAreDone(a, dim, init);
      var before := set i | 0 <= i < |init| && IsDone(a, dim, init[i]);
      assert done == before + if IsDone(a, dim, work[|init|]) then {|init|} else {};
    }
  }

  /** A row none of whose items is done stays as it was, in both stores. */
  lemma {:induction false} OthersStay(m: Memory, a: Answers, dim: nat, work: seq<Work>, id: Id)
    requires forall i | 0 <= i < |work| && work[i].id == id :: !IsDone(a, dim, work[i])
    ensures var after := AllReEmbedded(m, a, dim, work);
            && after.edges == m.edges && after.rows.Keys == m.rows.Keys
            && (id in m.rows ==> after.rows[id] == m.rows[id])
            && (id in after.index <==> id in m.index) && (id in m.index ==> after.index[id] == m.index[id])
  {
    if work != [] {
      OthersStay(m, a, dim, work[..|work| - 1], id);
      assert work[|work| - 1].id == id ==> !IsDone(a, dim, work[|work| - 1]);
    }
  }

  /** The last item of a row that is done leaves its vector in the row and in the index, and changes nothing else. */
  lemma {:induction false} LastDoneDecides(m: Memory, a: Answers, dim: nat, work: seq<Work>, i: nat)
    requires i < |work| && IsDone(a, dim, work[i])
    requires forall j | i < j < |work| && work[j].id == work[i].id :: !IsDone(a, dim, work[j])
    ensures var after, id, vec := AllReEmbedded(m, a, dim, work), work[i].id, a.embed(work[i]).value;
            && after.rows.Keys == m.rows.Keys
            && (id in m.rows ==> after.rows[id] == m.rows[id].(vec := vec, updatedAt := a.now))
            && (id !in a.indexFails ==> IsIndexed(after, id, vec))
  {
    var init, last := work[..|work| - 1], work[|work| - 1];
    if i < |init| {
      LastDoneDecides(m, a, dim, init, i);
      assert last.id == work[i].id ==> !IsDone(a, dim, last);
    } else {
      RowsKeepAllButVectors(m, a, dim, init, last.id);
    }
  }

  lemma {:induction false} RowsKeepAllButVectors(m: Memory, a: Answers, dim: nat, work: seq<Work>, id: Id)
    ensures var after := AllReEmbedded(m, a, dim, work);
            && after.rows.Keys == m.rows.Keys
            && (id in m.rows ==>
                  after.rows[id].(vec := m.rows[id].vec, updatedAt := m.rows[id].updatedAt) == m.rows[id])
  {
    if work != [] {
      RowsKeepAllButVectors(m, a, dim, work[..|work| - 1], id);
    }
  }

  /** The number of batches for `n` items; a size below one sends each item alone. */
  function BatchCount(n: nat, batchSize: int): nat {
    if batchSize <= 1 then n else (n + batchSize - 1) / batchSize
  }

  lemma {:induction false} AppendWork(m: Memory, a: Answers, dim: nat, before: seq<Work>, items: seq<Work>)
    ensures AllReEmbedded(m, a, dim, before + items) == AllReEmbedded(AllReEmbedded(m, a, dim, before), a, dim, items)
    ensures Successes(a, dim, before + items) == Successes(a, dim, before) + Successes(a, dim, items)
  {
    if items == [] {
      assert before + items == before;
    } else {
      var init := items[..|items| - 1];
      AppendWork(m, a, dim, before, init);
      assert (before + items)[..|before + items| - 1] == before + init;
    }
  }

  lemma {:induction false} SuccessesBounded(a: Answers, dim: nat, work: seq<Work>)
    ensures Successes(a, dim, work) <= |work|
  {
    if work != [] {
      SuccessesBounded(a, dim, work[..|work| - 1]);
    }
  }

  method ProcessBatch(store: MemoryStore, a: Answers, items: seq<Work>, dim: nat, result: ReEmbedResult)
    modifies store`rows, store`index, result
    ensures store.Value() == AllReEmbedded(old(store.Value()), a, dim, items)
    ensures result.batches == old(result.batches) + 1
    ensures result.total == old(result.total) && result.skipped == old(result.skipped)
    ensures result.reEmbedded == old(result.reEmbedded) + Successes(a, dim, items)
    ensures result.reEmbedded + result.failed == old(result.reEmbedded + result.failed) + |items|
  {
    result.batches := result.batches + 1;
    for i := 0 to |items|
      invariant store.Value() == AllReEmbedded(old(store.Value()), a, dim, items[..i])
      invariant result.batches == old(result.batches) + 1
      invariant result.total == old(result.total) && result.skipped == old(result.skipped)
      invariant result.reEmbedded == old(result.reEmbedded) + Successes(a, dim, items[..i])
      invariant result.reEmbedded + result.failed == old(result.reEmbedded + result.failed) + i
    {
      var item := items[i];
      assert items[..i + 1][..i] == items[..i];
      var emb := a.embed(item);
      if emb.None? || |emb.value| != dim || item.id in a.updateFails {
        result.failed := result.failed + 1;
        continue;
      }
      if item.id in store.rows {
        store.rows := store.rows[item.id := store.rows[item.id].(vec := emb.value, updatedAt := a.now)];
      }
      if item.id !in a.indexFails {
        store.index := store.index[item.id := emb.value];
      }
      result.reEmbedded := result.reEmbedded + 1;
    }
    assert items[..|items|] == items;
  }

  /** `k` full batches of `size`. */
  ghost function FullBatches(k: nat, size: nat): nat {
    if k == 0 then 0 else FullBatches(k - 1, size) + size
  }

  lemma {:induction false} FullBatchesIsProduct(k: nat, size: nat)
    ensures FullBatches(k, size) == k * size
  {
    if k > 0 {
      FullBatchesIsProduct(k - 1, size);
    }
  }

  lemma BatchCountSplit(full: nat, rest: nat, batchSize: int)
    requires rest > 0 ==> rest < batchSize
    ensures BatchCount(FullBatches(full, if batchSize <= 1 then 1 else batchSize) + rest, batchSize) ==
            full + if rest > 0 then 1 else 0
  {
    FullBatchesIsProduct(full, if batchSize <= 1 then 1 else batchSize);
    if batchSize > 1 {
      var n := full * batchSize + rest;
      var q := full + if rest > 0 then 1 else 0;
      assert q * batchSize <= n + batchSize - 1 < q * batchSize + batchSize;
      QuotientIs(n + batchSize - 1, batchSize, q);
    }
  }

  lemma ProductLe(a: nat, b: nat, d: nat)
    requires a <= b
    ensures a * d <= b * d
  {
  }

  lemma QuotientIs(x: nat, d: nat, q: nat)
    requires d > 0 && q * d <= x < q * d + d
    ensures x / d == q
  {
    var k := x / d;
    assert x == k * d + x % d;
    if k < q {
      ProductLe(k + 1, q, d);
    } else if k > q {
      ProductLe(q + 1, k, d);
    }
  }

  lemma NonEmptyStep(work: seq<Work>, i: nat)
    requires i < |work|
    ensures NonEmpty(work[..i + 1]) == NonEmpty(work[..i]) + if work[i].content == "" then [] else [work[i]]
  {
    assert work[..i + 1][..i] == work[..i];
  }

  /** From `start`, exactly the items of `done` have been worked off and counted. */
  ghost predicate WorkedOff(start: Memory, now: Memory, a: Answers, dim: nat, done: seq<Work>, result: ReEmbedResult)
    reads result
  {
    && now == AllReEmbedded(start, a, dim, done)
    && result.reEmbedded == Successes(a, dim, done)
    && result.reEmbedded + result.failed == |done|
  }

  /** Every full batch has been sent; the rest waits in the buffer. */
  ghost predicate Batched(done: nat, waiting: nat, batches: nat, batchSize: int) {
    && (waiting > 0 ==> waiting < batchSize)
    && done == FullBatches(batches, if batchSize <= 1 then 1 else batchSize)
  }

  lemma BatchedGrows(done: nat, waiting: nat, batches: nat, batchSize: int)
    requires Batched(done, waiting, batches, batchSize)
    ensures if waiting + 1 >= batchSize then Batched(done + waiting + 1, 0, batches + 1, batchSize)
            else Batched(done, waiting + 1, batches, batchSize)
  {
  }

  method Flush(store: MemoryStore, a: Answers, batch: seq<Work>, dim: nat, result: ReEmbedResult,
               ghost start: Memory, ghost done: seq<Work>)
    requires WorkedOff(start, store.Value(), a, dim, done, result)
    modifies store`rows, store`index, result
    ensures WorkedOff(start, store.Value(), a, dim, done + batch, result)
    ensures result.batches == old(result.batches) + 1
    ensures result.total == old(result.total) && result.skipped == old(result.skipped)
  {
    AppendWork(start, a, dim, done, batch);
    ProcessBatch(store, a, batch, dim, result);
  }

  /** Puts one item into the buffer, and sends the buffer when it is full. */
  method Enqueue(store: MemoryStore, a: Answers, w: Work, dim: nat, batchSize: int, batch: seq<Work>,
                 result: ReEmbedResult, ghost start: Memory, ghost done: seq<Work>)
    returns (batch': seq<Work>, ghost done': seq<Work>)
    requires WorkedOff(start, store.Value(), a, dim, done, result)
    requires Batched(|done|, |batch|, result.batches, batchSize)
    modifies store`rows, store`index, result
    ensures WorkedOff(start, store.Value(), a, dim, done', result) && done' + batch' == done + batch + [w]
    ensures Batched(|done'|, |batch'|, result.batches, batchSize)
    ensures result.total == old(result.total) && result.skipped == old(result.skipped)
  {
    BatchedGrows(|done|, |batch|, result.batches, batchSize);
    batch', done' := batch + [w], done;
    if |batch'| >= batchSize {
      Flush(store, a, batch', dim, result, start, done);
      batch', done' := [], done + batch';
    }
  }

  /** Sends what is left in the buffer. */
  method FlushRest(store: MemoryStore, a: Answers, batch: seq<Work>, dim: nat, batchSize: int, result: ReEmbedResult,
                   ghost start: Memory, ghost done: seq<Work>)
    requires WorkedOff(start, store.Value(), a, dim, done, result)
    requires Batched(|done|, |batch|, result.batches, batchSize)
    modifies store`rows, store`index, result
    ensures WorkedOff(start, store.Value(), a, dim, done + batch, result)
    ensures result.batches == BatchCount(|done + batch|, batchSize)
    ensures result.total == old(result.total) && result.skipped == old(result.skipped)
  {
    BatchCountSplit(result.batches, |batch|, batchSize);
    if |batch| > 0 {
      Flush(store, a, batch, dim, result, start, done);
    } else {
      assert done + batch == done;
    }
  }

  /**
   The stores end as if every row had been re-embedded on its own, whatever the batch
   size, and the counters account for every row.
   */
  method ReEmbedAll(store: MemoryStore, a: Answers, work: seq<Work>, dim: nat, batchSize: int)
    returns (result: ReEmbedResult)
    modifies store`rows, store`index
    ensures fresh(result)
    ensures store.Value() == AllReEmbedded(old(store.Value()), a, dim, NonEmpty(work))
    ensures result.total == |work| == result.reEmbedded + result.skipped + result.failed
    ensures result.skipped == |work| - |NonEmpty(work)|
    ensures result.reEmbedded == Successes(a, dim, NonEmpty(work))
    ensures result.batches == BatchCount(|NonEmpty(work)|, batchSize)
  {
    ghost var start := store.Value();
    result := new ReEmbedResult();
    var batch: seq<Work> := [];
    ghost var done: seq<Work> := [];
    for i := 0 to |work|
      invariant fresh(result)
      invariant done + batch == NonEmpty(work[..i])
      invariant WorkedOff(start, store.Value(), a, dim, done, result)
      invariant result.total == i && result.skipped == i - |done + batch|
      invariant Batched(|done|, |batch|, result.batches, batchSize)
    {
      NonEmptyStep(work, i);
      result.total := result.total + 1;
      if work[i].content == "" {
        result.skipped := result.skipped + 1;
        continue;
      }
      batch, done := Enqueue(store, a, work[i], dim, batchSize, batch, result, start, done);
    }
    assert work[..|work|] == work;
    FlushRest(store, a, batch, dim, batchSize, result, start, done);
  }

  /** A live row got a vector that was not stored and that the index does not have. */
  predicate Uncovers(m: Memory, a: Answers, dim: nat, w: Work) {
    Succeeds(a, dim, w) && dim > 0 && Live(m, w.id) && w.id in a.indexFails && !IsIndexed(m, w.id, a.embed(w).value)
  }

  /** Re-embedding keeps coverage, except exactly when the index call for a live row fails and was needed. */
  lemma ReEmbedKeepsCoverage(m: Memory, a: Answers, dim: nat, w: Work)
    requires Coverage(m)
    ensures Coverage(ReEmbedded(m, a, dim, w)) <==> !Uncovers(m, a, dim, w)
  {
    var after := ReEmbedded(m, a, dim, w);
    assert forall id | id != w.id :: Covered(m, id) ==> Covered(after, id);
    assert Covered(m, w.id);
    assert Covered(after, w.id) <==> !Uncovers(m, a, dim, w);
  }

  lemma {:induction false} ReEmbedAllKeepsCoverage(m: Memory, a: Answers, dim: nat, work: seq<Work>)
    requires Coverage(m) && a.indexFails == {}
    ensures Coverage(AllReEmbedded(m, a, dim, work))
  {
    if work != [] {
      var init := work[..|work| - 1];
      ReEmbedAllKeepsCoverage(m, a, dim, init);
      ReEmbedKeepsCoverage(AllReEmbedded(m, a, dim, init), a, dim, work[|work| - 1]);
    }
  }
}
