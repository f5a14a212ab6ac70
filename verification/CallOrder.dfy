/**
 The order of index calls: operations issue lists of calls, and the calls of different
 lists are made in any interleaving.  What an ID is left with depends on the last call
 that concerns it.
 */
module CallOrder {
  import opened Common
  import opened Stores

  // ---------------------------------------------------------------- calls on one ID

  predicate Concerns(op: IndexOp, id: Id) {
    match op
    case Upsert(i, _) => i == id
    case Remove(ids) => id in ids
  }

  /** The calls that concern an ID, in order. */
  function CallsOn(ops: seq<IndexOp>, id: Id): seq<IndexOp> {
    if ops == [] then []
    else CallsOn(ops[..|ops| - 1], id) + if Concerns(ops[|ops| - 1], id) then [ops[|ops| - 1]] else []
  }

  lemma {:induction false} CallsOnParts(a: seq<IndexOp>, b: seq<IndexOp>, id: Id)
    ensures CallsOn(a + b, id) == CallsOn(a, id) + CallsOn(b, id)
  {
    if b == [] {
      assert a + b == a;
    } else {
      assert (a + b)[..|a + b| - 1] == a + b[..|b| - 1];
      CallsOnParts(a, b[..|b| - 1], id);
    }
  }

  lemma HeadAndTail(calls: seq<IndexOp>, id: Id)
    requires calls != []
    ensures CallsOn(calls, id) == (if Concerns(calls[0], id) then [calls[0]] else []) + CallsOn(calls[1..], id)
  {
    CallsOnParts([calls[0]], calls[1..], id);
    assert [calls[0]] + calls[1..] == calls && [calls[0]][..0] == [];
  }

  lemma MadeGrows(made: seq<IndexOp>, call: IndexOp, id: Id)
    ensures CallsOn(made + [call], id) == CallsOn(made, id) + if Concerns(call, id) then [call] else []
  {
    assert (made + [call])[..|made|] == made;
  }

  /** What the last call on an ID leaves: a vector, or nothing; `None` if no call concerns it. */
  function LastEffect(ops: seq<IndexOp>, id: Id): Option<Option<Vec>> {
    if ops == [] then None
    else if !Concerns(ops[|ops| - 1], id) then LastEffect(ops[..|ops| - 1], id)
    else
      match ops[|ops| - 1]
      case Upsert(_, vec) => Some(Some(vec))
      case Remove(_) => Some(None)
  }

  lemma {:induction false} LastCallDecides(index: map<Id, Vec>, ops: seq<IndexOp>, id: Id)
    ensures var after := ApplyAll(index, ops);
            match LastEffect(ops, id)
            case None => (id in after <==> id in index) && (id in index ==> after[id] == index[id])
            case Some(None) => id !in after
            case Some(Some(vec)) => id in after && after[id] == vec
  {
    if ops != [] {
      LastCallDecides(index, ops[..|ops| - 1], id);
    }
  }

  lemma {:induction false} NoCallNoEffect(ops: seq<IndexOp>, id: Id)
    ensures LastEffect(ops, id).None? <==> CallsOn(ops, id) == []
  {
    if ops != [] {
      NoCallNoEffect(ops[..|ops| - 1], id);
    }
  }

  lemma {:induction false} LastEffectOfCalls(ops: seq<IndexOp>, id: Id)
    ensures LastEffect(ops, id) == LastEffect(CallsOn(ops, id), id)
  {
    if ops != [] {
      var init, last := ops[..|ops| - 1], ops[|ops| - 1];
      LastEffectOfCalls(init, id);
      if Concerns(last, id) {
        assert CallsOn(ops, id)[|CallsOn(ops, id)| - 1] == last;
      } else {
        assert CallsOn(ops, id) == CallsOn(init, id);
      }
    }
  }

  lemma {:induction false} EffectOfParts(a: seq<IndexOp>, b: seq<IndexOp>, id: Id)
    ensures LastEffect(a + b, id) == if LastEffect(b, id).Some? then LastEffect(b, id) else LastEffect(a, id)
  {
    if b == [] {
      assert a + b == a;
    } else {
      assert (a + b)[..|a + b| - 1] == a + b[..|b| - 1];
      EffectOfParts(a, b[..|b| - 1], id);
    }
  }

  lemma EffectOfOne(ops: seq<IndexOp>, call: IndexOp, id: Id)
    ensures LastEffect(ops + [call], id) == if Concerns(call, id) then LastEffect([call], id) else LastEffect(ops, id)
    ensures LastEffect([call], id).Some? <==> Concerns(call, id)
  {
    assert [call][..0] == [];
    EffectOfParts(ops, [call], id);
  }

  /** Calls that come in one order on every ID make the same index. */
  lemma SameCallsSameIndex(index: map<Id, Vec>, a: seq<IndexOp>, b: seq<IndexOp>)
    requires forall id :: CallsOn(a, id) == CallsOn(b, id)
    ensures ApplyAll(index, a) == ApplyAll(index, b)
  {
    var one, two := ApplyAll(index, a), ApplyAll(index, b);
    forall id
      ensures (id in one <==> id in two) && (id in one ==> one[id] == two[id])
    {
      LastEffectOfCalls(a, id);
      LastEffectOfCalls(b, id);
      LastCallDecides(index, a, id);
      LastCallDecides(index, b, id);
    }
    assert one == two;
  }

  // ---------------------------------------------------------------- interleavings

  /** The lists issued so far, what is left of each, and the calls made, in order. */
  datatype Queue = Queue(issued: seq<seq<IndexOp>>, pending: seq<seq<IndexOp>>, made: seq<IndexOp>)

  datatype Event = Issue(calls: seq<IndexOp>) | Make(k: nat)

  const EMPTY := Queue([], [], [])

  predicate Enabled(q: Queue, e: Event) {
    e.Make? ==> e.k < |q.pending| && q.pending[e.k] != []
  }

  function Apply(q: Queue, e: Event): Queue
    requires Enabled(q, e)
  {
    match e
    case Issue(calls) => Queue(q.issued + [calls], q.pending + [calls], q.made)
    case Make(k) => Queue(q.issued, q.pending[k := q.pending[k][1..]], q.made + [q.pending[k][0]])
  }

  ghost predicate Reaches(events: seq<Event>, q: Queue) {
    if events == [] then q == EMPTY
    else
      var last := events[|events| - 1];
      exists p :: Reaches(events[..|events| - 1], p) && Enabled(p, last) && q == Apply(p, last)
  }

  predicate Finished(q: Queue) {
    forall k | 0 <= k < |q.pending| :: q.pending[k] == []
  }

  function Flat(lists: seq<seq<IndexOp>>): seq<IndexOp> {
    if lists == [] then [] else Flat(lists[..|lists| - 1]) + lists[|lists| - 1]
  }

  lemma FlatGrows(lists: seq<seq<IndexOp>>, calls: seq<IndexOp>)
    ensures Flat(lists + [calls]) == Flat(lists) + calls
  {
    assert (lists + [calls])[..|lists|] == lists;
  }

  lemma {:induction false} FlatOfEmpty(lists: seq<seq<IndexOp>>)
    requires forall k | 0 <= k < |lists| :: lists[k] == []
    ensures Flat(lists) == []
  {
    if lists != [] {
      FlatOfEmpty(lists[..|lists| - 1]);
    }
  }

  // ---------------------------------------------------------------- conservation

  /** How many calls concern an ID, in all lists. */
  function CountOn(lists: seq<seq<IndexOp>>, id: Id): nat {
    if lists == [] then 0 else CountOn(lists[..|lists| - 1], id) + |CallsOn(lists[|lists| - 1], id)|
  }

  lemma CountGrows(lists: seq<seq<IndexOp>>, calls: seq<IndexOp>, id: Id)
    ensures CountOn(lists + [calls], id) == CountOn(lists, id) + |CallsOn(calls, id)|
  {
    assert (lists + [calls])[..|lists|] == lists;
  }

  lemma {:induction false} CountOfFlat(lists: seq<seq<IndexOp>>, id: Id)
    ensures |CallsOn(Flat(lists), id)| == CountOn(lists, id)
  {
    if lists != [] {
      CountOfFlat(lists[..|lists| - 1], id);
      CallsOnParts(Flat(lists[..|lists| - 1]), lists[|lists| - 1], id);
    }
  }

  lemma {:induction false} CallLeaves(lists: seq<seq<IndexOp>>, k: nat, id: Id)
    requires k < |lists| && lists[k] != []
    ensures CountOn(lists, id) == CountOn(lists[k := lists[k][1..]], id) + if Concerns(lists[k][0], id) then 1 else 0
  {
    var after := lists[k := lists[k][1..]];
    var init, init' := lists[..|lists| - 1], after[..|lists| - 1];
    if k == |lists| - 1 {
      HeadAndTail(lists[k], id);
      assert init == init';
    } else {
      CallLeaves(init, k, id);
      assert init' == init[k := init[k][1..]];
    }
  }

  ghost predicate Conserved(q: Queue, id: Id) {
    |CallsOn(q.made, id)| + CountOn(q.pending, id) == CountOn(q.issued, id)
  }

  lemma StepConserves(q: Queue, e: Event, id: Id)
    requires Enabled(q, e) && Conserved(q, id)
    ensures Conserved(Apply(q, e), id)
  {
    match e
    case Issue(calls) =>
      CountGrows(q.issued, calls, id);
      CountGrows(q.pending, calls, id);
    case Make(k) =>
      CallLeaves(q.pending, k, id);
      MadeGrows(q.made, q.pending[k][0], id);
  }

  /** No call is lost and none is made twice: on every ID, those made and those pending are all that were issued. */
  lemma {:induction false} CallsAreConserved(events: seq<Event>, q: Queue, id: Id)
    requires Reaches(events, q)
    ensures Conserved(q, id)
  {
    if events != [] {
      var init, last := events[..|events| - 1], events[|events| - 1];
      var p :| Reaches(init, p) && Enabled(p, last) && q == Apply(p, last);
      CallsAreConserved(init, p, id);
      StepConserves(p, last, id);
    }
  }

  lemma {:induction false} NothingPending(lists: seq<seq<IndexOp>>, id: Id)
    requires forall k | 0 <= k < |lists| :: lists[k] == []
    ensures CountOn(lists, id) == 0
  {
    if lists != [] {
      NothingPending(lists[..|lists| - 1], id);
    }
  }

  /** In the end an ID was concerned by a call exactly if one that concerns it was issued. */
  lemma TouchedTogether(events: seq<Event>, q: Queue, id: Id)
    requires Reaches(events, q) && Finished(q)
    ensures LastEffect(q.made, id).None? <==> LastEffect(Flat(q.issued), id).None?
  {
    CallsAreConserved(events, q, id);
    NothingPending(q.pending, id);
    CountOfFlat(q.issued, id);
    NoCallNoEffect(q.made, id);
    NoCallNoEffect(Flat(q.issued), id);
  }

  // ---------------------------------------------------------------- which list had the last call

  /** `done` is what has been made of the list at `i`. */
  predicate HasMade(q: Queue, i: nat, done: seq<IndexOp>) {
    i < |q.issued| == |q.pending| && done + q.pending[i] == q.issued[i]
  }

  ghost predicate IsUnderWay(q: Queue, i: nat) {
    exists done :: HasMade(q, i, done)
  }

  ghost predicate AllUnderWay(q: Queue) {
    |q.issued| == |q.pending| && forall i: nat | i < |q.issued| :: IsUnderWay(q, i)
  }

  /** Some list left last what the ID has now. */
  ghost predicate FromOne(q: Queue, id: Id) {
    LastEffect(q.made, id).Some? ==> exists i: nat, done :: IsSource(q, i, done, id)
  }

  predicate IsSource(q: Queue, i: nat, done: seq<IndexOp>, id: Id) {
    HasMade(q, i, done) && LastEffect(done, id) == LastEffect(q.made, id)
  }

  lemma IssueKeepsSource(q: Queue, calls: seq<IndexOp>, id: Id)
    requires AllUnderWay(q) && FromOne(q, id)
    ensures AllUnderWay(Apply(q, Issue(calls))) && FromOne(Apply(q, Issue(calls)), id)
  {
    var t := Apply(q, Issue(calls));
    forall i: nat | i < |t.issued|
      ensures IsUnderWay(t, i)
    {
      if i < |q.issued| {
        assert IsUnderWay(q, i);
        var done :| HasMade(q, i, done);
        assert HasMade(t, i, done);
      } else {
        assert HasMade(t, i, []);
      }
    }
    if LastEffect(q.made, id).Some? {
      var i: nat, done :| IsSource(q, i, done, id);
      assert IsSource(t, i, done, id);
    }
  }

  lemma MadeAfterCall(q: Queue, k: nat, i: nat, done: seq<IndexOp>)
    requires Enabled(q, Make(k)) && HasMade(q, i, done)
    ensures HasMade(Apply(q, Make(k)), i, if i == k then done + [q.pending[k][0]] else done)
  {
    if i == k {
      assert done + q.pending[k] == (done + [q.pending[k][0]]) + q.pending[k][1..];
    }
  }

  lemma MakeKeepsUnderWay(q: Queue, k: nat)
    requires AllUnderWay(q) && Enabled(q, Make(k))
    ensures AllUnderWay(Apply(q, Make(k)))
  {
    var t := Apply(q, Make(k));
    forall i: nat | i < |t.issued|
      ensures IsUnderWay(t, i)
    {
      assert IsUnderWay(q, i);
      var done :| HasMade(q, i, done);
      MadeAfterCall(q, k, i, done);
    }
  }

  lemma MakeKeepsSource(q: Queue, k: nat, id: Id)
    requires AllUnderWay(q) && FromOne(q, id) && Enabled(q, Make(k))
    ensures FromOne(Apply(q, Make(k)), id)
  {
    var t, call := Apply(q, Make(k)), q.pending[k][0];
    EffectOfOne(q.made, call, id);
    if Concerns(call, id) {
      assert IsUnderWay(q, k);
      var done :| HasMade(q, k, done);
      MadeAfterCall(q, k, k, done);
      EffectOfOne(done, call, id);
      assert IsSource(t, k, done + [call], id);
    } else if LastEffect(q.made, id).Some? {
      var i: nat, done :| IsSource(q, i, done, id);
      MadeAfterCall(q, k, i, done);
      EffectOfOne(done, call, id);
      assert IsSource(t, i, if i == k then done + [call] else done, id);
    }
  }

  lemma {:induction false} EffectsHaveSource(events: seq<Event>, q: Queue, id: Id)
    requires Reaches(events, q)
    ensures AllUnderWay(q) && FromOne(q, id)
  {
    if events != [] {
      var init, last := events[..|events| - 1], events[|events| - 1];
      var p :| Reaches(init, p) && Enabled(p, last) && q == Apply(p, last);
      EffectsHaveSource(init, p, id);
      match last
      case Issue(calls) => IssueKeepsSource(p, calls, id);
      case Make(k) =>
        MakeKeepsUnderWay(p, k);
        MakeKeepsSource(p, k, id);
    }
  }

  /** In the end, an ID that some call concerns has what one of the lists left on it. */
  lemma FinishedFromOne(events: seq<Event>, q: Queue, id: Id) returns (i: nat)
    requires Reaches(events, q) && Finished(q) && LastEffect(q.made, id).Some?
    ensures i < |q.issued| && LastEffect(q.issued[i], id) == LastEffect(q.made, id)
  {
    EffectsHaveSource(events, q, id);
    var done;
    i, done :| IsSource(q, i, done, id);
    assert done + [] == done;
  }

  // ---------------------------------------------------------------- lists on different IDs

  /** On the ID, either the new list or all unfinished ones have no call. */
  predicate IsApartOn(pending: seq<seq<IndexOp>>, calls: seq<IndexOp>, id: Id) {
    CallsOn(calls, id) == [] || forall k | 0 <= k < |pending| :: CallsOn(pending[k], id) == []
  }

  ghost predicate IsApart(pending: seq<seq<IndexOp>>, calls: seq<IndexOp>) {
    forall id :: IsApartOn(pending, calls, id)
  }

  /** Every list was, when it was issued, apart from the lists that were not finished by then. */
  ghost predicate ReachesApart(events: seq<Event>, q: Queue) {
    if events == [] then q == EMPTY
    else
      var last := events[|events| - 1];
      exists p :: ReachesApart(events[..|events| - 1], p) && Enabled(p, last) && q == Apply(p, last)
                  && (last.Issue? ==> IsApart(p.pending, last.calls))
  }

  /** At most one list has calls left on an ID. */
  predicate PendingApart(pending: seq<seq<IndexOp>>, id: Id) {
    forall j, k | 0 <= j < k < |pending| :: CallsOn(pending[j], id) == [] || CallsOn(pending[k], id) == []
  }

  lemma {:induction false} FlatOnNone(lists: seq<seq<IndexOp>>, id: Id)
    requires forall j | 0 <= j < |lists| :: CallsOn(lists[j], id) == []
    ensures CallsOn(Flat(lists), id) == []
  {
    if lists != [] {
      FlatOnNone(lists[..|lists| - 1], id);
      CallsOnParts(Flat(lists[..|lists| - 1]), lists[|lists| - 1], id);
    }
  }

  lemma {:induction false} FlatOnOne(lists: seq<seq<IndexOp>>, k: nat, id: Id)
    requires k < |lists| && forall j | 0 <= j < |lists| && j != k :: CallsOn(lists[j], id) == []
    ensures CallsOn(Flat(lists), id) == CallsOn(lists[k], id)
  {
    var init, last := lists[..|lists| - 1], lists[|lists| - 1];
    CallsOnParts(Flat(init), last, id);
    if k == |lists| - 1 {
      FlatOnNone(init, id);
    } else {
      FlatOnOne(init, k, id);
    }
  }

  lemma {:induction false} FlatOnOther(lists: seq<seq<IndexOp>>, k: nat, calls: seq<IndexOp>, id: Id)
    requires k < |lists| && CallsOn(lists[k], id) == CallsOn(calls, id)
    ensures CallsOn(Flat(lists[k := calls]), id) == CallsOn(Flat(lists), id)
  {
    var after := lists[k := calls];
    var init, init', last, last' := lists[..|lists| - 1], after[..|lists| - 1], lists[|lists| - 1], after[|lists| - 1];
    CallsOnParts(Flat(init), last, id);
    CallsOnParts(Flat(init'), last', id);
    if k == |lists| - 1 {
      assert init == init';
    } else {
      FlatOnOther(init, k, calls, id);
      assert init' == init[k := calls];
    }
  }

  /** With the calls still to be made appended, the calls made on an ID are all that were issued, in order. */
  predicate OnTrack(q: Queue, id: Id) {
    PendingApart(q.pending, id) && CallsOn(q.made + Flat(q.pending), id) == CallsOn(Flat(q.issued), id)
  }

  lemma NewCallsAreApart(pending: seq<seq<IndexOp>>, calls: seq<IndexOp>, id: Id)
    requires PendingApart(pending, id) && IsApartOn(pending, calls, id)
    ensures PendingApart(pending + [calls], id)
  {
  }

  lemma Regroup(a: seq<IndexOp>, b: seq<IndexOp>, c: seq<IndexOp>)
    ensures a + (b + c) == (a + b) + c
  {
  }

  lemma IssueStaysOnTrack(q: Queue, calls: seq<IndexOp>, id: Id)
    requires OnTrack(q, id) && IsApartOn(q.pending, calls, id)
    ensures OnTrack(Apply(q, Issue(calls)), id)
  {
    NewCallsAreApart(q.pending, calls, id);
    FlatGrows(q.pending, calls);
    FlatGrows(q.issued, calls);
    Regroup(q.made, Flat(q.pending), calls);
    CallsOnParts(q.made + Flat(q.pending), calls, id);
    CallsOnParts(Flat(q.issued), calls, id);
  }

  /** Where no other list concerns the ID, the head of a list comes first among the pending calls on it. */
  lemma HeadComesFirst(pending: seq<seq<IndexOp>>, k: nat, id: Id)
    requires k < |pending| && pending[k] != [] && PendingApart(pending, id)
    ensures CallsOn(Flat(pending), id) ==
            (if Concerns(pending[k][0], id) then [pending[k][0]] else [])
              + CallsOn(Flat(pending[k := pending[k][1..]]), id)
  {
    var call, tail := pending[k][0], pending[k][1..];
    HeadAndTail(pending[k], id);
    if Concerns(call, id) {
      FlatOnOne(pending, k, id);
      FlatOnOne(pending[k := tail], k, id);
    } else {
      FlatOnOther(pending, k, tail, id);
    }
  }

  lemma HeadIsMade(made: seq<IndexOp>, pending: seq<seq<IndexOp>>, k: nat, id: Id)
    requires k < |pending| && pending[k] != [] && PendingApart(pending, id)
    ensures CallsOn((made + [pending[k][0]]) + Flat(pending[k := pending[k][1..]]), id) ==
            CallsOn(made + Flat(pending), id)
  {
    var call, rest := pending[k][0], Flat(pending[k := pending[k][1..]]);
    HeadComesFirst(pending, k, id);
    MadeGrows(made, call, id);
    CallsOnParts(made, Flat(pending), id);
    CallsOnParts(made + [call], rest, id);
    Regroup(CallsOn(made, id), if Concerns(call, id) then [call] else [], CallsOn(rest, id));
  }

  lemma TailsAreApart(pending: seq<seq<IndexOp>>, k: nat, id: Id)
    requires k < |pending| && pending[k] != [] && PendingApart(pending, id)
    ensures PendingApart(pending[k := pending[k][1..]], id)
  {
    HeadAndTail(pending[k], id);
  }

  lemma MakeStaysOnTrack(q: Queue, k: nat, id: Id)
    requires OnTrack(q, id) && Enabled(q, Make(k))
    ensures OnTrack(Apply(q, Make(k)), id)
  {
    HeadIsMade(q.made, q.pending, k, id);
    TailsAreApart(q.pending, k, id);
  }

  lemma {:induction false} ApartStaysOnTrack(events: seq<Event>, q: Queue, id: Id)
    requires ReachesApart(events, q)
    ensures OnTrack(q, id)
  {
    if events != [] {
      var init, last := events[..|events| - 1], events[|events| - 1];
      var p :| ReachesApart(init, p) && Enabled(p, last) && q == Apply(p, last)
               && (last.Issue? ==> IsApart(p.pending, last.calls));
      ApartStaysOnTrack(init, p, id);
      match last
      case Issue(calls) => IssueStaysOnTrack(p, calls, id);
      case Make(k) => MakeStaysOnTrack(p, k, id);
    }
  }

  /** Lists that are apart from those they overlap with are in effect made one after another. */
  lemma ApartIsInOrder(events: seq<Event>, q: Queue, id: Id)
    requires ReachesApart(events, q) && Finished(q)
    ensures CallsOn(q.made, id) == CallsOn(Flat(q.issued), id)
  {
    ApartStaysOnTrack(events, q, id);
    FlatOfEmpty(q.pending);
    assert q.made + [] == q.made;
  }
}
