/**
 The resilient ingest loop (src/internal/ingestion/dialog.go) as a step machine: one
 dispatcher, a counting semaphore, a wait group, and a goroutine per message.  Messages
 are numbered in channel order.  A checkpoint save is one atomic step here; module
 Checkpoint justifies that.
 */
module ResilientLoop {
  import opened Common

  /** Where the dispatcher stands. */
  datatype LoopPc =
    | Selecting               // outer select
    | Waiting(message: nat)   // holds a message, waits for a slot or for cancellation
    | Draining                // reads the rest of the channel
    | SavingPending
    | Joining                 // wg.Wait()
    | Flushing                // final checkpoint
    | Done

  /** Where the goroutine of a message stands. */
  datatype WorkerPc = Running | Adding | Loading | Saving(index: nat) | Releasing | Exiting

  /** The goroutines, the semaphore, the wait group, the counter, and what processing returned. */
  datatype Pool = Pool(
    workers: map<nat, WorkerPc>, slots: nat, waitGroup: nat, processed: nat,
    succeeded: set<nat>, failed: set<nat>)

  /** What is on disk, and which of the closing saves worked. */
  datatype Files = Files(
    checkpoint: Option<nat>, pending: Option<seq<nat>>, pendingSaved: bool, finalSaved: bool)

  datatype State = State(
    sent: nat, closed: bool, cancelled: bool,           // the producer and the context
    taken: nat, pc: LoopPc, pool: Pool,
    drained: seq<nat>, dropped: Option<nat>, byClose: bool,
    files: Files)

  /** A step of the goroutine of one message. */
  datatype Action = Process(ok: bool) | Add | Load | Save(ok: bool) | Release | Exit

  datatype Step =
    | Send | Close | Cancel
    | Receive | SeeClosed | SeeCancelled | Acquire | GiveUp
    | DrainOne | DrainEnd | SavePending(ok: bool) | Joined | Flush(ok: bool)
    | Work(message: nat, action: Action)

  function Init(): State {
    State(0, false, false, 0, Selecting, Pool(map[], 0, 0, 0, {}, {}), [], None, false, Files(None, None, false, false))
  }

  // ---------------------------------------------------------------- the goroutines

  predicate At(p: Pool, m: nat, pc: WorkerPc) {
    m in p.workers && p.workers[m] == pc
  }

  predicate CanWork(p: Pool, m: nat, action: Action) {
    match action
    case Process(_) => At(p, m, Running)
    case Add => At(p, m, Adding)
    case Load => At(p, m, Loading)
    case Save(_) => m in p.workers && p.workers[m].Saving?
    case Release => At(p, m, Releasing) && p.slots > 0
    case Exit => At(p, m, Exiting) && p.waitGroup > 0
  }

  function Worked(p: Pool, m: nat, action: Action): Pool
    requires CanWork(p, m, action)
  {
    match action
    case Process(ok) =>
      if ok then p.(workers := p.workers[m := Adding], succeeded := p.succeeded + {m})
      else p.(workers := p.workers[m := Releasing], failed := p.failed + {m})
    case Add => p.(workers := p.workers[m := Loading], processed := p.processed + 1)
    case Load => p.(workers := p.workers[m := Saving(p.processed)])
    case Save(_) => p.(workers := p.workers[m := Releasing])
    case Release => p.(workers := p.workers[m := Exiting], slots := p.slots - 1)
    case Exit => p.(workers := p.workers - {m}, waitGroup := p.waitGroup - 1)
  }

  // ---------------------------------------------------------------- all steps

  predicate Enabled(maxParallel: nat, s: State, step: Step) {
    match step
    case Send => !s.closed
    case Close => !s.closed
    case Cancel => !s.cancelled
    case Receive => s.pc == Selecting && s.taken < s.sent
    case SeeClosed => s.pc == Selecting && s.closed && s.taken == s.sent
    case SeeCancelled => s.pc == Selecting && s.cancelled
    case Acquire => s.pc.Waiting? && s.pool.slots < maxParallel
    case GiveUp => s.pc.Waiting? && s.cancelled && s.pool.waitGroup > 0
    case DrainOne => s.pc == Draining && s.taken < s.sent
    case DrainEnd => s.pc == Draining       // the channel is closed and empty, or the deadline passes
    case SavePending(_) => s.pc == SavingPending
    case Joined => s.pc == Joining && s.pool.waitGroup == 0
    case Flush(_) => s.pc == Flushing
    case Work(m, action) => CanWork(s.pool, m, action)
  }

  function Apply(maxParallel: nat, s: State, step: Step): State
    requires Enabled(maxParallel, s, step)
  {
    match step
    case Send => s.(sent := s.sent + 1)
    case Close => s.(closed := true)
    case Cancel => s.(cancelled := true)
    case Receive =>
      s.(pc := Waiting(s.taken), taken := s.taken + 1, pool := s.pool.(waitGroup := s.pool.waitGroup + 1))
    case SeeClosed => s.(pc := Joining, byClose := true)
    case SeeCancelled => s.(pc := Draining)
    case Acquire =>
      s.(pc := Selecting,
         pool := s.pool.(slots := s.pool.slots + 1, workers := s.pool.workers[s.pc.message := Running]))
    case GiveUp =>
      s.(pc := Draining, dropped := Some(s.pc.message), pool := s.pool.(waitGroup := s.pool.waitGroup - 1))
    case DrainOne => s.(drained := s.drained + [s.taken], taken := s.taken + 1)
    case DrainEnd => s.(pc := SavingPending)
    case SavePending(ok) =>
      s.(pc := Joining,
         files := s.files.(pendingSaved := ok, pending := if ok then Some(s.drained) else s.files.pending))
    case Joined => s.(pc := Flushing)
    case Flush(ok) =>
      s.(pc := Done,
         files := s.files.(finalSaved := ok, checkpoint := if ok then Some(s.pool.processed) else s.files.checkpoint))
    case Work(m, action) =>
      s.(pool := Worked(s.pool, m, action),
         files := if action == Save(true) then s.files.(checkpoint := Some(s.pool.workers[m].index)) else s.files)
  }

  /** `s` is reached from the start by the interleaving `steps`. */
  ghost predicate Reaches(maxParallel: nat, steps: seq<Step>, s: State) {
    if steps == [] then s == Init()
    else
      var last := steps[|steps| - 1];
      exists p :: Reaches(maxParallel, steps[..|steps| - 1], p) && Enabled(maxParallel, p, last)
                  && s == Apply(maxParallel, p, last)
  }

  // ---------------------------------------------------------------- one fate for each message

  /** How many of these hold of a message: succeeded, failed, being processed. */
  function PoolFates(p: Pool, m: nat): nat {
    (if m in p.succeeded then 1 else 0) + (if m in p.failed then 1 else 0) + (if At(p, m, Running) then 1 else 0)
  }

  /** How many of these hold of a message: held by the dispatcher, dropped, drained. */
  function LoopFates(s: State, m: nat): nat {
    (if s.pc == Waiting(m) then 1 else 0) + (if s.dropped == Some(m) then 1 else 0) + (if m in s.drained then 1 else 0)
  }

  ghost predicate FateOk(s: State, m: nat) {
    PoolFates(s.pool, m) + LoopFates(s, m) == if m < s.taken then 1 else 0
  }

  /** Every received message has exactly one fate; the others have none. */
  ghost predicate OneFateEach(s: State) {
    forall m: nat :: FateOk(s, m)
  }

  lemma WorkKeepsFates(p: Pool, k: nat, action: Action, m: nat)
    requires CanWork(p, k, action) && PoolFates(p, k) <= 1
    ensures PoolFates(Worked(p, k, action), m) == PoolFates(p, m)
  {
  }

  lemma AcquireKeepsFate(maxParallel: nat, s: State, m: nat)
    requires FateOk(s, m) && Drainage(s) && Enabled(maxParallel, s, Acquire)
    ensures FateOk(Apply(maxParallel, s, Acquire), m)
  {
  }

  lemma ReceiveKeepsFate(maxParallel: nat, s: State, m: nat)
    requires FateOk(s, m) && Enabled(maxParallel, s, Receive)
    ensures FateOk(Apply(maxParallel, s, Receive), m)
  {
  }

  lemma GiveUpKeepsFate(maxParallel: nat, s: State, m: nat)
    requires FateOk(s, m) && Drainage(s) && Enabled(maxParallel, s, GiveUp)
    ensures FateOk(Apply(maxParallel, s, GiveUp), m)
  {
  }

  lemma DrainKeepsFate(maxParallel: nat, s: State, m: nat)
    requires FateOk(s, m) && Enabled(maxParallel, s, DrainOne)
    ensures FateOk(Apply(maxParallel, s, DrainOne), m)
  {
    assert m in s.drained + [s.taken] <==> m in s.drained || m == s.taken;
  }

  lemma WorkKeepsFate(maxParallel: nat, s: State, k: nat, action: Action, m: nat)
    requires FateOk(s, k) && FateOk(s, m) && Enabled(maxParallel, s, Work(k, action))
    ensures FateOk(Apply(maxParallel, s, Work(k, action)), m)
  {
    WorkKeepsFates(s.pool, k, action, m);
  }

  lemma FateKept(maxParallel: nat, s: State, step: Step, m: nat)
    requires OneFateEach(s) && Drainage(s) && Enabled(maxParallel, s, step)
    ensures FateOk(Apply(maxParallel, s, step), m)
  {
    assert FateOk(s, m);
    match step
    case Receive => ReceiveKeepsFate(maxParallel, s, m);
    case Acquire => AcquireKeepsFate(maxParallel, s, m);
    case GiveUp => GiveUpKeepsFate(maxParallel, s, m);
    case DrainOne => DrainKeepsFate(maxParallel, s, m);
    case Work(k, action) =>
      assert FateOk(s, k);
      WorkKeepsFate(maxParallel, s, k, action, m);
    case _ =>
  }

  // ---------------------------------------------------------------- counters

  /** Messages that hold a slot of the semaphore. */
  function Holding(p: Pool): set<nat> {
    set m | m in p.workers && p.workers[m] != Exiting
  }

  /** Messages whose success is not yet counted. */
  function Uncounted(p: Pool): set<nat> {
    set m | m in p.workers && p.workers[m] == Adding
  }

  ghost predicate WaitGroup(s: State) {
    s.pool.waitGroup == |s.pool.workers| + (if s.pc.Waiting? then 1 else 0)
  }

  ghost predicate Counters(maxParallel: nat, p: Pool) {
    |Holding(p)| == p.slots <= maxParallel && Counted(p)
  }

  lemma WorkKeepsSlots(p: Pool, m: nat, action: Action)
    requires |Holding(p)| == p.slots && CanWork(p, m, action)
    ensures |Holding(Worked(p, m, action))| == Worked(p, m, action).slots <= p.slots
  {
    var q := Worked(p, m, action);
    if action == Release {
      assert Holding(p) == Holding(q) + {m} && m !in Holding(q);
    } else {
      assert Holding(p) == Holding(q);
    }
  }

  ghost predicate Counted(p: Pool) {
    Uncounted(p) <= p.succeeded && p.processed + |Uncounted(p)| == |p.succeeded|
  }

  lemma UncountedAfter(p: Pool, m: nat, action: Action)
    requires CanWork(p, m, action)
    ensures Uncounted(Worked(p, m, action)) ==
            if action == Process(true) then Uncounted(p) + {m}
            else if action.Add? then Uncounted(p) - {m}
            else Uncounted(p)
  {
  }

  lemma WorkKeepsCount(p: Pool, m: nat, action: Action)
    requires Counted(p) && CanWork(p, m, action) && PoolFates(p, m) <= 1
    ensures Counted(Worked(p, m, action))
  {
    var before, q, after := Uncounted(p), Worked(p, m, action), Uncounted(Worked(p, m, action));
    UncountedAfter(p, m, action);
    if action.Process? {
      assert m !in before && m !in p.succeeded;
      assert |before + {m}| == |before| + 1 && |p.succeeded + {m}| == |p.succeeded| + 1;
    } else if action.Add? {
      assert m in before && |before - {m}| == |before| - 1;
    }
  }

  lemma SlotsKept(maxParallel: nat, s: State, step: Step)
    requires |Holding(s.pool)| == s.pool.slots <= maxParallel && Drainage(s) && Enabled(maxParallel, s, step)
    ensures var q := Apply(maxParallel, s, step).pool; |Holding(q)| == q.slots <= maxParallel
  {
    var q := Apply(maxParallel, s, step).pool;
    if step.Work? {
      WorkKeepsSlots(s.pool, step.message, step.action);
    } else if step.Acquire? {
      assert Holding(q) == Holding(s.pool) + {s.pc.message};
    } else {
      assert Holding(q) == Holding(s.pool);
    }
  }

  lemma CountKept(maxParallel: nat, s: State, step: Step)
    requires OneFateEach(s) && Counted(s.pool) && Drainage(s) && Enabled(maxParallel, s, step)
    ensures Counted(Apply(maxParallel, s, step).pool)
  {
    if step.Work? {
      assert FateOk(s, step.message);
      WorkKeepsCount(s.pool, step.message, step.action);
    } else {
      assert Uncounted(Apply(maxParallel, s, step).pool) == Uncounted(s.pool);
    }
  }

  lemma CountersKept(maxParallel: nat, s: State, step: Step)
    requires OneFateEach(s) && Counters(maxParallel, s.pool) && Drainage(s) && Enabled(maxParallel, s, step)
    ensures Counters(maxParallel, Apply(maxParallel, s, step).pool)
  {
    SlotsKept(maxParallel, s, step);
    CountKept(maxParallel, s, step);
  }

  // ---------------------------------------------------------------- the end of a run

  /** The drained messages are the last ones taken, in channel order; a dropped one precedes them. */
  ghost predicate Drainage(s: State) {
    && |s.drained| <= s.taken <= s.sent
    && (forall i | 0 <= i < |s.drained| :: s.drained[i] == s.taken - |s.drained| + i)
    && (s.dropped.Some? ==> s.dropped.value == s.taken - |s.drained| - 1)
    && (s.pc.Waiting? ==> s.pc.message == s.taken - 1 && s.pc.message !in s.pool.workers)
    && (forall m | m in s.pool.workers :: m < s.taken)
    && (s.pc.Selecting? || s.pc.Waiting? || s.byClose ==> s.drained == [] && s.dropped == None)
  }

  ghost predicate Ending(s: State) {
    && (s.byClose ==> s.closed && s.taken == s.sent && s.pc in {Joining, Flushing, Done})
    && (!s.cancelled ==> !s.pc.Draining? && !s.pc.SavingPending? && (s.pc in {Joining, Flushing, Done} ==> s.byClose))
    && (s.files.pendingSaved ==> s.files.pending == Some(s.drained) && s.pc in {Joining, Flushing, Done})
    && (s.pc in {Flushing, Done} ==> s.pool.workers == map[])
    && (s.files.finalSaved ==> s.pc == Done && s.files.checkpoint == Some(s.pool.processed))
  }

  lemma ReceiveKeepsDrainage(maxParallel: nat, s: State)
    requires Drainage(s) && Ending(s) && Enabled(maxParallel, s, Receive)
    ensures Drainage(Apply(maxParallel, s, Receive))
  {
  }

  lemma AcquireKeepsDrainage(maxParallel: nat, s: State)
    requires Drainage(s) && Ending(s) && Enabled(maxParallel, s, Acquire)
    ensures Drainage(Apply(maxParallel, s, Acquire))
  {
  }

  lemma GiveUpKeepsDrainage(maxParallel: nat, s: State)
    requires Drainage(s) && Ending(s) && Enabled(maxParallel, s, GiveUp)
    ensures Drainage(Apply(maxParallel, s, GiveUp))
  {
  }

  lemma DrainKeepsDrainage(maxParallel: nat, s: State)
    requires Drainage(s) && Ending(s) && Enabled(maxParallel, s, DrainOne)
    ensures Drainage(Apply(maxParallel, s, DrainOne))
  {
    var t := Apply(maxParallel, s, DrainOne);
    forall i | 0 <= i < |t.drained|
      ensures t.drained[i] == t.taken - |t.drained| + i
    {
    }
  }

  lemma WorkKeepsDrainage(maxParallel: nat, s: State, m: nat, action: Action)
    requires Drainage(s) && Enabled(maxParallel, s, Work(m, action))
    ensures Drainage(Apply(maxParallel, s, Work(m, action)))
  {
    assert forall k | k in Worked(s.pool, m, action).workers :: k in s.pool.workers;
  }

  lemma DrainageKept(maxParallel: nat, s: State, step: Step)
    requires Drainage(s) && Ending(s) && Enabled(maxParallel, s, step)
    ensures Drainage(Apply(maxParallel, s, step))
  {
    match step
    case Receive => ReceiveKeepsDrainage(maxParallel, s);
    case Acquire => AcquireKeepsDrainage(maxParallel, s);
    case GiveUp => GiveUpKeepsDrainage(maxParallel, s);
    case DrainOne => DrainKeepsDrainage(maxParallel, s);
    case Work(m, action) => WorkKeepsDrainage(maxParallel, s, m, action);
    case _ =>
  }

  lemma EndingKept(maxParallel: nat, s: State, step: Step)
    requires Ending(s) && WaitGroup(s) && Enabled(maxParallel, s, step)
    ensures Ending(Apply(maxParallel, s, step))
  {
    if step == Joined {
      assert |s.pool.workers| == 0;
    }
  }

  lemma WorkKeepsMembers(p: Pool, m: nat, action: Action)
    requires CanWork(p, m, action)
    ensures var q := Worked(p, m, action);
            if action.Exit? then |q.workers| + 1 == |p.workers| && q.waitGroup + 1 == p.waitGroup
            else |q.workers| == |p.workers| && q.waitGroup == p.waitGroup
  {
    var q := Worked(p, m, action);
    if action.Exit? {
      assert p.workers.Keys == q.workers.Keys + {m} && m !in q.workers.Keys;
      assert |p.workers| == |p.workers.Keys| && |q.workers| == |q.workers.Keys|;
    } else {
      assert p.workers.Keys == q.workers.Keys;
      assert |p.workers| == |p.workers.Keys| && |q.workers| == |q.workers.Keys|;
    }
  }

  lemma WaitGroupKept(maxParallel: nat, s: State, step: Step)
    requires WaitGroup(s) && Drainage(s) && Enabled(maxParallel, s, step)
    ensures WaitGroup(Apply(maxParallel, s, step))
  {
    var t := Apply(maxParallel, s, step);
    if step.Work? {
      WorkKeepsMembers(s.pool, step.message, step.action);
    } else if step.Acquire? {
      assert t.pool.workers.Keys == s.pool.workers.Keys + {s.pc.message};
      assert |t.pool.workers| == |t.pool.workers.Keys| && |s.pool.workers| == |s.pool.workers.Keys|;
    } else {
      assert t.pool.workers == s.pool.workers;
    }
  }

  // ---------------------------------------------------------------- every interleaving

  ghost predicate Inv(maxParallel: nat, s: State) {
    OneFateEach(s) && Counters(maxParallel, s.pool) && WaitGroup(s) && Drainage(s) && Ending(s)
  }

  lemma {:induction false} ReachableInv(maxParallel: nat, steps: seq<Step>, s: State)
    requires Reaches(maxParallel, steps, s)
    ensures Inv(maxParallel, s)
  {
    if steps == [] {
      assert forall m: nat :: FateOk(s, m);
    } else {
      var init, last := steps[..|steps| - 1], steps[|steps| - 1];
      var p :| Reaches(maxParallel, init, p) && Enabled(maxParallel, p, last) && s == Apply(maxParallel, p, last);
      ReachableInv(maxParallel, init, p);
      forall m: nat
        ensures FateOk(s, m)
      {
        FateKept(maxParallel, p, last, m);
      }
      CountersKept(maxParallel, p, last);
      WaitGroupKept(maxParallel, p, last);
      DrainageKept(maxParallel, p, last);
      EndingKept(maxParallel, p, last);
    }
  }

  /** The messages being processed or still holding their slot. */
  function InFlight(s: State): set<nat> {
    Holding(s.pool)
  }

  /** At no moment are more than `maxParallel` messages in flight. */
  lemma InFlightIsBounded(maxParallel: nat, steps: seq<Step>, s: State)
    requires Reaches(maxParallel, steps, s)
    ensures |InFlight(s)| <= maxParallel
    ensures forall m | At(s.pool, m, Running) :: m in InFlight(s)
  {
    ReachableInv(maxParallel, steps, s);
  }

  /** The outcome of a message when the loop has returned. */
  datatype Outcome = Succeeded | Failed | Dropped | Pending

  ghost predicate HasOutcome(s: State, m: nat, o: Outcome) {
    match o
    case Succeeded => m in s.pool.succeeded
    case Failed => m in s.pool.failed
    case Dropped => s.dropped == Some(m)
    case Pending => m in s.drained
  }

  ghost predicate HasSomeOutcome(s: State, m: nat) {
    exists o :: HasOutcome(s, m, o)
  }

  lemma OutcomeIsUnique(s: State, m: nat)
    requires FateOk(s, m) && s.pool.workers == map[] && s.pc == Done
    ensures HasSomeOutcome(s, m) <==> m < s.taken
    ensures forall o, o' | HasOutcome(s, m, o) && HasOutcome(s, m, o') :: o == o'
  {
    if m < s.taken {
      assert HasOutcome(s, m, Succeeded) || HasOutcome(s, m, Failed) || HasOutcome(s, m, Dropped)
             || HasOutcome(s, m, Pending);
    }
  }

  /**
   When the loop has returned, every received message has exactly one outcome; at most one
   is dropped, and it is the last before the drained ones, which are in channel order.
   After a close nothing is dropped or pending and the whole channel has been received;
   without a cancellation the loop ends in no other way.
   */
  lemma EveryMessageHasOneOutcome(maxParallel: nat, steps: seq<Step>, s: State)
    requires Reaches(maxParallel, steps, s) && s.pc == Done
    ensures forall m: nat :: HasSomeOutcome(s, m) <==> m < s.taken
    ensures forall m: nat, o, o' | HasOutcome(s, m, o) && HasOutcome(s, m, o') :: o == o'
    ensures forall i | 0 <= i < |s.drained| :: s.drained[i] == s.taken - |s.drained| + i
    ensures s.dropped.Some? ==> s.dropped.value == s.taken - |s.drained| - 1
    ensures s.files.pendingSaved ==> s.files.pending == Some(s.drained)
    ensures s.byClose ==> s.drained == [] && s.dropped == None && s.taken == s.sent && s.closed
    ensures !s.cancelled ==> s.byClose
  {
    ReachableInv(maxParallel, steps, s);
    OutcomesFromInv(maxParallel, s);
  }

  lemma OutcomesFromInv(maxParallel: nat, s: State)
    requires Inv(maxParallel, s) && s.pc == Done
    ensures forall m: nat :: HasSomeOutcome(s, m) <==> m < s.taken
    ensures forall m: nat, o, o' | HasOutcome(s, m, o) && HasOutcome(s, m, o') :: o == o'
    ensures Uncounted(s.pool) == {}
  {
    forall m: nat
      ensures HasSomeOutcome(s, m) <==> m < s.taken
    {
      assert FateOk(s, m);
      OutcomeIsUnique(s, m);
    }
    forall m: nat, o, o' | HasOutcome(s, m, o) && HasOutcome(s, m, o')
      ensures o == o'
    {
      assert FateOk(s, m);
      OutcomeIsUnique(s, m);
    }
  }

  lemma FinalCount(maxParallel: nat, s: State)
    requires Inv(maxParallel, s) && s.pc == Done && s.files.finalSaved
    ensures s.files.checkpoint == Some(|s.pool.succeeded|)
  {
    assert Uncounted(s.pool) == {};
  }

  /** The final checkpoint, once saved, counts the successes of the run exactly. */
  lemma FinalCheckpointIsExact(maxParallel: nat, steps: seq<Step>, s: State)
    requires Reaches(maxParallel, steps, s) && s.pc == Done && s.files.finalSaved
    ensures s.files.checkpoint == Some(|s.pool.succeeded|)
  {
    ReachableInv(maxParallel, steps, s);
    FinalCount(maxParallel, s);
  }

  ghost predicate Reachable(maxParallel: nat, s: State) {
    exists steps :: Reaches(maxParallel, steps, s)
  }

  lemma Then(maxParallel: nat, s: State, step: Step) returns (t: State)
    requires Reachable(maxParallel, s) && Enabled(maxParallel, s, step)
    ensures t == Apply(maxParallel, s, step) && Reachable(maxParallel, t)
  {
    t := Apply(maxParallel, s, step);
    var steps :| Reaches(maxParallel, steps, s);
    var longer := steps + [step];
    assert longer[..|longer| - 1] == steps && longer[|longer| - 1] == step;
    assert Reaches(maxParallel, longer, t);
  }

  // ---------------------------------------------------------------- the loop ends

  /** A step of the loop or of its goroutines; the others belong to the producer and the context. */
  predicate IsOwn(step: Step) {
    !step.Send? && !step.Close? && !step.Cancel?
  }

  ghost predicate CanMove(maxParallel: nat, s: State) {
    exists step :: IsOwn(step) && Enabled(maxParallel, s, step)
  }

  lemma SomeHolds(p: Pool, m: nat)
    requires m in p.workers
    ensures |p.workers| > 0 && (p.workers[m] != Exiting ==> |Holding(p)| > 0)
  {
    assert m in p.workers.Keys;
    if p.workers[m] != Exiting {
      assert m in Holding(p);
    }
  }

  /** Whatever a goroutine is about to do, it can. */
  lemma WorkerMoves(maxParallel: nat, s: State, m: nat)
    requires |Holding(s.pool)| == s.pool.slots && WaitGroup(s) && m in s.pool.workers
    ensures CanMove(maxParallel, s)
  {
    SomeHolds(s.pool, m);
    var action := match s.pool.workers[m]
      case Running => Process(true)
      case Adding => Add
      case Loading => Load
      case Saving(_) => Action.Save(true)
      case Releasing => Release
      case Exiting => Exit;
    assert IsOwn(Work(m, action)) && Enabled(maxParallel, s, Work(m, action));
  }

  /** Without goroutines the dispatcher waits for nothing but the producer, the context, or a slot that cannot be. */
  predicate IsIdle(maxParallel: nat, s: State) {
    || s.pc == Done
    || (s.pc == Selecting && s.taken == s.sent && !s.closed && !s.cancelled)
    || (s.pc.Waiting? && maxParallel == 0 && !s.cancelled)
  }

  lemma DispatcherMoves(maxParallel: nat, s: State) returns (step: Step)
    requires Inv(maxParallel, s) && s.pool.workers == map[] && !IsIdle(maxParallel, s)
    ensures IsOwn(step) && Enabled(maxParallel, s, step)
  {
    assert Holding(s.pool) == {};
    step := match s.pc
      case Selecting => if s.taken < s.sent then Receive else if s.closed then SeeClosed else SeeCancelled
      case Waiting(_) => if s.cancelled then GiveUp else Acquire
      case Draining => DrainEnd
      case SavingPending => SavePending(true)
      case Joining => Joined
      case Flushing => Flush(true)
      case Done => Receive;
  }

  lemma IdleIsStuck(maxParallel: nat, s: State)
    requires s.pool.workers == map[] && IsIdle(maxParallel, s)
    ensures !CanMove(maxParallel, s)
  {
  }

  /** In no interleaving is the loop stuck: it stops moving exactly when it is done or waits for the outside world. */
  lemma StuckIffIdle(maxParallel: nat, steps: seq<Step>, s: State)
    requires Reaches(maxParallel, steps, s)
    ensures !CanMove(maxParallel, s) <==> s.pool.workers == map[] && IsIdle(maxParallel, s)
  {
    ReachableInv(maxParallel, steps, s);
    if s.pool.workers != map[] {
      var m :| m in s.pool.workers;
      WorkerMoves(maxParallel, s, m);
    } else if IsIdle(maxParallel, s) {
      IdleIsStuck(maxParallel, s);
    } else {
      var step := DispatcherMoves(maxParallel, s);
    }
  }

  /** How many steps the goroutine of a message may still take. */
  function StepsOf(p: Pool, m: nat): nat {
    if m !in p.workers then 0
    else
      match p.workers[m]
      case Running => 6
      case Adding => 5
      case Loading => 4
      case Saving(_) => 3
      case Releasing => 2
      case Exiting => 1
  }

  function StepsOfAll(p: Pool, n: nat): nat {
    if n == 0 then 0 else StepsOfAll(p, n - 1) + StepsOf(p, n - 1)
  }

  lemma {:induction false} OneStepsOn(p: Pool, q: Pool, m: nat, n: nat)
    requires forall k: nat | k != m :: StepsOf(p, k) == StepsOf(q, k)
    ensures StepsOfAll(q, n) - StepsOfAll(p, n) == if m < n then StepsOf(q, m) - StepsOf(p, m) else 0
  {
    if n > 0 {
      OneStepsOn(p, q, m, n - 1);
    }
  }

  lemma {:induction false} SameStepsOn(p: Pool, q: Pool, n: nat)
    requires p.workers == q.workers
    ensures StepsOfAll(p, n) == StepsOfAll(q, n)
  {
    if n > 0 {
      SameStepsOn(p, q, n - 1);
    }
  }

  function StepsOfLoop(pc: LoopPc): nat {
    match pc
    case Selecting => 5
    case Waiting(_) => 13
    case Draining => 4
    case SavingPending => 3
    case Joining => 2
    case Flushing => 1
    case Done => 0
  }

  /** A bound on the steps of the loop and its goroutines until the producer or the context intervenes. */
  function StepsLeft(s: State): nat
    requires s.taken <= s.sent
  {
    9 * (s.sent - s.taken) + StepsOfAll(s.pool, s.taken) + StepsOfLoop(s.pc)
  }

  lemma WorkUsesUp(p: Pool, m: nat, action: Action, n: nat)
    requires CanWork(p, m, action) && m < n
    ensures StepsOfAll(Worked(p, m, action), n) < StepsOfAll(p, n)
  {
    OneStepsOn(p, Worked(p, m, action), m, n);
  }

  lemma ReceiveUsesUp(maxParallel: nat, s: State)
    requires Drainage(s) && Enabled(maxParallel, s, Receive)
    ensures StepsLeft(Apply(maxParallel, s, Receive)) < StepsLeft(s)
  {
    var q := Apply(maxParallel, s, Receive).pool;
    OneStepsOn(s.pool, q, s.taken, s.taken);
    assert StepsOfAll(q, s.taken + 1) == StepsOfAll(q, s.taken) + StepsOf(q, s.taken);
    assert s.taken !in s.pool.workers;
  }

  lemma AcquireUsesUp(maxParallel: nat, s: State)
    requires Drainage(s) && Enabled(maxParallel, s, Acquire)
    ensures StepsLeft(Apply(maxParallel, s, Acquire)) < StepsLeft(s)
  {
    OneStepsOn(s.pool, Apply(maxParallel, s, Acquire).pool, s.pc.message, s.taken);
  }

  lemma DrainUsesUp(maxParallel: nat, s: State)
    requires Drainage(s) && Enabled(maxParallel, s, DrainOne)
    ensures StepsLeft(Apply(maxParallel, s, DrainOne)) < StepsLeft(s)
  {
    assert s.taken !in s.pool.workers;
    assert StepsOfAll(s.pool, s.taken + 1) == StepsOfAll(s.pool, s.taken) + StepsOf(s.pool, s.taken);
  }

  lemma OwnStepUsesUp(maxParallel: nat, s: State, step: Step)
    requires Inv(maxParallel, s) && IsOwn(step) && Enabled(maxParallel, s, step)
    ensures var t := Apply(maxParallel, s, step); t.taken <= t.sent && StepsLeft(t) < StepsLeft(s)
  {
    var t := Apply(maxParallel, s, step);
    if step.Receive? {
      ReceiveUsesUp(maxParallel, s);
    } else if step.Acquire? {
      AcquireUsesUp(maxParallel, s);
    } else if step.DrainOne? {
      DrainUsesUp(maxParallel, s);
    } else if step.Work? {
      WorkUsesUp(s.pool, step.message, step.action, s.taken);
    } else {
      SameStepsOn(s.pool, t.pool, s.taken);
    }
  }

  ghost predicate IsOwnStep(maxParallel: nat, s: State, t: State) {
    exists step :: IsOwn(step) && Enabled(maxParallel, s, step) && t == Apply(maxParallel, s, step)
  }

  /** The states of a run in which only the loop and its goroutines take steps. */
  ghost predicate IsOwnRun(maxParallel: nat, run: seq<State>) {
    run != [] && forall i | 0 < i < |run| :: IsOwnStep(maxParallel, run[i - 1], run[i])
  }

  /** `t` has used up at least `n` of the steps of `s`, and nothing has come from outside. */
  predicate IsBehind(s: State, t: State, n: nat) {
    && s.taken <= s.sent && t.taken <= t.sent && StepsLeft(t) + n <= StepsLeft(s)
    && t.closed == s.closed && t.cancelled == s.cancelled && t.sent == s.sent
  }

  lemma ReachableHolds(maxParallel: nat, s: State)
    requires Reachable(maxParallel, s)
    ensures Inv(maxParallel, s)
  {
    var steps :| Reaches(maxParallel, steps, s);
    ReachableInv(maxParallel, steps, s);
  }

  lemma OwnStep(maxParallel: nat, s: State, t: State)
    requires Reachable(maxParallel, s) && IsOwnStep(maxParallel, s, t)
    ensures Reachable(maxParallel, t) && IsBehind(s, t, 1)
  {
    var step :| IsOwn(step) && Enabled(maxParallel, s, step) && t == Apply(maxParallel, s, step);
    var next := Then(maxParallel, s, step);
    ReachableHolds(maxParallel, s);
    OwnStepUsesUp(maxParallel, s, step);
  }

  lemma {:induction false} RunStaysReachable(maxParallel: nat, run: seq<State>, i: nat)
    requires IsOwnRun(maxParallel, run) && Reachable(maxParallel, run[0]) && i < |run|
    ensures Reachable(maxParallel, run[i])
  {
    if i > 0 {
      RunStaysReachable(maxParallel, run, i - 1);
      OwnStep(maxParallel, run[i - 1], run[i]);
    }
  }

  lemma {:induction false} StepsAddUp(run: seq<State>, i: nat)
    requires i < |run| && run[0].taken <= run[0].sent
    requires forall k | 0 < k < |run| :: IsBehind(run[k - 1], run[k], 1)
    ensures IsBehind(run[0], run[i], i)
  {
    if i > 0 {
      StepsAddUp(run, i - 1);
      assert IsBehind(run[i - 1], run[i], 1);
    }
  }

  /** However the goroutines are scheduled, they and the loop come to a halt. */
  lemma RunsAreFinite(maxParallel: nat, run: seq<State>)
    requires IsOwnRun(maxParallel, run) && Reachable(maxParallel, run[0])
    ensures Reachable(maxParallel, run[|run| - 1]) && IsBehind(run[0], run[|run| - 1], |run| - 1)
  {
    ReachableHolds(maxParallel, run[0]);
    forall k | 0 < k < |run|
      ensures IsBehind(run[k - 1], run[k], 1)
    {
      RunStaysReachable(maxParallel, run, k - 1);
      OwnStep(maxParallel, run[k - 1], run[k]);
    }
    RunStaysReachable(maxParallel, run, |run| - 1);
    StepsAddUp(run, |run| - 1);
  }

  /**
   Once the channel is closed or the context is cancelled, the loop returns: every run that
   goes on as long as it can ends, and it ends with the loop done and no goroutine left.
   */
  lemma LoopReturns(maxParallel: nat, run: seq<State>)
    requires IsOwnRun(maxParallel, run) && Reachable(maxParallel, run[0]) && !CanMove(maxParallel, run[|run| - 1])
    requires maxParallel > 0 && (run[0].closed || run[0].cancelled)
    ensures run[0].taken <= run[0].sent && |run| - 1 <= StepsLeft(run[0])
    ensures run[|run| - 1].pc == Done && run[|run| - 1].pool.workers == map[]
  {
    RunsAreFinite(maxParallel, run);
    var steps :| Reaches(maxParallel, steps, run[|run| - 1]);
    StuckIffIdle(maxParallel, steps, run[|run| - 1]);
  }

  lemma RunStarts(maxParallel: nat, s: State, rest: seq<State>)
    requires IsOwnRun(maxParallel, rest) && IsOwnStep(maxParallel, s, rest[0])
    ensures IsOwnRun(maxParallel, [s] + rest) && ([s] + rest)[|rest|] == rest[|rest| - 1]
  {
    var run := [s] + rest;
    forall i | 0 < i < |run|
      ensures IsOwnStep(maxParallel, run[i - 1], run[i])
    {
      if i > 1 {
        assert run[i - 1] == rest[i - 2] && run[i] == rest[i - 1];
      }
    }
  }

  /** Every reachable state has a run that goes on as long as it can. */
  lemma {:induction false} RunExists(maxParallel: nat, s: State) returns (run: seq<State>)
    requires Reachable(maxParallel, s) && s.taken <= s.sent
    ensures IsOwnRun(maxParallel, run) && run[0] == s && !CanMove(maxParallel, run[|run| - 1])
    decreases StepsLeft(s)
  {
    if CanMove(maxParallel, s) {
      var step :| IsOwn(step) && Enabled(maxParallel, s, step);
      var next := Apply(maxParallel, s, step);
      assert IsOwnStep(maxParallel, s, next);
      OwnStep(maxParallel, s, next);
      var rest := RunExists(maxParallel, next);
      RunStarts(maxParallel, s, rest);
      run := [s] + rest;
    } else {
      run := [s];
    }
  }

  /** So the loop can return from every reachable state after the close or the cancellation. */
  lemma LoopCanReturn(maxParallel: nat, s: State) returns (run: seq<State>)
    requires Reachable(maxParallel, s) && maxParallel > 0 && (s.closed || s.cancelled)
    ensures IsOwnRun(maxParallel, run) && run[0] == s && run[|run| - 1].pc == Done
  {
    ReachableHolds(maxParallel, s);
    run := RunExists(maxParallel, s);
    LoopReturns(maxParallel, run);
  }

  lemma OneMessageRuns(n: nat) returns (s: State)
    requires n > 0
    ensures Reachable(n, s) && s == Init().(sent := 1, taken := 1, pool := Pool(map[0 := Running], 1, 1, 0, {}, {}))
  {
    s := Init();
    assert Reaches(n, [], s);
    s := Then(n, s, Send);
    s := Then(n, s, Receive);
    s := Then(n, s, Acquire);
  }

  lemma OneMessageDone(n: nat, ok: bool) returns (s: State)
    requires n > 0
    ensures Reachable(n, s) && s.pool.workers == map[] && s.pc == Selecting && s.sent == s.taken == 1 && !s.closed
    ensures s.pool.succeeded == (if ok then {0} else {}) && s.pool.failed == (if ok then {} else {0})
    ensures s.pool.waitGroup == 0
  {
    s := OneMessageRuns(n);
    s := Then(n, s, Work(0, Process(ok)));
    if ok {
      s := Then(n, s, Work(0, Add));
      s := Then(n, s, Work(0, Load));
      s := Then(n, s, Work(0, Action.Save(true)));
    }
    s := Then(n, s, Work(0, Release));
    s := Then(n, s, Work(0, Exit));
  }

  lemma OneMessageLeft(n: nat, dropped: bool) returns (s: State)
    requires n > 0
    ensures Reachable(n, s) && s.pool == Init().pool && s.pc == Draining
    ensures s.dropped == (if dropped then Some(0) else None) && s.drained == if dropped then [] else [0]
  {
    s := Init();
    assert Reaches(n, [], s);
    s := Then(n, s, Send);
    if dropped {
      s := Then(n, s, Receive);
      s := Then(n, s, Cancel);
      s := Then(n, s, GiveUp);
    } else {
      s := Then(n, s, Cancel);
      s := Then(n, s, SeeCancelled);
      s := Then(n, s, DrainOne);
    }
  }

  lemma EndOfDrain(n: nat, s: State) returns (t: State)
    requires Reachable(n, s) && s.pc == Draining && s.pool.waitGroup == 0
    ensures Reachable(n, t) && t.pc == Done && t.pool == s.pool && t.dropped == s.dropped && t.drained == s.drained
  {
    t := Then(n, s, DrainEnd);
    t := Then(n, t, SavePending(true));
    t := Then(n, t, Joined);
    t := Then(n, t, Flush(true));
  }

  lemma EndOfClosed(n: nat, s: State) returns (t: State)
    requires Reachable(n, s) && s.pc == Selecting && s.taken == s.sent && !s.closed && s.pool.waitGroup == 0
    ensures Reachable(n, t) && t.pc == Done && t.pool == s.pool
  {
    t := Then(n, s, Close);
    t := Then(n, t, SeeClosed);
    t := Then(n, t, Joined);
    t := Then(n, t, Flush(true));
  }

  /** Each of the four outcomes is possible, whatever the limit. */
  lemma EveryOutcomeOccurs(maxParallel: nat, o: Outcome) returns (s: State)
    requires maxParallel > 0
    ensures Reachable(maxParallel, s) && s.pc == Done && HasOutcome(s, 0, o)
  {
    match o
    case Succeeded =>
      s := OneMessageDone(maxParallel, true);
      s := EndOfClosed(maxParallel, s);
    case Failed =>
      s := OneMessageDone(maxParallel, false);
      s := EndOfClosed(maxParallel, s);
    case Dropped =>
      s := OneMessageLeft(maxParallel, true);
      s := EndOfDrain(maxParallel, s);
    case Pending =>
      s := OneMessageLeft(maxParallel, false);
      s := EndOfDrain(maxParallel, s);
  }

  // ---------------------------------------------------------------- when the stored index can go back

  ghost predicate Lowers(s: State, t: State) {
    s.files.checkpoint.Some? && t.files.checkpoint.Some? && t.files.checkpoint.value < s.files.checkpoint.value
  }

  /** No step of any run lowers the stored index. */
  ghost predicate NeverFalls(maxParallel: nat) {
    forall s, step | Reachable(maxParallel, s) && Enabled(maxParallel, s, step) ::
      !Lowers(s, Apply(maxParallel, s, step))
  }

  /** The stored index is not above the count, and an index about to be stored is the count. */
  ghost predicate UpToDate(s: State) {
    && (s.files.checkpoint.Some? ==> s.files.checkpoint.value <= s.pool.processed)
    && (forall m | m in s.pool.workers && s.pool.workers[m].Saving? :: s.pool.workers[m].index == s.pool.processed)
  }

  lemma OneHolds(s: State, m: nat, k: nat)
    requires |Holding(s.pool)| <= 1 && m in Holding(s.pool) && k in Holding(s.pool)
    ensures m == k
  {
    if m != k {
      SubsetSize({m, k}, Holding(s.pool));
    }
  }

  lemma CountingAlone(s: State, m: nat)
    requires |Holding(s.pool)| <= 1 && UpToDate(s) && CanWork(s.pool, m, Add)
    ensures UpToDate(Apply(1, s, Work(m, Add)))
  {
    forall k | k in s.pool.workers && s.pool.workers[k].Saving?
      ensures k == m
    {
      OneHolds(s, k, m);
    }
  }

  lemma WorkStaysUpToDate(s: State, m: nat, action: Action)
    requires UpToDate(s) && CanWork(s.pool, m, action) && !action.Add?
    ensures UpToDate(Apply(1, s, Work(m, action))) && !Lowers(s, Apply(1, s, Work(m, action)))
  {
  }

  lemma UpToDateKept(s: State, step: Step)
    requires Inv(1, s) && UpToDate(s) && Enabled(1, s, step)
    ensures UpToDate(Apply(1, s, step)) && !Lowers(s, Apply(1, s, step))
  {
    if step.Work? {
      if step.action.Add? {
        CountingAlone(s, step.message);
      } else {
        WorkStaysUpToDate(s, step.message, step.action);
      }
    }
  }

  lemma SlotIsEnough(maxParallel: nat, s: State, step: Step)
    requires maxParallel <= 1 && Enabled(maxParallel, s, step)
    ensures Enabled(1, s, step) && Apply(1, s, step) == Apply(maxParallel, s, step)
  {
  }

  lemma {:induction false} OneSlotReaches(maxParallel: nat, steps: seq<Step>, s: State)
    requires maxParallel <= 1 && Reaches(maxParallel, steps, s)
    ensures Reaches(1, steps, s)
  {
    if steps != [] {
      var init, last := steps[..|steps| - 1], steps[|steps| - 1];
      var p :| Reaches(maxParallel, init, p) && Enabled(maxParallel, p, last) && s == Apply(maxParallel, p, last);
      OneSlotReaches(maxParallel, init, p);
      SlotIsEnough(maxParallel, p, last);
    }
  }

  lemma {:induction false} OneAtATime(steps: seq<Step>, s: State)
    requires Reaches(1, steps, s)
    ensures UpToDate(s)
  {
    if steps != [] {
      var init, last := steps[..|steps| - 1], steps[|steps| - 1];
      var p :| Reaches(1, init, p) && Enabled(1, p, last) && s == Apply(1, p, last);
      OneAtATime(init, p);
      ReachableInv(1, init, p);
      UpToDateKept(p, last);
    }
  }

  lemma TwoMessagesRun(n: nat) returns (s: State)
    requires n >= 2
    ensures Reachable(n, s) && s.files == Init().files
    ensures s.pool == Pool(map[0 := Running, 1 := Running], 2, 2, 0, {}, {})
  {
    s := Init();
    assert Reaches(n, [], s);
    s := Then(n, s, Send);
    s := Then(n, s, Send);
    s := Then(n, s, Receive);
    s := Then(n, s, Acquire);
    s := Then(n, s, Receive);
    s := Then(n, s, Acquire);
  }

  lemma TwoMessagesSucceed(n: nat) returns (s: State)
    requires n >= 2
    ensures Reachable(n, s) && s.files == Init().files
    ensures At(s.pool, 0, Adding) && At(s.pool, 1, Adding) && s.pool.processed == 0
  {
    s := TwoMessagesRun(n);
    s := Then(n, s, Work(0, Process(true)));
    s := Then(n, s, Work(1, Process(true)));
  }

  lemma BothAreCounted(n: nat) returns (s: State)
    requires n >= 2
    ensures Reachable(n, s) && At(s.pool, 0, Saving(1)) && At(s.pool, 1, Saving(2))
  {
    s := TwoMessagesSucceed(n);
    s := Then(n, s, Work(0, Add));
    s := Then(n, s, Work(0, Load));
    s := Then(n, s, Work(1, Add));
    s := Then(n, s, Work(1, Load));
  }

  /** With two messages in flight the later count can be written first: the next save lowers the stored index. */
  lemma CheckpointCanGoBack(n: nat) returns (s: State)
    requires n >= 2
    ensures Reachable(n, s) && Enabled(n, s, Work(0, Save(true)))
    ensures s.files.checkpoint == Some(2) && Apply(n, s, Work(0, Save(true))).files.checkpoint == Some(1)
  {
    s := BothAreCounted(n);
    s := Then(n, s, Work(1, Save(true)));
  }

  /** The stored index never goes back exactly if messages are processed one at a time. */
  lemma CheckpointNeverFallsIff(maxParallel: nat)
    ensures NeverFalls(maxParallel) <==> maxParallel <= 1
  {
    if maxParallel <= 1 {
      forall s, step | Reachable(maxParallel, s) && Enabled(maxParallel, s, step)
        ensures !Lowers(s, Apply(maxParallel, s, step))
      {
        var steps :| Reaches(maxParallel, steps, s);
        OneSlotReaches(maxParallel, steps, s);
        SlotIsEnough(maxParallel, s, step);
        OneAtATime(steps, s);
        ReachableInv(1, steps, s);
        UpToDateKept(s, step);
      }
    } else {
      var s := CheckpointCanGoBack(maxParallel);
      assert Lowers(s, Apply(maxParallel, s, Work(0, Save(true))));
    }
  }
}
