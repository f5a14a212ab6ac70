/**
 Atomic saves (src/internal/ingestion/checkpoint.go) as a step machine: any number of
 callers write a payload to a temporary file of their own and rename it over the one
 path they share.  The process may stop at any step and start again.
 */
module Checkpoint {
  import opened Common

  /** A checkpoint leaves a temporary file it could not write; a pending queue removes it. */
  datatype Kind = CheckpointSave | PendingSave

  datatype Pc =
    | Called                       // no name yet
    | Named(n: nat)                // owns number n, file not opened
    | Writing(n: nat, upTo: nat)   // a prefix of the payload is on disk
    | Written(n: nat)              // the whole payload is on disk
    | Failing(n: nat)              // about to clean up
    | Ended(ok: bool)

  datatype Saver = Saver(kind: Kind, payload: string, pc: Pc)

  datatype State = State(
    files: map<string, string>, counter: nat, savers: map<nat, Saver>,
    payloads: set<string>,         // everything a caller ever asked to save
    published: Option<string>,     // the content before the first save, or the last one renamed
    orphans: set<string>)          // temporary files given up by a failure or a restart

  datatype Step =
    | Call(id: nat, kind: Kind, payload: string)
    | TakeNumber(id: nat)
    | Open(id: nat, ok: bool)
    | Write(id: nat, upTo: nat)
    | WriteFails(id: nat)
    | Finish(id: nat)
    | Rename(id: nat, ok: bool)
    | Cleanup(id: nat, removed: bool)
    | OtherPathTakesNumber
    | Restart

  function TmpName(path: string, n: nat): string {
    path + ".tmp." + Decimal(n)
  }

  predicate At(s: State, id: nat, pc: Pc) {
    id in s.savers && s.savers[id].pc == pc
  }

  predicate Enabled(s: State, step: Step) {
    match step
    case Call(id, _, _) => id !in s.savers
    case TakeNumber(id) => At(s, id, Called)
    case Open(id, _) => id in s.savers && s.savers[id].pc.Named?
    case Write(id, upTo) =>
      id in s.savers && s.savers[id].pc.Writing? && s.savers[id].pc.upTo <= upTo <= |s.savers[id].payload|
    case WriteFails(id) => id in s.savers && s.savers[id].pc.Writing?
    case Finish(id) => id in s.savers && s.savers[id].pc.Writing? && s.savers[id].pc.upTo == |s.savers[id].payload|
    case Rename(id, _) => id in s.savers && s.savers[id].pc.Written?
    case Cleanup(id, _) => id in s.savers && s.savers[id].pc.Failing?
    case OtherPathTakesNumber => true
    case Restart => true
  }

  function Moved(s: State, id: nat, pc: Pc): map<nat, Saver>
    requires id in s.savers
  {
    s.savers[id := s.savers[id].(pc := pc)]
  }

  /** The temporary files in use. */
  function InUse(path: string, savers: map<nat, Saver>): set<string> {
    set id | id in savers && HasFile(savers[id].pc) :: TmpName(path, savers[id].pc.n)
  }

  predicate HasFile(pc: Pc) {
    pc.Writing? || pc.Written? || pc.Failing?
  }

  function Apply(path: string, s: State, step: Step): State
    requires Enabled(s, step)
  {
    match step
    case Call(id, kind, payload) =>
      s.(savers := s.savers[id := Saver(kind, payload, Called)], payloads := s.payloads + {payload})
    case TakeNumber(id) => s.(counter := s.counter + 1, savers := Moved(s, id, Named(s.counter + 1)))
    case Open(id, ok) =>
      var n := s.savers[id].pc.n;
      // A file left over under this name is truncated.
      if ok then s.(files := s.files[TmpName(path, n) := ""], savers := Moved(s, id, Writing(n, 0)))
      else s.(savers := Moved(s, id, Ended(false)))
    case Write(id, upTo) =>
      var n := s.savers[id].pc.n;
      s.(files := s.files[TmpName(path, n) := s.savers[id].payload[..upTo]], savers := Moved(s, id, Writing(n, upTo)))
    case WriteFails(id) =>
      var n := s.savers[id].pc.n;
      if s.savers[id].kind.PendingSave? then s.(savers := Moved(s, id, Failing(n)))
      else s.(savers := Moved(s, id, Ended(false)), orphans := s.orphans + {TmpName(path, n)})
    case Finish(id) => s.(savers := Moved(s, id, Written(s.savers[id].pc.n)))
    case Rename(id, ok) =>
      var n := s.savers[id].pc.n;
      var tmp := TmpName(path, n);
      if ok && tmp in s.files then
        s.(files := (s.files - {tmp})[path := s.files[tmp]], published := Some(s.files[tmp]),
           savers := Moved(s, id, Ended(true)))
      else s.(savers := Moved(s, id, Failing(n)))
    case Cleanup(id, removed) =>
      var tmp := TmpName(path, s.savers[id].pc.n);
      if removed then s.(files := s.files - {tmp}, savers := Moved(s, id, Ended(false)))
      else s.(savers := Moved(s, id, Ended(false)), orphans := s.orphans + {tmp})
    case OtherPathTakesNumber => s.(counter := s.counter + 1)
    case Restart => s.(savers := map[], counter := 0, orphans := s.orphans + InUse(path, s.savers))
  }

  // ---------------------------------------------------------------- names

  lemma TmpNamesDiffer(path: string, m: nat, n: nat)
    ensures TmpName(path, m) != path
    ensures TmpName(path, m) == TmpName(path, n) ==> m == n
  {
    assert |TmpName(path, m)| > |path|;
    ParseOfDecimal(m);
    ParseOfDecimal(n);
    var skip := |path| + |".tmp."|;
    assert TmpName(path, m)[skip..] == Decimal(m) && TmpName(path, n)[skip..] == Decimal(n);
  }

  // ---------------------------------------------------------------- safety

  /** What a saver's temporary file holds. */
  ghost predicate SaverOk(path: string, s: State, id: nat)
    requires id in s.savers
  {
    var v := s.savers[id];
    && v.payload in s.payloads
    && (!v.pc.Called? && !v.pc.Ended? ==> v.pc.n <= s.counter)
    && (v.pc.Writing? ==>
          v.pc.upTo <= |v.payload| && TmpName(path, v.pc.n) in s.files
          && s.files[TmpName(path, v.pc.n)] == v.payload[..v.pc.upTo])
    && (v.pc.Written? ==> TmpName(path, v.pc.n) in s.files && s.files[TmpName(path, v.pc.n)] == v.payload)
  }

  ghost predicate NumbersDiffer(s: State) {
    forall i, j | i in s.savers && j in s.savers && i != j
                  && !s.savers[i].pc.Called? && !s.savers[i].pc.Ended?
                  && !s.savers[j].pc.Called? && !s.savers[j].pc.Ended? ::
      s.savers[i].pc.n != s.savers[j].pc.n
  }

  /**
   The path is absent, or it holds the whole payload of one caller (or what it held at
   first); every other file is a temporary file in use or one given up.
   */
  ghost predicate Safe(path: string, initial: Option<string>, s: State) {
    && (if path in s.files then s.published == Some(s.files[path]) else s.published == None)
    && (s.published == initial || (s.published.Some? && s.published.value in s.payloads))
    && s.files.Keys <= {path} + InUse(path, s.savers) + s.orphans
  }

  ghost predicate Inv(path: string, initial: Option<string>, s: State) {
    && (forall id | id in s.savers :: SaverOk(path, s, id))
    && NumbersDiffer(s)
    && Safe(path, initial, s)
  }

  function Init(path: string, initial: Option<string>): State {
    State(if initial.Some? then map[path := initial.value] else map[], 0, map[], {}, initial, {})
  }

  ghost predicate Reaches(path: string, initial: Option<string>, steps: seq<Step>, s: State) {
    if steps == [] then s == Init(path, initial)
    else
      var last := steps[|steps| - 1];
      exists p :: Reaches(path, initial, steps[..|steps| - 1], p) && Enabled(p, last) && s == Apply(path, p, last)
  }

  predicate IsOwn(step: Step) {
    !step.OtherPathTakesNumber? && !step.Restart?
  }

  lemma OwnStepKeepsSaver(path: string, s: State, step: Step)
    requires Enabled(s, step) && IsOwn(step) && (step.id in s.savers ==> SaverOk(path, s, step.id))
    ensures step.id in Apply(path, s, step).savers && SaverOk(path, Apply(path, s, step), step.id)
  {
  }

  /** The file of a saver is touched by no other saver. */
  lemma OtherStepKeepsFile(path: string, s: State, step: Step, id: nat)
    requires Enabled(s, step) && IsOwn(step) && step.id != id && NumbersDiffer(s)
    requires id in s.savers && HasFile(s.savers[id].pc)
    ensures var t, tmp := Apply(path, s, step), TmpName(path, s.savers[id].pc.n);
            (tmp in t.files <==> tmp in s.files) && (tmp in s.files ==> t.files[tmp] == s.files[tmp])
  {
    if step.id in s.savers {
      var u := s.savers[step.id].pc;
      if HasFile(u) || u.Named? {
        TmpNamesDiffer(path, s.savers[id].pc.n, u.n);
      }
    }
  }

  lemma OtherStepKeepsSaver(path: string, s: State, step: Step, id: nat)
    requires Enabled(s, step) && IsOwn(step) && step.id != id && NumbersDiffer(s)
    requires id in s.savers && SaverOk(path, s, id)
    ensures id in Apply(path, s, step).savers && SaverOk(path, Apply(path, s, step), id)
  {
    if HasFile(s.savers[id].pc) {
      OtherStepKeepsFile(path, s, step, id);
    }
  }

  lemma SaversKept(path: string, initial: Option<string>, s: State, step: Step, id: nat)
    requires Inv(path, initial, s) && Enabled(s, step) && id in Apply(path, s, step).savers
    ensures SaverOk(path, Apply(path, s, step), id)
  {
    assert id in s.savers ==> SaverOk(path, s, id);
    if IsOwn(step) {
      if id == step.id {
        OwnStepKeepsSaver(path, s, step);
      } else {
        OtherStepKeepsSaver(path, s, step, id);
      }
    }
  }

  lemma NumbersKept(path: string, initial: Option<string>, s: State, step: Step)
    requires Inv(path, initial, s) && Enabled(s, step)
    ensures NumbersDiffer(Apply(path, s, step))
  {
    if step.TakeNumber? {
      assert forall i | i in s.savers :: SaverOk(path, s, i);
    }
  }

  lemma SafeKept(path: string, initial: Option<string>, s: State, step: Step)
    requires Inv(path, initial, s) && Enabled(s, step)
    ensures Safe(path, initial, Apply(path, s, step))
  {
    var t := Apply(path, s, step);
    if !step.Call? && !step.OtherPathTakesNumber? && !step.Restart? {
      var v := s.savers[step.id];
      assert SaverOk(path, s, step.id);
      if !v.pc.Called? && !v.pc.Ended? {
        TmpNamesDiffer(path, v.pc.n, v.pc.n);
      }
      FilesAccountedFor(path, s, step);
    } else if step.Call? {
      assert forall id | id in s.savers :: t.savers[id] == s.savers[id];
      assert InUse(path, s.savers) <= InUse(path, t.savers);
    }
  }

  /** A step of one saver gives up or takes over no file but its own. */
  lemma FilesAccountedFor(path: string, s: State, step: Step)
    requires Enabled(s, step) && !step.Call? && !step.OtherPathTakesNumber? && !step.Restart?
    requires s.files.Keys <= {path} + InUse(path, s.savers) + s.orphans
    ensures var t := Apply(path, s, step); t.files.Keys <= {path} + InUse(path, t.savers) + t.orphans
  {
    var t := Apply(path, s, step);
    forall name | name in t.files && name != path && name !in t.orphans
      ensures name in InUse(path, t.savers)
    {
      if name in s.files {
        var id :| id in s.savers && HasFile(s.savers[id].pc) && name == TmpName(path, s.savers[id].pc.n);
        if id != step.id {
          assert t.savers[id] == s.savers[id];
        }
        assert HasFile(t.savers[id].pc) && name == TmpName(path, t.savers[id].pc.n);
      } else {
        assert HasFile(t.savers[step.id].pc) && name == TmpName(path, t.savers[step.id].pc.n);
      }
    }
  }

  lemma {:induction false} ReachableInv(path: string, initial: Option<string>, steps: seq<Step>, s: State)
    requires Reaches(path, initial, steps, s)
    ensures Inv(path, initial, s)
  {
    if steps != [] {
      var init, last := steps[..|steps| - 1], steps[|steps| - 1];
      var p :| Reaches(path, initial, init, p) && Enabled(p, last) && s == Apply(path, p, last);
      ReachableInv(path, initial, init, p);
      forall id | id in s.savers
        ensures SaverOk(path, s, id)
      {
        SaversKept(path, initial, p, last, id);
      }
      NumbersKept(path, initial, p, last);
      SafeKept(path, initial, p, last);
    }
  }

  /**
   Whatever the interleaving and wherever the process stops, the path is absent or holds
   one complete payload: a caller's, or the one it held at first.
   */
  lemma PathHoldsCompletePayload(path: string, initial: Option<string>, steps: seq<Step>, s: State)
    requires Reaches(path, initial, steps, s)
    ensures path in s.files ==> initial == Some(s.files[path]) || s.files[path] in s.payloads
    ensures path !in s.files ==> initial == None
  {
    ReachableInv(path, initial, steps, s);
  }

  /** A save that reports success has just put its own payload there. */
  lemma SuccessPublishesPayload(path: string, initial: Option<string>, steps: seq<Step>, s: State, id: nat)
    requires Reaches(path, initial, steps, s) && Enabled(s, Rename(id, true))
    ensures var t := Apply(path, s, Rename(id, true));
            t.savers[id].pc == Ended(true) && path in t.files && t.files[path] == s.savers[id].payload
  {
    ReachableInv(path, initial, steps, s);
    assert SaverOk(path, s, id);
    TmpNamesDiffer(path, s.savers[id].pc.n, 0);
  }

  /** Without failed writes, failed clean-ups and restarts, finished saves leave nothing but the path. */
  lemma FinishedSavesLeaveNoFiles(path: string, initial: Option<string>, steps: seq<Step>, s: State)
    requires Reaches(path, initial, steps, s) && s.orphans == {}
    requires forall id | id in s.savers :: s.savers[id].pc.Ended?
    ensures s.files.Keys <= {path}
  {
    ReachableInv(path, initial, steps, s);
    assert InUse(path, s.savers) == {};
  }

  /** No other step makes a save succeed: a saver that reports success has its payload on the path at that moment. */
  lemma OnlyRenamesSucceed(path: string, initial: Option<string>, steps: seq<Step>, s: State, step: Step, id: nat)
    requires Reaches(path, initial, steps, s) && Enabled(s, step) && id in Apply(path, s, step).savers
    requires Apply(path, s, step).savers[id].pc == Ended(true) && !(id in s.savers && s.savers[id].pc == Ended(true))
    ensures var t := Apply(path, s, step);
            step == Rename(id, true) && path in t.files && t.files[path] == s.savers[id].payload
  {
    assert step == Rename(id, true);
    SuccessPublishesPayload(path, initial, steps, s, id);
  }

  /** After a failed write a pending queue goes on to remove its file; a checkpoint leaves it and reports failure. */
  lemma FailedWriteLeaves(path: string, s: State, id: nat)
    requires Enabled(s, WriteFails(id))
    ensures var t := Apply(path, s, WriteFails(id));
            && t.files == s.files && t.published == s.published
            && t.savers[id].pc == if s.savers[id].kind == PendingSave then Failing(s.savers[id].pc.n) else Ended(false)
  {
  }

  /** A clean-up that works removes the saver's own file and no other; one that fails removes nothing. */
  lemma CleanupRemoves(path: string, s: State, id: nat, removed: bool)
    requires Enabled(s, Cleanup(id, removed))
    ensures var t := Apply(path, s, Cleanup(id, removed));
            && t.savers[id].pc == Ended(false) && t.published == s.published
            && t.files.Keys == s.files.Keys - (if removed then {TmpName(path, s.savers[id].pc.n)} else {})
            && (forall f | f in t.files :: t.files[f] == s.files[f])
            && (removed ==> t.orphans == s.orphans)
  {
  }

  /** The process can stop at any moment: the files stay as they are, and numbers are given out from the start again. */
  lemma RestartKeepsFiles(path: string, s: State)
    ensures Enabled(s, Restart) && Enabled(s, OtherPathTakesNumber)
    ensures var t := Apply(path, s, Restart);
            t.files == s.files && t.published == s.published && t.savers == map[] && t.counter == 0
    ensures var t := Apply(path, s, OtherPathTakesNumber);
            t.files == s.files && t.published == s.published && t.savers == s.savers && t.counter == s.counter + 1
  {
  }

  // ---------------------------------------------------------------- every save can end

  ghost predicate Reachable(path: string, initial: Option<string>, s: State) {
    exists steps :: Reaches(path, initial, steps, s)
  }

  lemma Then(path: string, initial: Option<string>, s: State, step: Step) returns (t: State)
    requires Reachable(path, initial, s) && Enabled(s, step)
    ensures t == Apply(path, s, step) && Reachable(path, initial, t)
  {
    var steps :| Reaches(path, initial, steps, s);
    var longer := steps + [step];
    t := Apply(path, s, step);
    assert longer[..|longer| - 1] == steps && longer[|longer| - 1] == step;
    assert Reaches(path, initial, longer, t);
  }

  /** The step of a saver that has not ended, if its calls work. */
  function NextStep(s: State, id: nat): Step
    requires id in s.savers && !s.savers[id].pc.Ended?
  {
    match s.savers[id].pc
    case Called => TakeNumber(id)
    case Named(_) => Open(id, true)
    case Writing(_, upTo) => if upTo == |s.savers[id].payload| then Finish(id) else Write(id, |s.savers[id].payload|)
    case Written(_) => Rename(id, true)
    case Failing(_) => Cleanup(id, true)
  }

  function StepsLeft(v: Saver): nat {
    match v.pc
    case Called => 6
    case Named(_) => 5
    case Writing(_, upTo) => if upTo == |v.payload| then 3 else 4
    case Written(_) => 2
    case Failing(_) => 1
    case Ended(_) => 0
  }

  /** No saver waits for another: whatever it is about to do, it can, and it comes nearer to its end. */
  lemma SaverMoves(path: string, initial: Option<string>, s: State, id: nat) returns (t: State)
    requires Reachable(path, initial, s) && id in s.savers && !s.savers[id].pc.Ended?
    ensures Enabled(s, NextStep(s, id)) && t == Apply(path, s, NextStep(s, id)) && Reachable(path, initial, t)
    ensures id in t.savers && t.savers[id].payload == s.savers[id].payload
    ensures StepsLeft(t.savers[id]) < StepsLeft(s.savers[id])
    ensures t.savers[id].pc.Failing? ==> s.savers[id].pc.Failing? || s.savers[id].pc.Written?
  {
    var steps :| Reaches(path, initial, steps, s);
    ReachableInv(path, initial, steps, s);
    assert SaverOk(path, s, id);
    t := Then(path, initial, s, NextStep(s, id));
  }

  lemma WrittenIsPublished(path: string, initial: Option<string>, s: State, id: nat) returns (t: State)
    requires Reachable(path, initial, s) && id in s.savers && s.savers[id].pc.Written?
    ensures Reachable(path, initial, t) && id in t.savers && t.savers[id].pc == Ended(true)
    ensures path in t.files && t.files[path] == s.savers[id].payload
  {
    t := SaverMoves(path, initial, s, id);
    var steps :| Reaches(path, initial, steps, s);
    SuccessPublishesPayload(path, initial, steps, s, id);
  }

  /**
   From every reachable state, whatever other savers are doing, a saver that has not failed can
   put its payload on the path and succeed, and one that has failed can end.
   */
  lemma {:induction false} SaveCanEnd(path: string, initial: Option<string>, s: State, id: nat) returns (t: State)
    requires Reachable(path, initial, s) && id in s.savers && !s.savers[id].pc.Ended?
    ensures Reachable(path, initial, t) && id in t.savers && t.savers[id].pc == Ended(!s.savers[id].pc.Failing?)
    ensures !s.savers[id].pc.Failing? ==> path in t.files && t.files[path] == s.savers[id].payload
    decreases StepsLeft(s.savers[id])
  {
    if s.savers[id].pc.Written? {
      t := WrittenIsPublished(path, initial, s, id);
    } else {
      t := SaverMoves(path, initial, s, id);
      if !t.savers[id].pc.Ended? {
        t := SaveCanEnd(path, initial, t, id);
      }
    }
  }
}
