/**
 The hot-swappable configuration (src/internal/serverstate/serverstate.go): a pointer to
 the current State and a counter that stamps every State before it is published.
 */
module ServerState {
  import opened Common

  /** One more than the largest uint64. */
  const TWO_TO_THE_64: nat := 0x1_0000_0000_0000_0000

  // ---------------------------------------------------------------- what is shared

  /** The Generation fields of the State objects, by number, and the two atomics of the Ref. */
  datatype Shared = Shared(generation: map<nat, nat>, gen: nat, ptr: nat)

  /** `gen.Add(1)` */
  function Bumped(s: Shared): Shared {
    s.(gen := (s.gen + 1) % TWO_TO_THE_64)
  }

  /** The stamp is written into the State object. */
  function Marked(s: Shared, obj: nat, stamp: nat): Shared {
    s.(generation := s.generation[obj := stamp])
  }

  /** `ptr.Store(s)` */
  function Published(s: Shared, obj: nat): Shared {
    s.(ptr := obj)
  }

  /** A whole Store that nothing interrupts. */
  function Stored(s: Shared, obj: nat): Shared {
    Published(Marked(Bumped(s), obj, Bumped(s).gen), obj)
  }

  predicate Stale(s: Shared, g: nat) {
    s.ptr in s.generation && s.generation[s.ptr] != g
  }

  class Config {
    var generation: nat

    constructor ()
      ensures generation == 0
    {
      generation := 0;
    }
  }

  /** The number of a State object in a list of all of them. */
  ghost function NumberOf(states: seq<Config>, s: Config): (i: nat)
    requires s in states
    ensures i < |states| && states[i] == s
  {
    var i :| 0 <= i < |states| && states[i] == s;
    i
  }

  class Ref {
    var ptr: Config
    var gen: nat

    constructor (s: Config)
      modifies s
      ensures ptr == s && gen == 1 && s.generation == 1
    {
      ptr := s;
      gen := 1;
      new;
      s.generation := gen;
    }

    /** The Ref and the State objects as the step machine below sees them. */
    ghost function Value(states: seq<Config>): Shared
      requires ptr in states
      reads this, states
    {
      Shared(map i: nat | i < |states| :: states[i].generation, gen, NumberOf(states, ptr))
    }

    method Load() returns (s: Config)
      ensures s == ptr
    {
      s := ptr;
    }

    method Store(s: Config, ghost states: seq<Config>)
      requires NoDup(states) && s in states && ptr in states
      modifies this, s
      ensures ptr == s && Value(states) == Stored(old(Value(states)), NumberOf(states, s))
    {
      gen := (gen + 1) % TWO_TO_THE_64;
      s.generation := gen;
      ptr := s;
    }

    method IsStale(g: nat, ghost states: seq<Config>) returns (stale: bool)
      requires ptr in states
      ensures stale <==> Stale(Value(states), g)
    {
      var s := Load();
      stale := s.generation != g;
    }
  }

  // ---------------------------------------------------------------- interleavings

  /** Where a call of Store stands. */
  datatype Pc =
    | Entered(obj: nat)
    | Numbered(obj: nat, stamp: nat)   // the counter has been bumped
    | Stamped(obj: nat, stamp: nat)    // the field has been written

  datatype State = State(
    shared: Shared,
    counter: nat,                       // how often the counter was bumped
    stores: map<nat, Pc>,
    published: set<nat>,
    captured: set<(nat, nat)>,          // (object, generation) pairs readers have seen
    restored: bool,                     // some object was passed to the Ref twice
    overlapped: bool)                   // two Stores were under way at once

  datatype Step =
    | Begin(t: nat, obj: nat) | Bump(t: nat) | Mark(t: nat) | Publish(t: nat)
    | Capture

  predicate Enabled(s: State, step: Step) {
    match step
    case Begin(t, _) => t !in s.stores
    case Bump(t) => t in s.stores && s.stores[t].Entered?
    case Mark(t) => t in s.stores && s.stores[t].Numbered?
    case Publish(t) => t in s.stores && s.stores[t].Stamped?
    case Capture => s.shared.ptr in s.shared.generation
  }

  function Apply(s: State, step: Step): State
    requires Enabled(s, step)
  {
    match step
    case Begin(t, obj) =>
      s.(stores := s.stores[t := Entered(obj)], restored := s.restored || obj in s.shared.generation,
         overlapped := s.overlapped || s.stores != map[],
         shared := if obj in s.shared.generation then s.shared else Marked(s.shared, obj, 0))
    case Bump(t) =>
      s.(shared := Bumped(s.shared), counter := s.counter + 1,
         stores := s.stores[t := Numbered(s.stores[t].obj, Bumped(s.shared).gen)])
    case Mark(t) =>
      var obj, stamp := s.stores[t].obj, s.stores[t].stamp;
      s.(shared := Marked(s.shared, obj, stamp), stores := s.stores[t := Stamped(obj, stamp)])
    case Publish(t) =>
      s.(shared := Published(s.shared, s.stores[t].obj), published := s.published + {s.stores[t].obj},
         stores := s.stores - {t})
    case Capture => s.(captured := s.captured + {(s.shared.ptr, s.shared.generation[s.shared.ptr])})
  }

  /** After NewRef of object 0. */
  function Init(): State {
    State(Shared(map[0 := 1], 1, 0), 1, map[], {0}, {}, false, false)
  }

  ghost predicate Reaches(steps: seq<Step>, s: State) {
    if steps == [] then s == Init()
    else
      var last := steps[|steps| - 1];
      exists p :: Reaches(steps[..|steps| - 1], p) && Enabled(p, last) && s == Apply(p, last)
  }

  /** The machine's three steps, taken without interruption, are the method of the class. */
  lemma StoreIsBumpMarkPublish(s: State, t: nat)
    requires Enabled(s, Bump(t))
    ensures var bumped := Apply(s, Bump(t));
            && Enabled(bumped, Mark(t))
            && var marked := Apply(bumped, Mark(t));
              && Enabled(marked, Publish(t))
              && Apply(marked, Publish(t)).shared == Stored(s.shared, s.stores[t].obj)
  {
    var marked := Apply(Apply(s, Bump(t)), Mark(t));
    assert marked.stores[t] == Stamped(s.stores[t].obj, Bumped(s.shared).gen);
  }

  // ---------------------------------------------------------------- generations name snapshots

  predicate HasStamp(pc: Pc) {
    pc.Numbered? || pc.Stamped?
  }

  /** A store under way works on an unpublished object, with a stamp no published one has. */
  ghost predicate StoreOk(s: State, t: nat)
    requires t in s.stores
  {
    var pc := s.stores[t];
    && pc.obj in s.shared.generation && pc.obj !in s.published
    && (pc.Stamped? ==> s.shared.generation[pc.obj] == pc.stamp)
    && (HasStamp(pc) ==> pc.stamp <= s.counter)
    && (HasStamp(pc) ==> forall o | o in s.published && o in s.shared.generation :: s.shared.generation[o] != pc.stamp)
  }

  /** Two stores under way have different objects and different stamps. */
  predicate Apart(p: Pc, q: Pc) {
    p.obj != q.obj && (HasStamp(p) && HasStamp(q) ==> p.stamp != q.stamp)
  }

  ghost predicate StoresApart(s: State) {
    forall t, u | t in s.stores && u in s.stores && t != u :: Apart(s.stores[t], s.stores[u])
  }

  ghost predicate PublishedOk(s: State) {
    && s.shared.gen == s.counter % TWO_TO_THE_64
    && s.shared.ptr in s.published && s.published <= s.shared.generation.Keys
    && (forall o | o in s.published :: s.shared.generation[o] <= s.counter)
    && (forall o, o' | o in s.published && o' in s.published && o != o' ::
          s.shared.generation[o] != s.shared.generation[o'])
    && (forall c | c in s.captured :: c.0 in s.published && s.shared.generation[c.0] == c.1)
  }

  ghost predicate Inv(s: State) {
    PublishedOk(s) && StoresApart(s) && forall t | t in s.stores :: StoreOk(s, t)
  }

  lemma OwnStepKeepsStore(s: State, step: Step)
    requires PublishedOk(s) && Enabled(s, step) && !Apply(s, step).restored && Apply(s, step).counter < TWO_TO_THE_64
    requires !step.Capture? && (step.t in s.stores ==> StoreOk(s, step.t)) && step.t in Apply(s, step).stores
    ensures StoreOk(Apply(s, step), step.t)
  {
  }

  lemma OtherStepKeepsStore(s: State, step: Step, t: nat)
    requires PublishedOk(s) && Enabled(s, step) && !Apply(s, step).restored && Apply(s, step).counter < TWO_TO_THE_64
    requires t in s.stores && StoreOk(s, t) && (!step.Capture? ==> step.t != t)
    requires !step.Capture? && step.t in s.stores ==> StoreOk(s, step.t) && Apart(s.stores[t], s.stores[step.t])
    ensures t in Apply(s, step).stores && StoreOk(Apply(s, step), t)
  {
  }

  lemma StoresKept(s: State, step: Step, t: nat)
    requires Inv(s) && Enabled(s, step) && !Apply(s, step).restored && Apply(s, step).counter < TWO_TO_THE_64
    requires t in Apply(s, step).stores
    ensures StoreOk(Apply(s, step), t)
  {
    if !step.Capture? && step.t == t {
      assert t in s.stores ==> StoreOk(s, t);
      OwnStepKeepsStore(s, step);
    } else {
      assert StoreOk(s, t);
      if !step.Capture? && step.t in s.stores {
        assert StoreOk(s, step.t) && Apart(s.stores[t], s.stores[step.t]);
      }
      OtherStepKeepsStore(s, step, t);
    }
  }

  lemma OwnStepStaysApart(s: State, step: Step, u: nat)
    requires PublishedOk(s) && Enabled(s, step) && !Apply(s, step).restored && Apply(s, step).counter < TWO_TO_THE_64
    requires !step.Capture? && step.t in Apply(s, step).stores && u in s.stores && u != step.t && StoreOk(s, u)
    requires step.t in s.stores ==> Apart(s.stores[step.t], s.stores[u])
    ensures u in Apply(s, step).stores && Apart(Apply(s, step).stores[step.t], Apply(s, step).stores[u])
  {
  }

  lemma ApartKept(s: State, step: Step, t: nat, u: nat)
    requires Inv(s) && Enabled(s, step) && !Apply(s, step).restored && Apply(s, step).counter < TWO_TO_THE_64
    requires t in Apply(s, step).stores && u in Apply(s, step).stores && t != u
    ensures Apart(Apply(s, step).stores[t], Apply(s, step).stores[u])
  {
    assert t in s.stores && u in s.stores ==> Apart(s.stores[t], s.stores[u]);
    if !step.Capture? && step.t == t {
      assert StoreOk(s, u);
      OwnStepStaysApart(s, step, u);
    } else if !step.Capture? && step.t == u {
      assert StoreOk(s, t) && (u in s.stores ==> Apart(s.stores[u], s.stores[t]));
      OwnStepStaysApart(s, step, t);
    }
  }

  lemma PublishKeepsPublished(s: State, t: nat)
    requires PublishedOk(s) && Enabled(s, Publish(t)) && StoreOk(s, t)
    ensures PublishedOk(Apply(s, Publish(t)))
  {
  }

  lemma MarkKeepsPublished(s: State, t: nat)
    requires PublishedOk(s) && Enabled(s, Mark(t)) && StoreOk(s, t)
    ensures PublishedOk(Apply(s, Mark(t)))
  {
  }

  lemma PublishedKept(s: State, step: Step)
    requires Inv(s) && Enabled(s, step) && !Apply(s, step).restored && Apply(s, step).counter < TWO_TO_THE_64
    ensures PublishedOk(Apply(s, step))
  {
    match step
    case Mark(t) => MarkKeepsPublished(s, t);
    case Publish(t) => PublishKeepsPublished(s, t);
    case _ =>
  }

  lemma {:induction false} ReachableInv(steps: seq<Step>, s: State)
    requires Reaches(steps, s) && !s.restored && s.counter < TWO_TO_THE_64
    ensures Inv(s)
  {
    if steps != [] {
      var init, last := steps[..|steps| - 1], steps[|steps| - 1];
      var p :| Reaches(init, p) && Enabled(p, last) && s == Apply(p, last);
      ReachableInv(init, p);
      PublishedKept(p, last);
      forall t | t in s.stores
        ensures StoreOk(s, t)
      {
        StoresKept(p, last, t);
      }
      forall t, u | t in s.stores && u in s.stores && t != u
        ensures Apart(s.stores[t], s.stores[u])
      {
        ApartKept(p, last, t, u);
      }
    }
  }

  /**
   If no State object is stored twice, then in every interleaving of fewer than 2^64
   stores a generation names one snapshot for good: a reader that saw generation `c.1` on
   object `c.0` finds it again exactly on that object, so IsStale has no ABA problem.
   */
  lemma GenerationNamesSnapshot(steps: seq<Step>, s: State)
    requires Reaches(steps, s) && !s.restored && s.counter < TWO_TO_THE_64
    ensures s.shared.ptr in s.published && s.published <= s.shared.generation.Keys
    ensures forall o, o' | o in s.published && o' in s.published && o != o' ::
              s.shared.generation[o] != s.shared.generation[o']
    ensures forall c, o | c in s.captured && o in s.published :: s.shared.generation[o] != c.1 <==> o != c.0
  {
    ReachableInv(steps, s);
  }

  /** A published generation never changes. */
  lemma GenerationIsFinal(steps: seq<Step>, s: State, step: Step, o: nat)
    requires Reaches(steps, s) && Enabled(s, step) && !Apply(s, step).restored && s.counter < TWO_TO_THE_64
    requires o in s.published
    ensures o in Apply(s, step).published && o in s.shared.generation
    ensures Apply(s, step).shared.generation[o] == s.shared.generation[o]
  {
    ReachableInv(steps, s);
    if step.Mark? {
      assert StoreOk(s, step.t);
    }
  }

  // ---------------------------------------------------------------- one writer

  /** With one writer, the stamp under way is the counter, above the visible generation. */
  ghost predicate WriterOk(s: State) {
    && (forall t, u | t in s.stores && u in s.stores :: t == u)
    && s.shared.ptr in s.shared.generation && s.shared.generation[s.shared.ptr] <= s.counter
    && (forall t | t in s.stores && HasStamp(s.stores[t]) ::
          s.shared.generation[s.shared.ptr] < s.stores[t].stamp <= s.counter)
  }

  lemma WriterKept(s: State, step: Step)
    requires WriterOk(s) && Enabled(s, step) && !Apply(s, step).overlapped && Apply(s, step).counter < TWO_TO_THE_64
    requires s.shared.ptr in s.published && s.shared.gen == s.counter % TWO_TO_THE_64
    requires !step.Capture? && step.t in s.stores ==> StoreOk(s, step.t)
    ensures WriterOk(Apply(s, step))
  {
  }

  lemma {:induction false} ReachableWriter(steps: seq<Step>, s: State)
    requires Reaches(steps, s) && !s.restored && !s.overlapped && s.counter < TWO_TO_THE_64
    ensures WriterOk(s)
  {
    if steps != [] {
      var init, last := steps[..|steps| - 1], steps[|steps| - 1];
      var p :| Reaches(init, p) && Enabled(p, last) && s == Apply(p, last);
      ReachableWriter(init, p);
      ReachableInv(init, p);
      WriterKept(p, last);
    }
  }

  /** While stores do not overlap, the visible generation strictly increases. */
  lemma SingleWriterIncreases(steps: seq<Step>, s: State, t: nat)
    requires Reaches(steps, s) && !s.restored && !s.overlapped && s.counter < TWO_TO_THE_64
    requires Enabled(s, Publish(t))
    ensures var after := Apply(s, Publish(t));
            s.shared.ptr in s.shared.generation && after.shared.ptr in after.shared.generation
            && s.shared.generation[s.shared.ptr] < after.shared.generation[after.shared.ptr]
  {
    ReachableWriter(steps, s);
    ReachableInv(steps, s);
    assert StoreOk(s, t);
  }

  /** A reader that captured generation `c.1` on object `c.0` is told it is stale exactly if that was replaced. */
  lemma StaleMeansReplaced(steps: seq<Step>, s: State, c: (nat, nat))
    requires Reaches(steps, s) && !s.restored && s.counter < TWO_TO_THE_64 && c in s.captured
    ensures Stale(s.shared, c.1) <==> s.shared.ptr != c.0
  {
    ReachableInv(steps, s);
  }

  // ---------------------------------------------------------------- where the promise ends

  ghost predicate Reachable(s: State) {
    exists steps :: Reaches(steps, s)
  }

  lemma Then(s: State, step: Step) returns (t: State)
    requires Reachable(s) && Enabled(s, step)
    ensures t == Apply(s, step) && Reachable(t)
  {
    var steps :| Reaches(steps, s);
    var longer := steps + [step];
    t := Apply(s, step);
    assert longer[..|longer| - 1] == steps && longer[|longer| - 1] == step;
    assert Reaches(longer, t);
  }

  /** What is left alone while a Store under way gets its stamp into its State. */
  ghost predicate Stamping(s: State, next: State, t: nat)
    requires t in s.stores
  {
    && next.stores.Keys == s.stores.Keys && next.stores[t].Stamped? && next.stores[t].obj == s.stores[t].obj
    && (forall u | u in s.stores && u != t :: next.stores[u] == s.stores[u])
    && next.restored == s.restored && next.counter <= s.counter + 1
  }

  lemma StampIsWritten(s: State, t: nat) returns (next: State)
    requires Reachable(s) && t in s.stores
    ensures Reachable(next) && Stamping(s, next, t)
  {
    next := s;
    if next.stores[t].Entered? {
      next := Then(next, Bump(t));
    }
    if next.stores[t].Numbered? {
      next := Then(next, Mark(t));
    }
  }

  /** Publishing `t` now would show a lower generation than readers see. */
  ghost predicate GoesBack(s: State, t: nat) {
    && Enabled(s, Publish(t)) && s.shared.ptr in s.shared.generation
    && var after := Apply(s, Publish(t)).shared;
      after.ptr in after.generation && after.generation[after.ptr] < s.shared.generation[s.shared.ptr]
  }

  /** With two stamps written, publishing the higher one first makes the lower one go back. */
  lemma HigherFirstGoesBack(s: State, low: nat, high: nat) returns (next: State)
    requires Reachable(s) && !s.restored && s.counter < TWO_TO_THE_64
    requires low in s.stores && high in s.stores && s.stores[low].Stamped? && s.stores[high].Stamped?
    requires s.stores[low].stamp < s.stores[high].stamp
    ensures Reachable(next) && !next.restored && GoesBack(next, low)
  {
    var steps :| Reaches(steps, s);
    ReachableInv(steps, s);
    assert StoreOk(s, low) && StoreOk(s, high);
    next := Then(s, Publish(high));
  }

  /**
   From every state in which two Stores are under way, whatever they have done so far, the
   run can go on so that the visible generation goes back.
   */
  lemma OverlapCanGoBack(s: State, t: nat, u: nat) returns (next: State, last: nat)
    requires Reachable(s) && !s.restored && s.counter + 2 < TWO_TO_THE_64
    requires t in s.stores && u in s.stores && t != u
    ensures Reachable(next) && !next.restored && GoesBack(next, last)
  {
    var one := StampIsWritten(s, t);
    var both := StampIsWritten(one, u);
    var steps :| Reaches(steps, both);
    ReachableInv(steps, both);
    assert Apart(both.stores[t], both.stores[u]);
    if both.stores[t].stamp < both.stores[u].stamp {
      last := t;
      next := HigherFirstGoesBack(both, t, u);
    } else {
      last := u;
      next := HigherFirstGoesBack(both, u, t);
    }
  }

  /** It happens: two Stores of new States from the start. */
  lemma TwoWritersCanGoBack() returns (s: State, last: nat)
    ensures Reachable(s) && !s.restored && GoesBack(s, last)
  {
    s := Init();
    assert Reaches([], s);
    s := Then(s, Begin(1, 11));
    s := Then(s, Begin(2, 12));
    s, last := OverlapCanGoBack(s, 1, 2);
  }

  /** What a reader captures is the published object with its generation, and is kept. */
  lemma CaptureKeepsPair(s: State)
    requires Enabled(s, Capture)
    ensures var t := Apply(s, Capture);
            && (s.shared.ptr, s.shared.generation[s.shared.ptr]) in t.captured && s.captured <= t.captured
            && t.shared == s.shared && t.stores == s.stores && t.published == s.published
  {
  }

  /** The States below `n` have been published, and no others exist. */
  ghost predicate HasPublished(s: State, n: nat) {
    forall o: nat :: (o in s.shared.generation <==> o < n) && (o in s.published <==> o < n)
  }

  /** A quiet moment of a run without overlaps in which `n` States have been stored, each once. */
  ghost predicate IsQuiet(s: State, n: nat) {
    !s.restored && !s.overlapped && s.stores == map[] && s.counter == n && HasPublished(s, n)
  }

  lemma VisibleIsCounter(s: State)
    requires Reachable(s) && !s.restored && s.counter < TWO_TO_THE_64
    ensures s.shared.gen == s.counter
  {
    var steps :| Reaches(steps, s);
    ReachableInv(steps, s);
  }

  lemma StoreBegins(s: State, n: nat) returns (t: State)
    requires Reachable(s) && IsQuiet(s, n)
    ensures Reachable(t) && t == Apply(s, Begin(0, n)) && t.stores == map[0 := Entered(n)] && n in t.shared.generation
    ensures !t.restored && !t.overlapped
  {
    t := Then(s, Begin(0, n));
  }

  lemma StoreEnds(s: State, n: nat) returns (t: State)
    requires Reachable(s) && s.stores == map[0 := Entered(n)] && s.shared.gen == n && n + 1 < TWO_TO_THE_64
    requires n in s.shared.generation
    ensures Reachable(t) && t.restored == s.restored && t.overlapped == s.overlapped && t.stores == map[]
    ensures t.counter == s.counter + 1 && t.published == s.published + {n}
    ensures t.shared.ptr == n && t.shared.generation == s.shared.generation[n := n + 1]
  {
    t := Then(s, Bump(0));
    t := Then(t, Mark(0));
    t := Then(t, Publish(0));
  }

  lemma StoreInTurn(s: State, n: nat) returns (t: State)
    requires Reachable(s) && IsQuiet(s, n) && n + 1 < TWO_TO_THE_64
    ensures Reachable(t) && IsQuiet(t, n + 1) && t.shared.ptr == n && t.shared.generation[n] == n + 1
  {
    VisibleIsCounter(s);
    var begun := StoreBegins(s, n);
    t := StoreEnds(begun, n);
    assert forall o: nat :: o in begun.shared.generation <==> o < n + 1;
  }

  /** One Store after another, each of a new State and seen by a reader; nothing is stored twice or overlaps. */
  lemma {:induction false} StoresInTurn(n: nat) returns (s: State)
    requires 0 < n < TWO_TO_THE_64
    ensures Reachable(s) && IsQuiet(s, n) && s.shared.ptr == n - 1 && (n - 1, n) in s.captured
  {
    if n == 1 {
      s := Init();
      assert Reaches([], s);
    } else {
      s := StoresInTurn(n - 1);
      s := StoreInTurn(s, n - 1);
    }
    s := Then(s, Capture);
  }

  /** Stamps and captured generations do not exceed the count of bumps, also when States are stored again. */
  ghost predicate Bounded(s: State) {
    && s.shared.gen == s.counter % TWO_TO_THE_64
    && (forall o | o in s.shared.generation :: s.shared.generation[o] <= s.counter)
    && (forall c | c in s.captured :: c.1 <= s.counter)
    && (forall t | t in s.stores && HasStamp(s.stores[t]) :: s.stores[t].stamp <= s.counter)
  }

  lemma BoundedKept(s: State, step: Step)
    requires Bounded(s) && Enabled(s, step)
    ensures Bounded(Apply(s, step))
  {
    if step.Bump? {
      assert Bumped(s.shared).gen <= s.counter + 1;
    }
  }

  lemma {:induction false} ReachableBounded(steps: seq<Step>, s: State)
    requires Reaches(steps, s)
    ensures Bounded(s)
  {
    if steps != [] {
      var init, last := steps[..|steps| - 1], steps[|steps| - 1];
      var p :| Reaches(init, p) && Enabled(p, last) && s == Apply(p, last);
      ReachableBounded(init, p);
      BoundedKept(p, last);
    }
  }

  /** A Store of a known object, started and finished without interruption. */
  lemma WholeStore(s: State, t: nat, obj: nat) returns (next: State)
    requires Reachable(s) && t !in s.stores && obj in s.shared.generation
    ensures Reachable(next) && next.shared == Stored(s.shared, obj) && next.captured == s.captured
  {
    var begun := Then(s, Begin(t, obj));
    StoreIsBumpMarkPublish(begun, t);
    next := Then(begun, Bump(t));
    next := Then(next, Mark(t));
    next := Then(next, Publish(t));
  }

  lemma {:induction false} CapturedAreKnown(steps: seq<Step>, s: State, c: (nat, nat))
    requires Reaches(steps, s) && c in s.captured
    ensures c.0 in s.shared.generation
  {
    var init, last := steps[..|steps| - 1], steps[|steps| - 1];
    var p :| Reaches(init, p) && Enabled(p, last) && s == Apply(p, last);
    if c in p.captured {
      CapturedAreKnown(init, p, c);
    }
  }

  /** From every state, storing an object again changes the generation that any reader has captured on it. */
  lemma StoringTwiceBreaksSnapshots(s: State, c: (nat, nat), t: nat) returns (next: State)
    requires Reachable(s) && c in s.captured && t !in s.stores && s.counter + 1 < TWO_TO_THE_64
    ensures Reachable(next) && c in next.captured && next.shared.ptr == c.0
    ensures c.0 in next.shared.generation && next.shared.generation[c.0] != c.1 && Stale(next.shared, c.1)
  {
    var steps :| Reaches(steps, s);
    ReachableBounded(steps, s);
    CapturedAreKnown(steps, s, c);
    next := WholeStore(s, t, c.0);
    assert next.shared.generation[c.0] == s.counter + 1;
  }
}
