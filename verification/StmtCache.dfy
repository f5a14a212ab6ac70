/**
 The prepared-statement cache (src/internal/retrieval/stmt_cache.go).  A statement is
 compiled outside the lock, so goroutines race to install theirs; a full cache is closed
 and emptied.  The lock sections are methods of a class; a step machine interleaves them.
 */
module StmtCache {
  import opened Common

  datatype Key = Key(db: nat, sql: string)

  /** A compiled statement and how often it was closed. */
  datatype Stmt = Stmt(key: Key, closes: nat)

  const MAX_CACHED_STMTS: nat := 32

  predicate Open(stmts: map<nat, Stmt>, id: nat) {
    id in stmts && stmts[id].closes == 0
  }

  /** The table of statements after closing those in `ids`. */
  function Closed(stmts: map<nat, Stmt>, ids: set<nat>): map<nat, Stmt> {
    map id | id in stmts :: if id in ids then stmts[id].(closes := stmts[id].closes + 1) else stmts[id]
  }

  datatype Shared = Shared(cache: map<Key, nat>, stmts: map<nat, Stmt>)

  /** The first lock section. */
  function Found(s: Shared, key: Key): Option<nat> {
    if key in s.cache then Some(s.cache[key]) else None
  }

  /** The second lock section: keep the winner of a race, or install `prepared`. */
  function Installed(s: Shared, key: Key, prepared: nat): Shared {
    if key in s.cache then s.(stmts := Closed(s.stmts, {prepared}))
    else if |s.cache| >= MAX_CACHED_STMTS then Shared(map[key := prepared], Closed(s.stmts, s.cache.Values))
    else s.(cache := s.cache[key := prepared])
  }

  function Chosen(s: Shared, key: Key, prepared: nat): nat {
    if key in s.cache then s.cache[key] else prepared
  }

  /** The third lock section: drop the entry if it is still this statement. */
  function DroppedEntry(s: Shared, key: Key, id: nat): Shared {
    if key in s.cache && s.cache[key] == id then Shared(s.cache - {key}, Closed(s.stmts, {id})) else s
  }

  /** The cache as the process holds it. */
  class Cache {
    var m: map<Key, nat>
    var stmts: map<nat, Stmt>

    constructor ()
      ensures Value() == Shared(map[], map[])
    {
      m, stmts := map[], map[];
    }

    function Value(): Shared
      reads this
    {
      Shared(m, stmts)
    }

    method Lookup(key: Key) returns (stmt: Option<nat>)
      ensures stmt == Found(Value(), key)
    {
      stmt := if key in m then Some(m[key]) else None;
    }

    method CloseStmt(id: nat)
      modifies this`stmts
      ensures stmts == Closed(old(stmts), {id})
    {
      if id in stmts {
        stmts := stmts[id := stmts[id].(closes := stmts[id].closes + 1)];
      }
    }

    method Install(key: Key, prepared: nat) returns (stmt: nat)
      requires forall k, k' | k in m && k' in m && k != k' :: m[k] != m[k']
      modifies this
      ensures Value() == Installed(old(Value()), key, prepared)
      ensures stmt == Chosen(old(Value()), key, prepared)
    {
      if key in m {
        stmt := m[key];
        CloseStmt(prepared);
        return;
      }
      if |m| >= MAX_CACHED_STMTS {
        var done: set<nat> := {};
        assert Closed(stmts, {}) == stmts;
        while m != map[]
          invariant forall k | k in m :: k in old(m) && m[k] == old(m[k])
          invariant done == (set k | k in old(m) && k !in m :: old(m[k]))
          invariant stmts == Closed(old(stmts), done)
          decreases m.Keys
        {
          var k :| k in m;
          assert m[k] !in done;
          CloseStmt(m[k]);
          assert stmts == Closed(old(stmts), done + {m[k]});
          done := done + {m[k]};
          m := m - {k};
        }
        assert done == old(m).Values;
      }
      m := m[key := prepared];
      stmt := prepared;
    }

    method Drop(key: Key, id: nat)
      modifies this
      ensures Value() == DroppedEntry(old(Value()), key, id)
    {
      if key in m && m[key] == id {
        CloseStmt(id);
        m := m - {key};
      }
    }
  }

  // ---------------------------------------------------------------- interleavings

  /** Where a call of `queryCached` stands. */
  datatype Pc =
    | Looking(key: Key)
    | Missed(key: Key)
    | Prepared(key: Key, stmt: nat)
    | Ready(key: Key, stmt: nat)
    | QueryFailed(key: Key, stmt: nat)
    | Returned

  datatype State = State(shared: Shared, calls: map<nat, Pc>, nextStmt: nat)

  datatype Step =
    | Call(g: nat, key: Key)
    | LookUp(g: nat)
    | Prepare(g: nat, ok: bool)
    | Install(g: nat)
    | Query(g: nat, ok: bool)
    | Drop(g: nat)

  predicate Enabled(s: State, step: Step) {
    match step
    case Call(g, _) => g !in s.calls
    case LookUp(g) => g in s.calls && s.calls[g].Looking?
    case Prepare(g, _) => g in s.calls && s.calls[g].Missed?
    case Install(g) => g in s.calls && s.calls[g].Prepared?
    // A closed statement answers every query with an error.
    case Query(g, ok) => g in s.calls && s.calls[g].Ready? && (ok ==> Open(s.shared.stmts, s.calls[g].stmt))
    case Drop(g) => g in s.calls && s.calls[g].QueryFailed?
  }

  function Apply(s: State, step: Step): State
    requires Enabled(s, step)
  {
    match step
    case Call(g, key) => s.(calls := s.calls[g := Looking(key)])
    case LookUp(g) =>
      var key := s.calls[g].key;
      var found := Found(s.shared, key);
      s.(calls := s.calls[g := if found.Some? then Ready(key, found.value) else Missed(key)])
    case Prepare(g, ok) =>
      var key := s.calls[g].key;
      if !ok then s.(calls := s.calls[g := Returned])
      else State(s.shared.(stmts := s.shared.stmts[s.nextStmt := Stmt(key, 0)]),
                 s.calls[g := Prepared(key, s.nextStmt)], s.nextStmt + 1)
    case Install(g) =>
      var key, stmt := s.calls[g].key, s.calls[g].stmt;
      s.(shared := Installed(s.shared, key, stmt), calls := s.calls[g := Ready(key, Chosen(s.shared, key, stmt))])
    case Query(g, ok) =>
      s.(calls := s.calls[g := if ok then Returned else QueryFailed(s.calls[g].key, s.calls[g].stmt)])
    case Drop(g) =>
      s.(shared := DroppedEntry(s.shared, s.calls[g].key, s.calls[g].stmt), calls := s.calls[g := Returned])
  }

  function Init(): State {
    State(Shared(map[], map[]), map[], 0)
  }

  ghost predicate Reaches(steps: seq<Step>, s: State) {
    if steps == [] then s == Init()
    else
      var last := steps[|steps| - 1];
      exists p :: Reaches(steps[..|steps| - 1], p) && Enabled(p, last) && s == Apply(p, last)
  }

  // ---------------------------------------------------------------- no leaks, no double close

  predicate IsCached(s: Shared, id: nat) {
    id in s.stmts && s.stmts[id].key in s.cache && s.cache[s.stmts[id].key] == id
  }

  /** Call `g` has just compiled `id` and not yet installed it. */
  predicate Holds(s: State, g: nat, id: nat) {
    g in s.calls && s.calls[g].Prepared? && s.calls[g].stmt == id
  }

  ghost predicate IsHeld(s: State, id: nat) {
    exists g :: Holds(s, g, id)
  }

  /** Every entry is an open statement that was compiled for its own key. */
  ghost predicate CacheOk(s: Shared) {
    && |s.cache| <= MAX_CACHED_STMTS
    && forall k | k in s.cache :: s.cache[k] in s.stmts && s.stmts[s.cache[k]] == Stmt(k, 0)
  }

  /** A statement is closed at most once, and open exactly while it is cached or held, never both. */
  ghost predicate StmtOk(s: State, id: nat)
    requires id in s.shared.stmts
  {
    && s.shared.stmts[id].closes <= 1 && id < s.nextStmt
    && (Open(s.shared.stmts, id) <==> IsCached(s.shared, id) || IsHeld(s, id))
    && !(IsCached(s.shared, id) && IsHeld(s, id))
  }

  /** A call refers to a statement of its own key; what it has just compiled it holds alone. */
  ghost predicate CallOk(s: State, g: nat)
    requires g in s.calls
  {
    var pc := s.calls[g];
    && (pc.Prepared? || pc.Ready? || pc.QueryFailed? ==>
        pc.stmt in s.shared.stmts && s.shared.stmts[pc.stmt].key == pc.key)
    && (pc.Prepared? ==> forall h | Holds(s, h, pc.stmt) :: h == g)
  }

  ghost predicate Inv(s: State) {
    && CacheOk(s.shared)
    && (forall id | id in s.shared.stmts :: StmtOk(s, id))
    && (forall g | g in s.calls :: CallOk(s, g))
  }

  lemma InstallKeepsCache(s: State, g: nat)
    requires Inv(s) && Enabled(s, Install(g))
    ensures CacheOk(Apply(s, Install(g)).shared)
  {
    var id := s.calls[g].stmt;
    assert CallOk(s, g) && StmtOk(s, id) && Holds(s, g, id);
  }

  lemma PrepareKeepsCache(s: State, g: nat, ok: bool)
    requires Inv(s) && Enabled(s, Prepare(g, ok))
    ensures CacheOk(Apply(s, Prepare(g, ok)).shared)
  {
    forall k | k in s.shared.cache
      ensures s.shared.cache[k] != s.nextStmt
    {
      assert StmtOk(s, s.shared.cache[k]);
    }
  }

  lemma DropKeepsCache(s: State, g: nat)
    requires Inv(s) && Enabled(s, Drop(g))
    ensures CacheOk(Apply(s, Drop(g)).shared)
  {
    assert CallOk(s, g);
  }

  lemma CacheKept(s: State, step: Step)
    requires Inv(s) && Enabled(s, step)
    ensures CacheOk(Apply(s, step).shared)
  {
    match step
    case Install(g) => InstallKeepsCache(s, g);
    case Prepare(g, ok) => PrepareKeepsCache(s, g, ok);
    case Drop(g) => DropKeepsCache(s, g);
    case _ =>
  }

  lemma CallKept(s: State, step: Step, g: nat)
    requires Inv(s) && Enabled(s, step) && g in Apply(s, step).calls
    ensures CallOk(Apply(s, step), g)
  {
    var t := Apply(s, step);
    if g in s.calls {
      assert CallOk(s, g);
    }
    assert step.g in s.calls ==> CallOk(s, step.g);
    forall h | t.calls[g].Prepared? && Holds(t, h, t.calls[g].stmt)
      ensures h == g
    {
      HeldIsOld(s, step, h, t.calls[g].stmt);
      if g in s.calls && s.calls[g].Prepared? && step.Prepare? {
        assert StmtOk(s, s.calls[g].stmt);
      }
      if h in s.calls && s.calls[h].Prepared? {
        assert CallOk(s, h) && StmtOk(s, s.calls[h].stmt);
      }
    }
  }

  /** A step lets only its own call take up or let go of a statement. */
  lemma HeldIsOld(s: State, step: Step, h: nat, id: nat)
    requires Enabled(s, step)
    ensures var t := Apply(s, step);
            Holds(t, h, id) <==>
              if h == step.g then step.Prepare? && step.ok && id == s.nextStmt else Holds(s, h, id)
  {
  }

  lemma HeldAfter(s: State, step: Step, id: nat)
    requires Inv(s) && Enabled(s, step) && id in Apply(s, step).shared.stmts
    ensures var t := Apply(s, step);
            IsHeld(t, id) <==>
              if step.Prepare? && step.ok && id == s.nextStmt then true
              else IsHeld(s, id) && !(step.Install? && id == s.calls[step.g].stmt)
  {
    var t := Apply(s, step);
    forall h
      ensures Holds(t, h, id) <==>
                if h == step.g then step.Prepare? && step.ok && id == s.nextStmt else Holds(s, h, id)
    {
      HeldIsOld(s, step, h, id);
    }
    if step.Install? {
      assert CallOk(s, step.g) && Holds(s, step.g, s.calls[step.g].stmt);
    }
    if step.Prepare? && step.ok && id == s.nextStmt {
      assert Holds(t, step.g, id);
    } else if IsHeld(s, id) && !(step.Install? && id == s.calls[step.g].stmt) {
      var h :| Holds(s, h, id);
      assert Holds(t, h, id);
    }
  }

  lemma StmtKept(s: State, step: Step, id: nat)
    requires Inv(s) && Enabled(s, step) && id in Apply(s, step).shared.stmts
    ensures StmtOk(Apply(s, step), id)
  {
    HeldAfter(s, step, id);
    if id in s.shared.stmts {
      assert StmtOk(s, id);
    } else {
      assert forall k | k in s.shared.cache :: s.shared.cache[k] != id;
    }
    if step.Install? {
      InstallKeepsStmt(s, step.g, id);
    } else if step.Drop? {
      assert CallOk(s, step.g);
    }
  }

  lemma InstallKeepsStmt(s: State, g: nat, id: nat)
    requires Inv(s) && Enabled(s, Install(g)) && id in s.shared.stmts
    ensures var t, prepared := Apply(s, Install(g)), s.calls[g].stmt;
            && t.shared.stmts[id].closes <= 1
            && (Open(t.shared.stmts, id) <==> IsCached(t.shared, id) || (IsHeld(s, id) && id != prepared))
            && !(IsCached(t.shared, id) && IsHeld(s, id) && id != prepared)
  {
    var prepared := s.calls[g].stmt;
    assert CallOk(s, g) && Holds(s, g, prepared) && StmtOk(s, prepared) && StmtOk(s, id);
    assert id in s.shared.cache.Values <==> IsCached(s.shared, id) by {
      if id in s.shared.cache.Values {
        var k :| k in s.shared.cache && s.shared.cache[k] == id;
      }
    }
  }

  lemma {:induction false} ReachableInv(steps: seq<Step>, s: State)
    requires Reaches(steps, s)
    ensures Inv(s)
  {
    if steps != [] {
      var init, last := steps[..|steps| - 1], steps[|steps| - 1];
      var p :| Reaches(init, p) && Enabled(p, last) && s == Apply(p, last);
      ReachableInv(init, p);
      CacheKept(p, last);
      forall id | id in s.shared.stmts
        ensures StmtOk(s, id)
      {
        StmtKept(p, last, id);
      }
      forall g | g in s.calls
        ensures CallOk(s, g)
      {
        CallKept(p, last, g);
      }
    }
  }

  /**
   In every interleaving: at most 32 entries, each open and compiled for its own key; and
   every statement ever compiled is cached, or held by the one call that has just compiled
   it, or has been closed exactly once.
   */
  lemma NoLeakInAnyInterleaving(steps: seq<Step>, s: State)
    requires Reaches(steps, s)
    ensures |s.shared.cache| <= 32
    ensures forall k | k in s.shared.cache ::
              Open(s.shared.stmts, s.shared.cache[k]) && s.shared.stmts[s.shared.cache[k]].key == k
    ensures forall id | id in s.shared.stmts ::
              if IsCached(s.shared, id) || IsHeld(s, id) then s.shared.stmts[id].closes == 0
              else s.shared.stmts[id].closes == 1
    ensures forall id, g, h | Holds(s, g, id) && Holds(s, h, id) :: g == h && !IsCached(s.shared, id)
  {
    ReachableInv(steps, s);
    forall id | id in s.shared.stmts
      ensures if IsCached(s.shared, id) || IsHeld(s, id) then s.shared.stmts[id].closes == 0
              else s.shared.stmts[id].closes == 1
    {
      assert StmtOk(s, id);
    }
    forall id, g, h | Holds(s, g, id) && Holds(s, h, id)
      ensures g == h && !IsCached(s.shared, id)
    {
      assert CallOk(s, g) && CallOk(s, h) && StmtOk(s, id);
    }
  }

  /** What a lookup finds, at whatever moment, is an open statement that was compiled for the key. */
  lemma FoundIsUsable(steps: seq<Step>, s: State, key: Key)
    requires Reaches(steps, s) && Found(s.shared, key).Some?
    ensures Open(s.shared.stmts, Found(s.shared, key).value) && s.shared.stmts[Found(s.shared, key).value].key == key
  {
    ReachableInv(steps, s);
  }

  /** Once every call has returned, the open statements are the cached ones: at most 32. */
  lemma QuietCacheHoldsAllOpen(steps: seq<Step>, s: State)
    requires Reaches(steps, s) && forall g | g in s.calls :: s.calls[g].Returned?
    ensures (set id | id in s.shared.stmts && Open(s.shared.stmts, id)) == s.shared.cache.Values
  {
    NoLeakInAnyInterleaving(steps, s);
    var open := set id | id in s.shared.stmts && Open(s.shared.stmts, id);
    forall id | id in open
      ensures id in s.shared.cache.Values
    {
      assert !IsHeld(s, id);
    }
  }

  // ---------------------------------------------------------------- every call returns

  /** How many steps a call may still take. */
  function StepsLeft(pc: Pc): nat {
    match pc
    case Looking(_) => 5
    case Missed(_) => 4
    case Prepared(_, _) => 3
    case Ready(_, _) => 2
    case QueryFailed(_, _) => 1
    case Returned => 0
  }

  /** No call waits for another: it can go on, however its database calls turn out, and then has fewer steps left. */
  lemma CallMoves(s: State, g: nat, ok: bool) returns (step: Step)
    requires g in s.calls && !s.calls[g].Returned?
    requires s.calls[g].Ready? && ok ==> Open(s.shared.stmts, s.calls[g].stmt)
    ensures Enabled(s, step) && step.g == g && !step.Call?
    ensures (step.Prepare? || step.Query?) ==> step.ok == ok
    ensures var t := Apply(s, step);
            g in t.calls && StepsLeft(t.calls[g]) < StepsLeft(s.calls[g])
            && forall h | h in s.calls && h != g :: h in t.calls && t.calls[h] == s.calls[h]
  {
    step := match s.calls[g]
      case Looking(_) => LookUp(g)
      case Missed(_) => Prepare(g, ok)
      case Prepared(_, _) => Install(g)
      case Ready(_, _) => Query(g, ok)
      case QueryFailed(_, _) => Drop(g);
  }

  /** A query can succeed exactly if its statement is open; then the call has returned. */
  lemma QuerySucceedsIff(s: State, g: nat)
    requires g in s.calls && s.calls[g].Ready?
    ensures Enabled(s, Query(g, true)) <==>
            s.calls[g].stmt in s.shared.stmts && s.shared.stmts[s.calls[g].stmt].closes == 0
    ensures Enabled(s, Query(g, true)) ==> Apply(s, Query(g, true)).calls[g] == Returned
  {
  }

  // ---------------------------------------------------------------- when a statement in use stays open

  function KeysUsed(steps: seq<Step>): set<Key> {
    set step | step in steps && step.Call? :: step.key
  }

  predicate NoQueryFails(steps: seq<Step>) {
    forall step | step in steps && step.Query? :: step.ok
  }

  /** No query of a call on the key fails. */
  predicate Succeeds(steps: seq<Step>, key: Key) {
    forall step | step in steps && step.Query? && !step.ok :: Call(step.g, key) !in steps
  }

  /** The calls and the entries come from calls made. */
  predicate ComesFrom(steps: seq<Step>, s: State) {
    && s.shared.cache.Keys <= KeysUsed(steps)
    && forall g | g in s.calls && !s.calls[g].Returned? :: Call(g, s.calls[g].key) in steps
  }

  lemma StepComesFrom(steps: seq<Step>, s: State, step: Step)
    requires ComesFrom(steps, s) && Enabled(s, step)
    ensures ComesFrom(steps + [step], Apply(s, step))
  {
    var t := Apply(s, step);
    KeysOfParts(steps, [step]);
    forall g | g in t.calls && !t.calls[g].Returned?
      ensures Call(g, t.calls[g].key) in steps + [step]
    {
      assert g in s.calls ==> t.calls[g].key == s.calls[g].key && Call(g, s.calls[g].key) in steps;
    }
    if step.Install? {
      assert Call(step.g, s.calls[step.g].key).key in KeysUsed(steps);
    }
  }

  lemma {:induction false} ReachableComesFrom(steps: seq<Step>, s: State)
    requires Reaches(steps, s)
    ensures ComesFrom(steps, s)
  {
    if steps != [] {
      var init, last := steps[..|steps| - 1], steps[|steps| - 1];
      var p :| Reaches(init, p) && Enabled(p, last) && s == Apply(p, last);
      ReachableComesFrom(init, p);
      StepComesFrom(init, p, last);
      assert steps == init + [last];
    }
  }

  /** No call on the key is about to drop a statement, and those that query use the cached one. */
  predicate IsSteady(s: State, key: Key) {
    forall g | g in s.calls && !s.calls[g].Returned? && s.calls[g].key == key ::
      && !s.calls[g].QueryFailed?
      && (s.calls[g].Ready? ==> key in s.shared.cache && s.shared.cache[key] == s.calls[g].stmt)
  }

  /** A cache that is full of used keys holds all of them. */
  lemma FewKeysFit(cache: map<Key, nat>, keys: set<Key>, key: Key)
    requires cache.Keys <= keys && key in keys && |keys| <= MAX_CACHED_STMTS && key !in cache
    ensures |cache| < MAX_CACHED_STMTS
  {
    SubsetSize(cache.Keys + {key}, keys);
  }

  lemma StaysSteady(steps: seq<Step>, s: State, step: Step, key: Key)
    requires ComesFrom(steps, s) && IsSteady(s, key) && Enabled(s, step)
    requires |KeysUsed(steps)| <= MAX_CACHED_STMTS && Succeeds(steps + [step], key)
    ensures IsSteady(Apply(s, step), key)
  {
    if step.Install? && s.calls[step.g].key !in s.shared.cache {
      var own := s.calls[step.g].key;
      assert Call(step.g, own).key == own;
      FewKeysFit(s.shared.cache, KeysUsed(steps), own);
    } else if step.Query? && !step.ok {
      assert step in steps + [step];
    }
  }

  lemma {:induction false} RunIsSteady(steps: seq<Step>, s: State, key: Key)
    requires Reaches(steps, s) && |KeysUsed(steps)| <= MAX_CACHED_STMTS && Succeeds(steps, key)
    ensures IsSteady(s, key)
  {
    if steps != [] {
      var init, last := steps[..|steps| - 1], steps[|steps| - 1];
      var p :| Reaches(init, p) && Enabled(p, last) && s == Apply(p, last);
      assert steps == init + [last];
      SubsetSize(KeysUsed(init), KeysUsed(steps));
      RunIsSteady(init, p, key);
      ReachableComesFrom(init, p);
      StaysSteady(init, p, last, key);
    }
  }

  /**
   With at most 32 keys in use and no failed query on its own key, a call that is about to
   query holds an open statement, whatever other calls do.
   */
  lemma ReadyIsOpen(steps: seq<Step>, s: State, g: nat)
    requires Reaches(steps, s) && g in s.calls && s.calls[g].Ready?
    requires |KeysUsed(steps)| <= MAX_CACHED_STMTS && Succeeds(steps, s.calls[g].key)
    ensures Open(s.shared.stmts, s.calls[g].stmt)
  {
    RunIsSteady(steps, s, s.calls[g].key);
    ReachableInv(steps, s);
  }

  lemma ReachesMore(steps: seq<Step>, s: State, step: Step)
    requires Reaches(steps, s) && Enabled(s, step)
    ensures Reaches(steps + [step], Apply(s, step))
  {
    var all := steps + [step];
    assert all[..|all| - 1] == steps && all[|all| - 1] == step;
    assert Reaches(all[..|all| - 1], s);
  }

  lemma ReachesTwoMore(steps: seq<Step>, s: State, a: Step, b: Step)
    requires Reaches(steps, s) && Enabled(s, a) && Enabled(Apply(s, a), b)
    ensures Reaches(steps + [a, b], Apply(Apply(s, a), b))
  {
    ReachesMore(steps, s, a);
    ReachesMore(steps + [a], Apply(s, a), b);
    assert steps + [a] + [b] == steps + [a, b];
  }

  lemma KeysOfParts(steps: seq<Step>, more: seq<Step>)
    ensures KeysUsed(steps + more) == KeysUsed(steps) + KeysUsed(more)
    ensures NoQueryFails(steps + more) <==> NoQueryFails(steps) && NoQueryFails(more)
  {
    assert forall step :: step in steps + more <==> step in steps || step in more;
  }

  function WithStmt(s: State, key: Key): Shared {
    s.shared.(stmts := s.shared.stmts[s.nextStmt := Stmt(key, 0)])
  }

  /** The state after a call on a key that is not cached has compiled and installed its statement. */
  function AfterMiss(s: State, g: nat, key: Key): State {
    State(Installed(WithStmt(s, key), key, s.nextStmt), s.calls[g := Ready(key, s.nextStmt)], s.nextStmt + 1)
  }

  /** A new call has looked its key up. */
  lemma CallLooksUp(s: State, g: nat, key: Key)
    requires g !in s.calls
    ensures Enabled(s, Call(g, key)) && Enabled(Apply(s, Call(g, key)), LookUp(g))
    ensures Apply(Apply(s, Call(g, key)), LookUp(g)) ==
            s.(calls := s.calls[g := if key in s.shared.cache then Ready(key, s.shared.cache[key]) else Missed(key)])
  {
    var pc := if key in s.shared.cache then Ready(key, s.shared.cache[key]) else Missed(key);
    assert s.calls[g := Looking(key)][g := pc] == s.calls[g := pc];
  }

  lemma MissInstalls(s: State, g: nat, key: Key)
    requires g !in s.calls && key !in s.shared.cache
    ensures var t := s.(calls := s.calls[g := Missed(key)]);
            && Enabled(t, Prepare(g, true)) && Enabled(Apply(t, Prepare(g, true)), Install(g))
            && Apply(Apply(t, Prepare(g, true)), Install(g)) == AfterMiss(s, g, key)
  {
    var missed, prepared, ready := Missed(key), Prepared(key, s.nextStmt), Ready(key, s.nextStmt);
    assert s.calls[g := missed][g := prepared][g := ready] == s.calls[g := ready];
  }

  lemma MissUsesKey(g: nat, key: Key)
    ensures var more := [Call(g, key), LookUp(g)] + [Prepare(g, true), Install(g)];
            KeysUsed(more) == {key} && NoQueryFails(more)
  {
    var more := [Call(g, key), LookUp(g)] + [Prepare(g, true), Install(g)];
    assert more[0] in more && more[0].key == key;
  }

  lemma MissIsReached(steps: seq<Step>, s: State, g: nat, key: Key) returns (more: seq<Step>)
    requires Reaches(steps, s) && g !in s.calls && key !in s.shared.cache
    ensures Reaches(steps + more, AfterMiss(s, g, key))
    ensures KeysUsed(more) == {key} && NoQueryFails(more)
  {
    var first, second := [Call(g, key), LookUp(g)], [Prepare(g, true), Install(g)];
    more := first + second;
    CallLooksUp(s, g, key);
    ReachesTwoMore(steps, s, Call(g, key), LookUp(g));
    MissInstalls(s, g, key);
    ReachesTwoMore(steps + first, s.(calls := s.calls[g := Missed(key)]), Prepare(g, true), Install(g));
    assert steps + first + second == steps + more;
    MissUsesKey(g, key);
  }

  /**
   The first limit matters: two calls share a statement, the query of one fails and closes it, and the
   other is left with it.
   */
  lemma FailureClosesSharedStmt(key: Key) returns (steps: seq<Step>, s: State)
    ensures Reaches(steps, s) && KeysUsed(steps) == {key}
    ensures 1 in s.calls && s.calls[1] == Ready(key, 0) && !Open(s.shared.stmts, 0)
  {
    var first := MissIsReached([], Init(), 0, key);
    KeysOfParts([], first);
    steps, s := FailureFollows([] + first, AfterMiss(Init(), 0, key), key);
  }

  lemma FailureFollows(steps: seq<Step>, s: State, key: Key) returns (all: seq<Step>, t: State)
    requires Reaches(steps, s) && KeysUsed(steps) == {key}
    requires 0 in s.calls && 1 !in s.calls && s.calls[0] == Ready(key, 0)
    requires key in s.shared.cache && s.shared.cache[key] == 0
    ensures Reaches(all, t) && KeysUsed(all) == {key}
    ensures 1 in t.calls && t.calls[1] == Ready(key, 0) && !Open(t.shared.stmts, 0)
  {
    var used, dropped := [Call(1, key), LookUp(1)], [Query(0, false), Drop(0)];
    CallLooksUp(s, 1, key);
    ReachesTwoMore(steps, s, Call(1, key), LookUp(1));
    KeysOfParts(steps, used);
    assert used[0].key == key;
    var shared := s.(calls := s.calls[1 := Ready(key, 0)]);
    SharedUseIsDropped(steps + used, shared, key);
    KeysOfParts(steps + used, dropped);
    return steps + used + dropped, Apply(Apply(shared, Query(0, false)), Drop(0));
  }

  lemma SharedUseIsDropped(steps: seq<Step>, s: State, key: Key)
    requires Reaches(steps, s) && 0 in s.calls && 1 in s.calls && s.calls[0] == s.calls[1] == Ready(key, 0)
    requires key in s.shared.cache && s.shared.cache[key] == 0
    ensures Enabled(s, Query(0, false)) && Enabled(Apply(s, Query(0, false)), Drop(0))
    ensures var t := Apply(Apply(s, Query(0, false)), Drop(0));
            Reaches(steps + [Query(0, false), Drop(0)], t) && 1 in t.calls && t.calls[1] == Ready(key, 0)
            && !Open(t.shared.stmts, 0)
  {
    ReachesTwoMore(steps, s, Query(0, false), Drop(0));
  }

  ghost predicate IsFilled(s: State, keys: seq<Key>) {
    && s.nextStmt == |keys| && (forall g | g in s.calls :: g < |keys|) && s.shared.cache.Keys == ToSet(keys)
    && (keys != [] ==> 0 in s.calls && s.calls[0] == Ready(keys[0], 0) && s.shared.cache[keys[0]] == 0)
  }

  lemma FilledByOneMore(p: State, init: seq<Key>, last: Key)
    requires IsFilled(p, init) && NoDup(init) && last !in init && |init| < MAX_CACHED_STMTS
    ensures IsFilled(AfterMiss(p, |init|, last), init + [last])
  {
    var t, keys := AfterMiss(p, |init|, last), init + [last];
    FilledSize(p, init);
    assert t.shared.cache == p.shared.cache[last := |init|];
    assert ToSet(keys) == ToSet(init) + {last};
    assert t.calls == p.calls[|init| := Ready(last, |init|)];
    assert init != [] ==> keys[0] == init[0] && keys[0] != last;
  }

  lemma FilledSize(s: State, keys: seq<Key>)
    requires IsFilled(s, keys) && NoDup(keys)
    ensures |s.shared.cache| == |keys|
  {
    SizeOfDistinct(keys);
    assert |s.shared.cache| == |s.shared.cache.Keys|;
  }

  /** `steps` fill the cache with these keys. */
  ghost predicate Fills(steps: seq<Step>, s: State, keys: seq<Key>) {
    Reaches(steps, s) && IsFilled(s, keys) && KeysUsed(steps) == ToSet(keys) && NoQueryFails(steps)
  }

  lemma MissOfNewKey(steps: seq<Step>, s: State, keys: seq<Key>, key: Key) returns (all: seq<Step>)
    requires Fills(steps, s, keys) && key !in keys
    ensures Reaches(all, AfterMiss(s, |keys|, key)) && NoQueryFails(all) && KeysUsed(all) == ToSet(keys + [key])
  {
    var more := MissIsReached(steps, s, |keys|, key);
    KeysOfParts(steps, more);
    assert ToSet(keys + [key]) == ToSet(keys) + {key};
    all := steps + more;
  }

  lemma FillsOneMore(steps: seq<Step>, s: State, keys: seq<Key>, key: Key) returns (all: seq<Step>, t: State)
    requires Fills(steps, s, keys) && NoDup(keys) && key !in keys && |keys| < MAX_CACHED_STMTS
    ensures Fills(all, t, keys + [key])
  {
    all := MissOfNewKey(steps, s, keys, key);
    t := AfterMiss(s, |keys|, key);
    FilledByOneMore(s, keys, key);
  }

  /** Up to 32 keys, one call after another compiles and installs its own. */
  lemma {:induction false} FillCache(keys: seq<Key>, n: nat) returns (steps: seq<Step>, s: State)
    requires NoDup(keys) && n <= |keys| && n <= MAX_CACHED_STMTS
    ensures Fills(steps, s, keys[..n])
  {
    if n == 0 {
      return [], Init();
    }
    steps, s := FillCache(keys, n - 1);
    steps, s := FillsOneMore(steps, s, keys[..n - 1], keys[n - 1]);
    assert keys[..n - 1] + [keys[n - 1]] == keys[..n];
  }

  /** The second limit matters: a 33rd key closes the statement of a call that is about to query. */
  lemma EvictionClosesStmt(keys: seq<Key>) returns (steps: seq<Step>, s: State)
    requires NoDup(keys) && |keys| == MAX_CACHED_STMTS + 1
    ensures Reaches(steps, s) && KeysUsed(steps) == ToSet(keys) && NoQueryFails(steps)
    ensures 0 in s.calls && s.calls[0].Ready? && !Open(s.shared.stmts, s.calls[0].stmt)
  {
    var init, last := keys[..|keys| - 1], keys[|keys| - 1];
    var before, p := FillCache(keys, |init|);
    steps := MissOfNewKey(before, p, init, last);
    FilledSize(p, init);
    assert init + [last] == keys;
    assert p.shared.cache[init[0]] in p.shared.cache.Values;
    ReachableInv(before, p);
    return steps, AfterMiss(p, |init|, last);
  }

  /** Without failed queries, calls on these keys always query open statements. */
  ghost predicate UsesOpenStmts(keys: set<Key>) {
    forall steps, s, g | Reaches(steps, s) && KeysUsed(steps) <= keys && NoQueryFails(steps)
                         && g in s.calls && s.calls[g].Ready? ::
      Open(s.shared.stmts, s.calls[g].stmt)
  }

  /** Without failed queries, calls on a set of keys are sure of open statements exactly if it has at most 32. */
  lemma StmtsStayOpenIff(keys: set<Key>)
    ensures UsesOpenStmts(keys) <==> |keys| <= 32
  {
    if |keys| <= 32 {
      forall steps, s, g | Reaches(steps, s) && KeysUsed(steps) <= keys && NoQueryFails(steps)
                           && g in s.calls && s.calls[g].Ready?
        ensures Open(s.shared.stmts, s.calls[g].stmt)
      {
        SubsetSize(KeysUsed(steps), keys);
        ReadyIsOpen(steps, s, g);
      }
    } else {
      var list := ListOf(keys);
      SizeOfDistinct(list);
      var steps, s := EvictionClosesStmt(list[..33]);
      assert ToSet(list[..33]) <= keys;
      assert !UsesOpenStmts(keys);
    }
  }
}
