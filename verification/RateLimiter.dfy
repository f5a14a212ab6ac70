/** The token bucket of the MCP server (src/internal/mcp/ratelimit.go), over reals. */
module RateLimiter {
  import opened Common

  datatype Bucket = Bucket(tokens: real, maxTokens: real, rate: real, lastTime: real)

  /** The tokens that flow in between two moments. */
  function Inflow(rate: real, from: real, to: real): real {
    (to - from) * rate
  }

  function Refilled(b: Bucket, now: real): real {
    var tokens := b.tokens + Inflow(b.rate, b.lastTime, now);
    if tokens > b.maxTokens then b.maxTokens else tokens
  }

  predicate Admits(b: Bucket, now: real) {
    Refilled(b, now) >= 1.0
  }

  datatype Event = Call(now: real) | Reset

  function Step(b: Bucket, e: Event): Bucket {
    match e
    case Call(now) =>
      b.(tokens := if Admits(b, now) then Refilled(b, now) - 1.0 else Refilled(b, now), lastTime := now)
    case Reset => b.(tokens := b.maxTokens)
  }

  class Limiter {
    var tokens: real
    var maxTokens: real
    var rate: real
    var lastTime: real

    constructor (max: int, ratePerSecond: real, now: real)
      ensures Value() == Bucket(max as real, max as real, ratePerSecond, now)
    {
      tokens, maxTokens, rate, lastTime := max as real, max as real, ratePerSecond, now;
    }

    function Value(): Bucket
      reads this
    {
      Bucket(tokens, maxTokens, rate, lastTime)
    }

    method Allow(now: real) returns (ok: bool)
      modifies this
      ensures ok <==> Admits(old(Value()), now)
      ensures Value() == Step(old(Value()), Call(now))
    {
      var elapsed := now - lastTime;
      tokens := tokens + elapsed * rate;
      if tokens > maxTokens {
        tokens := maxTokens;
      }
      lastTime := now;
      if tokens < 1.0 {
        return false;
      }
      tokens := tokens - 1.0;
      return true;
    }

    method Reset()
      modifies this
      ensures Value() == Step(old(Value()), Event.Reset)
    {
      tokens := maxTokens;
    }
  }

  // ---------------------------------------------------------------- runs

  function Run(b: Bucket, events: seq<Event>): Bucket {
    if events == [] then b else Step(Run(b, events[..|events| - 1]), events[|events| - 1])
  }

  /** The number of calls of a run that are admitted. */
  function Admitted(b: Bucket, events: seq<Event>): nat {
    if events == [] then 0
    else
      var init, last := events[..|events| - 1], events[|events| - 1];
      Admitted(b, init) + if last.Call? && Admits(Run(b, init), last.now) then 1 else 0
  }

  function Resets(events: seq<Event>): nat {
    if events == [] then 0
    else Resets(events[..|events| - 1]) + if events[|events| - 1].Reset? then 1 else 0
  }

  /** The clock never goes back. */
  predicate ClockRuns(b: Bucket, events: seq<Event>) {
    events != [] ==>
      var init, last := events[..|events| - 1], events[|events| - 1];
      ClockRuns(b, init) && (last.Call? ==> Run(b, init).lastTime <= last.now)
  }

  /** The time of the first call of a run. */
  function FirstCall(events: seq<Event>): Option<real> {
    if events == [] then None
    else
      var first := FirstCall(events[..|events| - 1]);
      if first.Some? then first
      else if events[|events| - 1].Call? then Some(events[|events| - 1].now) else None
  }

  /** A state a limiter with sensible settings can be in. */
  predicate BucketOk(b: Bucket) {
    0.0 <= b.tokens <= b.maxTokens && 0.0 <= b.rate
  }

  lemma InflowAdds(rate: real, a: real, b: real, c: real)
    ensures Inflow(rate, a, c) == Inflow(rate, a, b) + Inflow(rate, b, c)
    ensures rate >= 0.0 && a <= b ==> Inflow(rate, a, b) >= 0.0
  {
  }

  /** The price of `n` resets: a full bucket each. */
  function ResetTokens(maxTokens: real, n: nat): real {
    if n == 0 then 0.0 else ResetTokens(maxTokens, n - 1) + maxTokens
  }

  lemma {:induction false} ResetTokensIsProduct(maxTokens: real, n: nat)
    ensures ResetTokens(maxTokens, n) == maxTokens * n as real
    ensures maxTokens >= 0.0 ==> ResetTokens(maxTokens, n) >= 0.0
  {
    if n > 0 {
      ResetTokensIsProduct(maxTokens, n - 1);
    }
  }

  /** A call is paid for by what the bucket held and what flowed in, and by a full bucket at most. */
  lemma CallIsPaidFor(b: Bucket, now: real)
    requires BucketOk(b) && b.lastTime <= now
    ensures var after, cost := Step(b, Call(now)), if Admits(b, now) then 1.0 else 0.0;
            && 0.0 <= after.tokens
            && after.tokens + cost <= b.tokens + Inflow(b.rate, b.lastTime, now)
            && after.tokens + cost <= b.maxTokens
  {
    InflowAdds(b.rate, b.lastTime, now, now);
  }

  /** Tokens stay between zero and the maximum. */
  lemma {:induction false} TokensStayInRange(b: Bucket, events: seq<Event>)
    requires BucketOk(b) && ClockRuns(b, events)
    ensures BucketOk(Run(b, events))
    ensures Run(b, events).maxTokens == b.maxTokens && Run(b, events).rate == b.rate
    ensures b.lastTime <= Run(b, events).lastTime
  {
    if events != [] {
      var init, last := events[..|events| - 1], events[|events| - 1];
      TokensStayInRange(b, init);
      if last.Call? {
        CallIsPaidFor(Run(b, init), last.now);
      }
    }
  }

  /** Between the first call of a run and its end, calls are paid for by inflow, resets and one full bucket. */
  ghost predicate PaidFor(b: Bucket, events: seq<Event>) {
    var end := Run(b, events);
    match FirstCall(events)
    case None => Admitted(b, events) == 0
    case Some(t) =>
      t <= end.lastTime &&
      Admitted(b, events) as real + end.tokens <=
      b.maxTokens + Inflow(b.rate, t, end.lastTime) + ResetTokens(b.maxTokens, Resets(events))
  }

  lemma {:induction false} RunIsPaidFor(b: Bucket, events: seq<Event>)
    requires BucketOk(b) && ClockRuns(b, events)
    ensures PaidFor(b, events)
  {
    if events != [] {
      var init, last := events[..|events| - 1], events[|events| - 1];
      var before := Run(b, init);
      RunIsPaidFor(b, init);
      TokensStayInRange(b, init);
      ResetTokensIsProduct(b.maxTokens, Resets(init));
      if last.Call? {
        CallIsPaidFor(before, last.now);
        InflowAdds(b.rate, last.now, last.now, last.now);
        if FirstCall(init).Some? {
          InflowAdds(b.rate, FirstCall(init).value, before.lastTime, last.now);
        }
      }
    }
  }

  /**
   In any window of any run, the number of calls admitted is at most a full bucket, plus
   the refill over the time between the window's first and last call, plus a full bucket
   for every reset.
   */
  lemma WindowIsBounded(maxTokens: nat, rate: real, start: real, before: seq<Event>, window: seq<Event>)
    requires rate >= 0.0
    requires var b := Bucket(maxTokens as real, maxTokens as real, rate, start);
             ClockRuns(b, before) && ClockRuns(Run(b, before), window)
    ensures var b := Run(Bucket(maxTokens as real, maxTokens as real, rate, start), before);
            var refill := match FirstCall(window)
                          case None => 0.0
                          case Some(t) => Inflow(rate, t, Run(b, window).lastTime);
            Admitted(b, window) as real <= maxTokens as real + refill + ResetTokens(maxTokens as real, Resets(window))
  {
    var initial := Bucket(maxTokens as real, maxTokens as real, rate, start);
    TokensStayInRange(initial, before);
    RunIsPaidFor(Run(initial, before), window);
    TokensStayInRange(Run(initial, before), window);
    ResetTokensIsProduct(maxTokens as real, Resets(window));
  }

  lemma {:induction false} SettingsStay(b: Bucket, events: seq<Event>)
    ensures Run(b, events).maxTokens == b.maxTokens && Run(b, events).rate == b.rate
  {
    if events != [] {
      SettingsStay(b, events[..|events| - 1]);
    }
  }

  /** What flowed in beyond a full bucket. */
  function Spilled(b: Bucket, events: seq<Event>): real {
    if events == [] then 0.0
    else
      var init, last := events[..|events| - 1], events[|events| - 1];
      var before := Run(b, init);
      Spilled(b, init) +
      if last.Reset? then 0.0
      else
        var rest := before.tokens + Inflow(b.rate, before.lastTime, last.now) - b.maxTokens;
        if rest > 0.0 then rest else 0.0
  }

  /** What resets have put into the bucket. */
  function Granted(b: Bucket, events: seq<Event>): real {
    if events == [] then 0.0
    else
      var init, last := events[..|events| - 1], events[|events| - 1];
      Granted(b, init) + if last.Reset? then b.maxTokens - Run(b, init).tokens else 0.0
  }

  /** No token is lost: what was there, flowed in or was granted is left, has spilled over, or has admitted a call. */
  lemma {:induction false} TokensAreConserved(b: Bucket, events: seq<Event>)
    ensures var end := Run(b, events);
            b.tokens + Inflow(b.rate, b.lastTime, end.lastTime) + Granted(b, events) ==
            end.tokens + Spilled(b, events) + Admitted(b, events) as real
  {
    if events == [] {
      InflowAdds(b.rate, b.lastTime, b.lastTime, b.lastTime);
    } else {
      var init, last := events[..|events| - 1], events[|events| - 1];
      TokensAreConserved(b, init);
      SettingsStay(b, init);
      if last.Call? {
        InflowAdds(b.rate, b.lastTime, Run(b, init).lastTime, last.now);
      }
    }
  }

  /** As many calls as the bucket holds whole tokens are all admitted, however fast they come. */
  lemma {:induction false} BurstIsAdmitted(b: Bucket, events: seq<Event>)
    requires BucketOk(b) && ClockRuns(b, events) && (forall e | e in events :: e.Call?)
    requires |events| as real <= b.tokens
    ensures Admitted(b, events) == |events| && Run(b, events).tokens >= b.tokens - |events| as real
  {
    if events != [] {
      var init, last := events[..|events| - 1], events[|events| - 1];
      BurstIsAdmitted(b, init);
      TokensStayInRange(b, events);
      TokensStayInRange(b, init);
      assert last in events;
      BurstCall(Run(b, init), last.now, b.tokens - |init| as real);
    }
  }

  lemma BurstCall(b: Bucket, now: real, left: real)
    requires BucketOk(b) && b.lastTime <= now && 1.0 <= left <= b.tokens
    ensures Admits(b, now) && Step(b, Call(now)).tokens >= left - 1.0
  {
    InflowAdds(b.rate, b.lastTime, now, now);
  }

  /** A call is refused only if what is left and what flowed in since is less than one token, or no bucket holds one. */
  lemma RefusalMeansEmpty(b: Bucket, events: seq<Event>, now: real)
    requires BucketOk(b) && ClockRuns(b, events)
    ensures !Admits(Run(b, events), now) <==>
            b.maxTokens < 1.0 ||
            b.tokens + Inflow(b.rate, b.lastTime, Run(b, events).lastTime) + Granted(b, events) - Spilled(b, events)
            - Admitted(b, events) as real + Inflow(b.rate, Run(b, events).lastTime, now) < 1.0
  {
    TokensAreConserved(b, events);
    SettingsStay(b, events);
  }

  lemma ProductGrows(a: real, b: real, rate: real)
    requires a <= b && rate >= 0.0
    ensures a * rate <= b * rate
  {
  }

  lemma RestFillsOneToken(rate: real, from: real, to: real)
    requires rate > 0.0 && to - from >= 1.0 / rate
    ensures Inflow(rate, from, to) >= 1.0
  {
    ProductGrows(1.0 / rate, to - from, rate);
  }

  lemma FilledAdmits(b: Bucket, now: real)
    requires b.tokens >= 0.0 && b.maxTokens >= 1.0 && Inflow(b.rate, b.lastTime, now) >= 1.0
    ensures Admits(b, now)
  {
  }

  /** A call at least 1/rate seconds after the call before it is admitted. */
  lemma RestedCallIsAdmitted(b: Bucket, events: seq<Event>, now: real)
    requires BucketOk(b) && ClockRuns(b, events)
    requires b.maxTokens >= 1.0 && b.rate > 0.0
    requires now - Run(b, events).lastTime >= 1.0 / b.rate
    ensures Admits(Run(b, events), now)
  {
    TokensStayInRange(b, events);
    RestFillsOneToken(b.rate, Run(b, events).lastTime, now);
    FilledAdmits(Run(b, events), now);
  }

  /** A limiter that cannot hold one token never admits a call, whatever happens to it. */
  lemma {:induction false} SmallBucketAdmitsNothing(b: Bucket, events: seq<Event>)
    requires b.maxTokens < 1.0
    ensures Admitted(b, events) == 0 && Run(b, events).maxTokens == b.maxTokens
  {
    if events != [] {
      SmallBucketAdmitsNothing(b, events[..|events| - 1]);
    }
  }
}
