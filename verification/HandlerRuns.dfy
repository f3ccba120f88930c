/** Whole runs of the ingest handler: which requests get past its limiter. */
module HandlerRuns {
  import opened Base
  import opened Persist
  import opened Handler
  import R = RateLimiter

  // ---------------------------------------------------------------- requests as the limiter sees them

  type Levels = map<string, R.Bucket>

  /** What a request asks of the limiter: nothing, unless it is admitted. */
  type Charge = Option<R.Call>

  function CallsOf(charges: seq<Charge>): seq<R.Call> {
    if charges == [] then []
    else CallsOf(R.Front(charges)) + if R.Last(charges).Some? then [R.Last(charges).value] else []
  }

  predicate Of(charge: Charge, key: string) {
    charge.Some? && charge.value.key == key
  }

  /** Which requests of `key` pass, in order. */
  function FlagsOf(charges: seq<Charge>, passes: seq<bool>, key: string): seq<bool>
    requires |charges| == |passes|
  {
    if charges == [] then []
    else FlagsOf(R.Front(charges), R.Front(passes), key) + if Of(R.Last(charges), key) then [R.Last(passes)] else []
  }

  /** One request moves the buckets from `m1` to `m2` and passes or not, as the limiter decides. */
  ghost predicate Moves(c: R.Limits, m1: Levels, charge: Charge, m2: Levels, passes: bool)
    requires c.rate > 0.0
  {
    match charge
    case None => m2 == m1
    case Some(call) =>
      var d := R.Decide(c, Lookup(m1, call.key), call.now);
      m2 == m1[call.key := d.0] && passes == d.1.allowed
  }

  /** `trace` is the buckets before each request and after the last. */
  ghost predicate Traces(c: R.Limits, trace: seq<Levels>, charges: seq<Charge>, passes: seq<bool>)
    requires c.rate > 0.0
  {
    && |trace| == |charges| + 1 && |passes| == |charges|
    && forall i | 0 <= i < |charges| :: Moves(c, trace[i], charges[i], trace[i + 1], passes[i])
  }

  lemma {:induction false} TraceFollows(c: R.Limits, trace: seq<Levels>, charges: seq<Charge>, passes: seq<bool>, n: nat)
    requires c.rate > 0.0 && Traces(c, trace, charges, passes) && n <= |charges|
    ensures trace[n] == R.AfterAll(c, trace[0], CallsOf(charges[..n]))
  {
    if n > 0 {
      TraceFollows(c, trace, charges, passes, n - 1);
      assert Moves(c, trace[n - 1], charges[n - 1], trace[n - 1 + 1], passes[n - 1]);
      assert R.Front(charges[..n]) == charges[..n - 1];
      CallsMore(c, trace[0], CallsOf(charges[..n - 1]), charges[n - 1]);
    }
  }

  lemma CallsMore(c: R.Limits, m: Levels, calls: seq<R.Call>, charge: Charge)
    requires c.rate > 0.0
    ensures var more := calls + if charge.Some? then [charge.value] else [];
            R.AfterAll(c, m, more) ==
            if charge == None then R.AfterAll(c, m, calls)
            else
              var before := R.AfterAll(c, m, calls);
              before[charge.value.key := R.Decide(c, Lookup(before, charge.value.key), charge.value.now).0]
  {
    if charge.Some? {
      assert R.Front(calls + [charge.value]) == calls;
    } else {
      assert calls + [] == calls;
    }
  }

  lemma TimesMore(calls: seq<R.Call>, charge: Charge, key: string)
    ensures R.TimesOf(calls + if charge.Some? then [charge.value] else [], key)
         == R.TimesOf(calls, key) + if Of(charge, key) then [charge.value.now] else []
  {
    if charge.Some? {
      assert R.Front(calls + [charge.value]) == calls;
    } else {
      assert calls + [] == calls;
    }
  }

  lemma GrantsMore(c: R.Limits, b: Option<R.Bucket>, times: seq<real>, now: real)
    requires c.rate > 0.0
    ensures R.Grants(c, b, times + [now])
         == R.Grants(c, b, times) + [R.Decide(c, R.After(c, b, times), now).1.allowed]
  {
    assert R.Front(times + [now]) == times;
  }

  lemma FlagsMore(charges: seq<Charge>, passes: seq<bool>, key: string, n: nat)
    requires n < |charges| == |passes|
    ensures FlagsOf(charges[..n + 1], passes[..n + 1], key)
         == if Of(charges[n], key) then FlagsOf(charges[..n], passes[..n], key) + [passes[n]]
            else FlagsOf(charges[..n], passes[..n], key)
  {
    assert R.Front(charges[..n + 1]) == charges[..n] && R.Front(passes[..n + 1]) == passes[..n];
    var flags := FlagsOf(charges[..n], passes[..n], key);
    assert flags + [] == flags;
  }

  lemma TimesOfMore(charges: seq<Charge>, key: string, n: nat)
    requires n < |charges|
    ensures R.TimesOf(CallsOf(charges[..n + 1]), key)
         == if Of(charges[n], key) then R.TimesOf(CallsOf(charges[..n]), key) + [charges[n].value.now]
            else R.TimesOf(CallsOf(charges[..n]), key)
  {
    assert R.Front(charges[..n + 1]) == charges[..n];
    TimesMore(CallsOf(charges[..n]), charges[n], key);
    var times := R.TimesOf(CallsOf(charges[..n]), key);
    assert times + [] == times;
  }

  lemma FlagStep(c: R.Limits, b: Option<R.Bucket>, charges: seq<Charge>, passes: seq<bool>, key: string, n: nat)
    requires c.rate > 0.0 && n < |charges| == |passes|
    requires FlagsOf(charges[..n], passes[..n], key) == R.Grants(c, b, R.TimesOf(CallsOf(charges[..n]), key))
    requires var times := R.TimesOf(CallsOf(charges[..n]), key);
             Of(charges[n], key) ==>
               R.Grants(c, b, times + [charges[n].value.now]) == R.Grants(c, b, times) + [passes[n]]
    ensures FlagsOf(charges[..n + 1], passes[..n + 1], key)
         == R.Grants(c, b, R.TimesOf(CallsOf(charges[..n + 1]), key))
  {
    FlagsMore(charges, passes, key, n);
    TimesOfMore(charges, key, n);
  }

  /** The requests of a key pass as the limiter grants calls at their times. */
  lemma {:induction false} FlagsAreGrants(c: R.Limits, trace: seq<Levels>, charges: seq<Charge>, passes: seq<bool>,
                                          key: string, n: nat)
    requires c.rate > 0.0 && Traces(c, trace, charges, passes) && n <= |charges|
    ensures FlagsOf(charges[..n], passes[..n], key)
         == R.Grants(c, Lookup(trace[0], key), R.TimesOf(CallsOf(charges[..n]), key))
  {
    if n > 0 {
      FlagsAreGrants(c, trace, charges, passes, key, n - 1);
      if Of(charges[n - 1], key) {
        LastFlag(c, trace, charges, passes, key, n - 1);
      }
      FlagStep(c, Lookup(trace[0], key), charges, passes, key, n - 1);
    }
  }

  lemma LastFlag(c: R.Limits, trace: seq<Levels>, charges: seq<Charge>, passes: seq<bool>, key: string, n: nat)
    requires c.rate > 0.0 && Traces(c, trace, charges, passes) && n < |charges| && Of(charges[n], key)
    ensures var b, times := Lookup(trace[0], key), R.TimesOf(CallsOf(charges[..n]), key);
            R.Grants(c, b, times + [charges[n].value.now]) == R.Grants(c, b, times) + [passes[n]]
  {
    TraceFollows(c, trace, charges, passes, n);
    R.KeysAreIsolated(c, trace[0], CallsOf(charges[..n]), key);
    GrantsMore(c, Lookup(trace[0], key), R.TimesOf(CallsOf(charges[..n]), key), charges[n].value.now);
    assert Moves(c, trace[n], charges[n], trace[n + 1], passes[n]);
  }

  // ---------------------------------------------------------------- the handler

  /** A request, the moment it is handled, and what becomes of its writes. */
  datatype Arrival = Arrival(req: HttpRequest, now: Now, w: Weather)

  /** What lasts from request to request. */
  datatype Service = Service(stores: Stores, limits: R.Limits, levels: Levels)

  ghost predicate Ready(sv: Service) {
    sv.limits.rate > 0.0 && sv.limits.burst > 0.0
  }

  function ChargeOf(wd: World, a: Arrival): Charge {
    match Admit(wd, a.req)
    case Err(_) => None
    case Ok(ad) => Some(R.Call(ad.key, a.now.clock))
  }

  function Charges(wd: World, arrivals: seq<Arrival>): seq<Charge> {
    seq(|arrivals|, i requires 0 <= i < |arrivals| => ChargeOf(wd, arrivals[i]))
  }

  /** What the handler does for one request. */
  function Answered(wd: World, sv: Service, a: Arrival): Effect
    requires Ready(sv)
  {
    Handled(wd, sv.stores, Some(Limiting(sv.limits, sv.levels)), a.req, a.now, a.w)
  }

  /** The service after the first `n` requests. */
  function After(wd: World, sv: Service, arrivals: seq<Arrival>, n: nat): (r: Service)
    requires Ready(sv) && n <= |arrivals|
    ensures Ready(r) && r.limits == sv.limits
  {
    if n == 0 then sv
    else
      var before := After(wd, sv, arrivals, n - 1);
      var e := Answered(wd, before, arrivals[n - 1]);
      before.(stores := e.stores, levels := if e.limiting.Some? then e.limiting.value.levels else map[])
  }

  /** The answer to request `i` of a run. */
  function Response(wd: World, sv: Service, arrivals: seq<Arrival>, i: nat): Handler.Response
    requires Ready(sv) && i < |arrivals|
  {
    Answered(wd, After(wd, sv, arrivals, i), arrivals[i]).response
  }

  /** Which requests of a run are not answered by a 429. */
  function Passes(wd: World, sv: Service, arrivals: seq<Arrival>): seq<bool>
    requires Ready(sv)
  {
    seq(|arrivals|, i requires 0 <= i < |arrivals| => !Response(wd, sv, arrivals, i).RateLimited?)
  }

  function LevelsTrace(wd: World, sv: Service, arrivals: seq<Arrival>): seq<Levels>
    requires Ready(sv)
  {
    seq(|arrivals| + 1, i requires 0 <= i <= |arrivals| => After(wd, sv, arrivals, i).levels)
  }

  /** One request moves the limiter by its charge, and is refused by it exactly when the charge is. */
  lemma ChargeStep(wd: World, sv: Service, a: Arrival)
    requires Ready(sv)
    ensures var e := Answered(wd, sv, a);
            && e.limiting.Some?
            && Moves(sv.limits, sv.levels, ChargeOf(wd, a), e.limiting.value.levels, !e.response.RateLimited?)
  {
    if Admit(wd, a.req).Ok? {
      var key := Admit(wd, a.req).value.key;
      var (after, refusal) := Limited(Some(Limiting(sv.limits, sv.levels)), key, a.now.clock);
    }
  }

  lemma TraceStep(wd: World, sv: Service, arrivals: seq<Arrival>, i: nat)
    requires Ready(sv) && i < |arrivals|
    ensures Moves(sv.limits, LevelsTrace(wd, sv, arrivals)[i], Charges(wd, arrivals)[i],
                  LevelsTrace(wd, sv, arrivals)[i + 1], Passes(wd, sv, arrivals)[i])
  {
    ChargeStep(wd, After(wd, sv, arrivals, i), arrivals[i]);
  }

  lemma RunTraces(wd: World, sv: Service, arrivals: seq<Arrival>)
    requires Ready(sv)
    ensures Traces(sv.limits, LevelsTrace(wd, sv, arrivals), Charges(wd, arrivals), Passes(wd, sv, arrivals))
  {
    forall i | 0 <= i < |arrivals|
      ensures Moves(sv.limits, LevelsTrace(wd, sv, arrivals)[i], Charges(wd, arrivals)[i],
                    LevelsTrace(wd, sv, arrivals)[i + 1], Passes(wd, sv, arrivals)[i])
    {
      TraceStep(wd, sv, arrivals, i);
    }
  }

  /** The buckets of the service are those that the calls of its admitted requests make. */
  lemma LimiterFollows(wd: World, sv: Service, arrivals: seq<Arrival>, n: nat)
    requires Ready(sv) && n <= |arrivals|
    ensures After(wd, sv, arrivals, n).levels == R.AfterAll(sv.limits, sv.levels, CallsOf(Charges(wd, arrivals)[..n]))
  {
    RunTraces(wd, sv, arrivals);
    var trace := LevelsTrace(wd, sv, arrivals);
    TraceFollows(sv.limits, trace, Charges(wd, arrivals), Passes(wd, sv, arrivals), n);
    assert trace[0] == sv.levels && trace[n] == After(wd, sv, arrivals, n).levels;
  }

  /**
   In any run of requests of any keys, whatever else becomes of them: the requests admitted
   under a key pass exactly as the limiter grants calls at their times to a key alone; so
   in every window at most the burst and what the rate gives pass, and no more are accepted.
   */
  lemma PassesKeepToTheRate(wd: World, sv: Service, arrivals: seq<Arrival>, key: string)
    requires Ready(sv)
    ensures var times := R.TimesOf(CallsOf(Charges(wd, arrivals)), key);
            var flags := FlagsOf(Charges(wd, arrivals), Passes(wd, sv, arrivals), key);
            && flags == R.Grants(sv.limits, Lookup(sv.levels, key), times)
            && R.WindowBounded(sv.limits, times, flags)
  {
    RunTraces(wd, sv, arrivals);
    var trace, charges, passes := LevelsTrace(wd, sv, arrivals), Charges(wd, arrivals), Passes(wd, sv, arrivals);
    FlagsAreGrants(sv.limits, trace, charges, passes, key, |charges|);
    assert charges[..|charges|] == charges && passes[..|passes|] == passes && trace[0] == sv.levels;
    R.GrantsAreWindowBounded(sv.limits, Lookup(sv.levels, key), R.TimesOf(CallsOf(charges), key));
  }
}
