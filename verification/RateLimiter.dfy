/**
 The per-key token bucket: the limiter as it runs, with its buckets on the heap, and what
 whole runs of it admit. Tokens and seconds are reals.
 */
module RateLimiter {
  import opened Base

  /** Tokens refilled per second, and the capacity of a bucket. */
  datatype Limits = Limits(rate: real, burst: real)

  datatype Bucket = Bucket(tokens: real, last: real)

  datatype Answer = Answer(allowed: bool, retryAfter: real)

  /** Tokens in the bucket of a key at time `now`; a key seen for the first time has it full. */
  function Level(c: Limits, b: Option<Bucket>, now: real): real {
    match b
    case None => c.burst
    case Some(k) =>
      var filled := k.tokens + Gain(c, k.last, now);
      if filled > c.burst then c.burst else filled
  }

  function Gain(c: Limits, from: real, to: real): real {
    (to - from) * c.rate
  }

  function Decide(c: Limits, b: Option<Bucket>, now: real): (Bucket, Answer)
    requires c.rate > 0.0
  {
    var level := Level(c, b, now);
    if level >= 1.0 then (Bucket(level - 1.0, now), Answer(true, 0.0))
    else
      var wait := (1.0 - level) / c.rate;
      (Bucket(level, now), Answer(false, if wait < 1.0 then 1.0 else wait))
  }

  /** A bucket made full just now decides like no bucket. */
  lemma FullBucket(c: Limits, now: real)
    requires c.rate > 0.0
    ensures Decide(c, Some(Bucket(c.burst, now)), now) == Decide(c, None, now)
  {
    assert Gain(c, now, now) == 0.0 * c.rate == 0.0;
  }

  // ---------------------------------------------------------------- the limiter

  class TokenBucket {
    var tokens: real
    var last: real

    constructor (tokens: real, last: real)
      ensures this.tokens == tokens && this.last == last
    {
      this.tokens, this.last := tokens, last;
    }

    ghost function Value(): Bucket
      reads this
    {
      Bucket(tokens, last)
    }

    /** Refills up to the capacity, then takes a token or says how long to wait for one. */
    method Take(rate: real, burst: real, now: real) returns (allowed: bool, retryAfter: real)
      requires rate > 0.0
      modifies this
      ensures (Value(), Answer(allowed, retryAfter)) == Decide(Limits(rate, burst), Some(old(Value())), now)
    {
      tokens := tokens + (now - last) * rate;
      if tokens > burst {
        tokens := burst;
      }
      last := now;
      if tokens >= 1.0 {
        tokens := tokens - 1.0;
        return true, 0.0;
      }
      var waitSec := (1.0 - tokens) / rate;
      if waitSec < 1.0 {
        waitSec := 1.0;
      }
      return false, waitSec;
    }
  }

  class Limiter {
    const rate: real
    const burst: real
    var buckets: map<string, TokenBucket>

    constructor (rate: real, burst: real)
      requires rate > 0.0 && burst > 0.0
      ensures Valid() && Config() == Limits(rate, burst) && Levels() == map[]
    {
      this.rate, this.burst, this.buckets := rate, burst, map[];
    }

    function Config(): Limits {
      Limits(rate, burst)
    }

    /** No two keys share a bucket object. */
    ghost predicate Valid()
      reads this
    {
      && rate > 0.0 && burst > 0.0
      && forall k1, k2 | k1 in buckets && k2 in buckets && k1 != k2 :: buckets[k1] != buckets[k2]
    }

    ghost function Levels(): map<string, Bucket>
      reads this, buckets.Values
    {
      map k | k in buckets :: buckets[k].Value()
    }

    method Allow(key: string, now: real) returns (allowed: bool, retryAfter: real)
      requires Valid()
      modifies this`buckets, if key in buckets then {buckets[key]} else {}
      ensures Valid()
      ensures var d := Decide(Config(), Lookup(old(Levels()), key), now);
              && Answer(allowed, retryAfter) == d.1
              && Levels() == old(Levels())[key := d.0]
      ensures if old(key in buckets) then buckets == old(buckets)
              else key in buckets && fresh(buckets[key]) && buckets == old(buckets)[key := buckets[key]]
    {
      ghost var d := Decide(Config(), Lookup(Levels(), key), now);
      if key !in buckets {
        Insert(key, now);
        FullBucket(Config(), now);
      }
      allowed, retryAfter := buckets[key].Take(rate, burst, now);
    }

    /** A full bucket for a key that has none. */
    method Insert(key: string, now: real)
      requires Valid() && key !in buckets
      modifies this`buckets
      ensures Valid() && key in buckets && fresh(buckets[key]) && buckets == old(buckets)[key := buckets[key]]
      ensures buckets[key].Value() == Bucket(burst, now)
    {
      var b := new TokenBucket(burst, now);
      buckets := buckets[key := b];
    }
  }

  // ---------------------------------------------------------------- runs

  /** The bucket of a key after calls at these times, starting from `b`. */
  function After(c: Limits, b: Option<Bucket>, times: seq<real>): Option<Bucket>
    requires c.rate > 0.0
  {
    if times == [] then b
    else Some(Decide(c, After(c, b, Front(times)), Last(times)).0)
  }

  function Answers(c: Limits, b: Option<Bucket>, times: seq<real>): (r: seq<Answer>)
    requires c.rate > 0.0
    ensures |r| == |times|
  {
    if times == [] then []
    else Answers(c, b, Front(times)) + [Decide(c, After(c, b, Front(times)), Last(times)).1]
  }

  function Front<T>(s: seq<T>): seq<T>
    requires s != []
  {
    s[..|s| - 1]
  }

  function Last<T>(s: seq<T>): T
    requires s != []
  {
    s[|s| - 1]
  }

  datatype Call = Call(key: string, now: real)

  /** All buckets after a run of calls with any mix of keys. */
  function AfterAll(c: Limits, m: map<string, Bucket>, calls: seq<Call>): map<string, Bucket>
    requires c.rate > 0.0
  {
    if calls == [] then m
    else
      var (before, call) := (AfterAll(c, m, Front(calls)), Last(calls));
      before[call.key := Decide(c, Lookup(before, call.key), call.now).0]
  }

  function AnswersAll(c: Limits, m: map<string, Bucket>, calls: seq<Call>): (r: seq<Answer>)
    requires c.rate > 0.0
    ensures |r| == |calls|
  {
    if calls == [] then []
    else
      var (before, call) := (AfterAll(c, m, Front(calls)), Last(calls));
      AnswersAll(c, m, Front(calls)) + [Decide(c, Lookup(before, call.key), call.now).1]
  }

  /** The times at which `key` calls. */
  function TimesOf(calls: seq<Call>, key: string): seq<real> {
    if calls == [] then []
    else TimesOf(Front(calls), key) + if Last(calls).key == key then [Last(calls).now] else []
  }

  /** The answers that the calls of `key` get. */
  function AnswersOf(calls: seq<Call>, answers: seq<Answer>, key: string): seq<Answer>
    requires |calls| == |answers|
  {
    if calls == [] then []
    else AnswersOf(Front(calls), Front(answers), key) + if Last(calls).key == key then [Last(answers)] else []
  }

  /** In an interleaved run each key gets what it would get alone. */
  lemma {:induction false} KeysAreIsolated(c: Limits, m: map<string, Bucket>, calls: seq<Call>, key: string)
    requires c.rate > 0.0
    ensures Lookup(AfterAll(c, m, calls), key) == After(c, Lookup(m, key), TimesOf(calls, key))
    ensures AnswersOf(calls, AnswersAll(c, m, calls), key) == Answers(c, Lookup(m, key), TimesOf(calls, key))
  {
    if calls != [] {
      var front, last := Front(calls), Last(calls);
      KeysAreIsolated(c, m, front, key);
      var times := TimesOf(front, key);
      assert Front(AnswersAll(c, m, calls)) == AnswersAll(c, m, front);
      if last.key == key {
        assert Front(times + [last.now]) == times;
      } else {
        assert TimesOf(calls, key) == times;
        var answers := AnswersOf(front, AnswersAll(c, m, front), key);
        assert AnswersOf(calls, AnswersAll(c, m, calls), key) == answers + [] == answers;
      }
    }
  }

  // ---------------------------------------------------------------- selections

  /** How many of `sel[i..j]` are taken. */
  function Count(sel: seq<bool>, i: nat, j: nat): nat
    requires i <= j <= |sel|
  {
    if i == j then 0 else Count(sel, i, j - 1) + if sel[j - 1] then 1 else 0
  }

  /** The bucket after the calls before `k`, when exactly the calls in `sel` take a token. */
  function Spent(c: Limits, b: Option<Bucket>, times: seq<real>, sel: seq<bool>, k: nat): Option<Bucket>
    requires k <= |times| == |sel|
  {
    if k == 0 then b
    else
      var now := times[k - 1];
      var level := Level(c, Spent(c, b, times, sel, k - 1), now);
      Some(Bucket(if sel[k - 1] then level - 1.0 else level, now))
  }

  /** Tokens in that bucket when call `k` comes. */
  function LevelAt(c: Limits, b: Option<Bucket>, times: seq<real>, sel: seq<bool>, k: nat): real
    requires k < |times| == |sel|
  {
    Level(c, Spent(c, b, times, sel, k), times[k])
  }

  /** A bucket has a token for every call in `sel`. */
  ghost predicate Affordable(c: Limits, b: Option<Bucket>, times: seq<real>, sel: seq<bool>)
    requires |times| == |sel|
  {
    forall k | 0 <= k < |sel| && sel[k] :: LevelAt(c, b, times, sel, k) >= 1.0
  }

  /** Which calls are admitted. */
  function Grants(c: Limits, b: Option<Bucket>, times: seq<real>): (r: seq<bool>)
    requires c.rate > 0.0
    ensures |r| == |times|
  {
    var answers := Answers(c, b, times);
    seq(|answers|, i requires 0 <= i < |answers| => answers[i].allowed)
  }

  lemma {:induction false} GrantsAt(c: Limits, b: Option<Bucket>, times: seq<real>, k: nat)
    requires c.rate > 0.0 && k <= |times|
    ensures After(c, b, times[..k]) == Spent(c, b, times, Grants(c, b, times), k)
    ensures k < |times| ==>
              (Grants(c, b, times)[k] <==> LevelAt(c, b, times, Grants(c, b, times), k) >= 1.0)
    decreases k
  {
    if k > 0 {
      GrantsAt(c, b, times, k - 1);
      AnswerAt(c, b, times, k - 1);
      assert Front(times[..k]) == times[..k - 1];
    }
    if k < |times| {
      AnswerAt(c, b, times, k);
    }
  }

  lemma {:induction false} AnswerAt(c: Limits, b: Option<Bucket>, times: seq<real>, k: nat)
    requires c.rate > 0.0 && k <= |times|
    ensures k < |times| ==> Answers(c, b, times)[k] == Decide(c, After(c, b, times[..k]), times[k]).1
    decreases |times|
  {
    if k + 1 < |times| {
      AnswerAt(c, b, Front(times), k);
      assert Front(times)[..k] == times[..k];
    } else if k + 1 == |times| {
      assert Front(times) == times[..k];
    }
  }

  // ---------------------------------------------------------------- what a bucket admits

  lemma GainAdd(c: Limits, t0: real, t1: real, t2: real)
    ensures Gain(c, t0, t1) + Gain(c, t1, t2) == Gain(c, t0, t2)
  {
    assert (t1 - t0) * c.rate + (t2 - t1) * c.rate == ((t1 - t0) + (t2 - t1)) * c.rate;
  }

  lemma GainNone(c: Limits, t: real)
    ensures Gain(c, t, t) == 0.0
  {
    assert Gain(c, t, t) == 0.0 * c.rate == 0.0;
  }

  lemma GainNonNegative(c: Limits, t0: real, t1: real)
    requires c.rate > 0.0 && t0 <= t1
    ensures Gain(c, t0, t1) >= 0.0
  {}

  /** Calls `i` to `j` of a selection that takes call `j` keep to the rate. */
  ghost predicate InWindow(c: Limits, times: seq<real>, sel: seq<bool>, i: nat, j: nat)
    requires i <= j < |times| == |sel|
  {
    Count(sel, i, j + 1) as real <= c.burst + Gain(c, times[i], times[j])
  }

  /**
   The requests selected between any two calls, the later one selected, number at most
   the burst and what the rate gives in between.
   */
  ghost predicate WindowBounded(c: Limits, times: seq<real>, sel: seq<bool>)
    requires |times| == |sel|
  {
    forall i, j | 0 <= i <= j < |sel| && sel[j] :: InWindow(c, times, sel, i, j)
  }

  lemma {:induction false} LevelBound(c: Limits, b: Option<Bucket>, times: seq<real>, sel: seq<bool>, i: nat, j: nat)
    requires i <= j < |times| == |sel|
    ensures LevelAt(c, b, times, sel, j) <= c.burst + Gain(c, times[i], times[j]) - Count(sel, i, j) as real
    decreases j
  {
    if i == j {
      GainNone(c, times[i]);
    } else {
      LevelBound(c, b, times, sel, i, j - 1);
      GainAdd(c, times[i], times[j - 1], times[j]);
    }
  }

  lemma {:induction false} LevelTight(c: Limits, times: seq<real>, sel: seq<bool>, j: nat) returns (i: nat)
    requires j < |times| == |sel|
    ensures i <= j
    ensures LevelAt(c, None, times, sel, j) == c.burst + Gain(c, times[i], times[j]) - Count(sel, i, j) as real
    decreases j
  {
    i := j;
    GainNone(c, times[j]);
    if j > 0 && LevelAt(c, None, times, sel, j) != c.burst {
      i := LevelTight(c, times, sel, j - 1);
      GainAdd(c, times[i], times[j - 1], times[j]);
    }
  }

  /** A full bucket can pay for exactly the selections that keep to the rate in every window. */
  lemma AffordableIffWindowBounded(c: Limits, times: seq<real>, sel: seq<bool>)
    requires |times| == |sel|
    ensures Affordable(c, None, times, sel) <==> WindowBounded(c, times, sel)
  {
    if Affordable(c, None, times, sel) {
      forall i, j | 0 <= i <= j < |sel| && sel[j]
        ensures InWindow(c, times, sel, i, j)
      {
        LevelBound(c, None, times, sel, i, j);
      }
    }
    if WindowBounded(c, times, sel) {
      forall j | 0 <= j < |sel| && sel[j]
        ensures LevelAt(c, None, times, sel, j) >= 1.0
      {
        var i := LevelTight(c, times, sel, j);
        assert InWindow(c, times, sel, i, j);
      }
    }
  }

  /** What is admitted keeps to the rate in every window, whatever the bucket held before. */
  lemma GrantsAreWindowBounded(c: Limits, b: Option<Bucket>, times: seq<real>)
    requires c.rate > 0.0
    ensures WindowBounded(c, times, Grants(c, b, times))
  {
    var sel := Grants(c, b, times);
    forall i, j | 0 <= i <= j < |sel| && sel[j]
      ensures InWindow(c, times, sel, i, j)
    {
      GrantsAt(c, b, times, j);
      LevelBound(c, b, times, sel, i, j);
    }
  }

  lemma {:induction false} GrantsAhead(c: Limits, b: Option<Bucket>, times: seq<real>, sel: seq<bool>, k: nat)
    requires c.rate > 0.0 && k <= |times| == |sel| && Affordable(c, b, times, sel)
    ensures Count(sel, 0, k) <= Count(Grants(c, b, times), 0, k)
    ensures k < |times| ==>
              LevelAt(c, b, times, sel, k) + Count(sel, 0, k) as real
              <= LevelAt(c, b, times, Grants(c, b, times), k) + Count(Grants(c, b, times), 0, k) as real
    decreases k
  {
    if k > 0 {
      GrantsAhead(c, b, times, sel, k - 1);
      GrantsAt(c, b, times, k - 1);
    }
  }

  /**
   Admitting greedily is optimal: at every point of the run, no selection that a bucket
   with the same start could pay for has admitted more.
   */
  lemma GreedyIsOptimal(c: Limits, b: Option<Bucket>, times: seq<real>, sel: seq<bool>, k: nat)
    requires c.rate > 0.0 && k <= |times| == |sel| && Affordable(c, b, times, sel)
    ensures Affordable(c, b, times, Grants(c, b, times))
    ensures Count(sel, 0, k) <= Count(Grants(c, b, times), 0, k)
  {
    forall j | 0 <= j < |times| && Grants(c, b, times)[j]
      ensures LevelAt(c, b, times, Grants(c, b, times), j) >= 1.0
    {
      GrantsAt(c, b, times, j);
    }
    GrantsAhead(c, b, times, sel, k);
  }

  /**
   For a fresh key: the admitted calls keep to the rate in every window, and at no point of
   the run has any selection that does so admitted more.
   */
  lemma GrantsAreBest(c: Limits, times: seq<real>, sel: seq<bool>, k: nat)
    requires c.rate > 0.0 && k <= |times| == |sel| && WindowBounded(c, times, sel)
    ensures WindowBounded(c, times, Grants(c, None, times))
    ensures Count(sel, 0, k) <= Count(Grants(c, None, times), 0, k)
  {
    AffordableIffWindowBounded(c, times, sel);
    GreedyIsOptimal(c, None, times, sel, k);
    GrantsAreWindowBounded(c, None, times);
  }

  // ---------------------------------------------------------------- denied calls

  ghost predicate NonDecreasing(times: seq<real>) {
    forall i, j | 0 <= i <= j < |times| :: times[i] <= times[j]
  }

  /** From time `from` on, the two buckets cannot be told apart. */
  ghost predicate Alike(c: Limits, b1: Option<Bucket>, b2: Option<Bucket>, from: real) {
    forall now | now >= from :: Level(c, b1, now) == Level(c, b2, now)
  }

  /** Refills compose: a refill in between changes no later level. */
  lemma RefillsCompose(c: Limits, b: Option<Bucket>, t1: real, t2: real)
    requires c.rate > 0.0 && t1 <= t2
    ensures Level(c, Some(Bucket(Level(c, b, t1), t1)), t2) == Level(c, b, t2)
  {
    GainNonNegative(c, t1, t2);
    if b.Some? {
      GainAdd(c, b.value.last, t1, t2);
    }
  }

  /** The elements of `s` that are kept. */
  function Select<T>(s: seq<T>, keep: seq<bool>): seq<T>
    requires |s| == |keep|
  {
    if s == [] then [] else Select(Front(s), Front(keep)) + if Last(keep) then [Last(s)] else []
  }

  /** Every admitted call is kept. */
  ghost predicate KeepsGrants(c: Limits, b: Option<Bucket>, times: seq<real>, keep: seq<bool>)
    requires c.rate > 0.0 && |times| == |keep|
  {
    forall i | 0 <= i < |times| && Answers(c, b, times)[i].allowed :: keep[i]
  }

  /** The kept calls alone get the same answers and leave a bucket that cannot be told apart. */
  ghost predicate Invisible(c: Limits, b: Option<Bucket>, times: seq<real>, keep: seq<bool>)
    requires c.rate > 0.0 && |times| == |keep|
  {
    && Answers(c, b, Select(times, keep)) == Select(Answers(c, b, times), keep)
    && (times != [] ==> Alike(c, After(c, b, Select(times, keep)), After(c, b, times), Last(times)))
  }

  /** Leaving out any denied calls changes no other answer and no later one. */
  lemma {:induction false} DeniedCallsAreInvisible(c: Limits, b: Option<Bucket>, times: seq<real>, keep: seq<bool>)
    requires c.rate > 0.0 && |times| == |keep| && NonDecreasing(times) && KeepsGrants(c, b, times, keep)
    ensures Invisible(c, b, times, keep)
    decreases |times|
  {
    if times != [] {
      KeepsGrantsFront(c, b, times, keep);
      DeniedCallsAreInvisible(c, b, Front(times), Front(keep));
      InvisibleStep(c, b, times, keep);
    } else {
      assert Select(times, keep) == [];
    }
  }

  lemma KeepsGrantsFront(c: Limits, b: Option<Bucket>, times: seq<real>, keep: seq<bool>)
    requires c.rate > 0.0 && |times| == |keep| && times != [] && KeepsGrants(c, b, times, keep)
    ensures KeepsGrants(c, b, Front(times), Front(keep))
    ensures Decide(c, After(c, b, Front(times)), Last(times)).1.allowed ==> Last(keep)
  {
    var n := |times| - 1;
    forall i | 0 <= i < n
      ensures Answers(c, b, times)[i] == Answers(c, b, Front(times))[i]
    {}
    assert Answers(c, b, times)[n] == Decide(c, After(c, b, Front(times)), Last(times)).1;
  }

  lemma InvisibleStep(c: Limits, b: Option<Bucket>, times: seq<real>, keep: seq<bool>)
    requires c.rate > 0.0 && |times| == |keep| && times != [] && NonDecreasing(times)
    requires Invisible(c, b, Front(times), Front(keep))
    requires Decide(c, After(c, b, Front(times)), Last(times)).1.allowed ==> Last(keep)
    ensures Invisible(c, b, times, keep)
  {
    var front, now := Front(times), Last(times);
    var some := Select(front, Front(keep));
    var part, whole := After(c, b, some), After(c, b, front);
    assert Alike(c, part, whole, now) by {
      assert front == [] ==> part == whole;
      assert front != [] ==> Last(front) <= now;
    }
    assert Front(Answers(c, b, times)) == Answers(c, b, front);
    if Last(keep) {
      KeepCall(c, b, some, part, whole, now);
      assert Select(times, keep) == some + [now];
    } else {
      DropDenied(c, part, whole, now);
      assert Select(times, keep) == some;
      assert Select(Answers(c, b, times), keep) == Select(Answers(c, b, front), Front(keep));
    }
  }

  lemma KeepCall(c: Limits, b: Option<Bucket>, some: seq<real>, part: Option<Bucket>, whole: Option<Bucket>, now: real)
    requires c.rate > 0.0 && part == After(c, b, some) && Alike(c, part, whole, now)
    ensures After(c, b, some + [now]) == Some(Decide(c, whole, now).0)
    ensures Answers(c, b, some + [now]) == Answers(c, b, some) + [Decide(c, whole, now).1]
  {
    assert Front(some + [now]) == some;
    assert Level(c, part, now) == Level(c, whole, now);
  }

  lemma DropDenied(c: Limits, part: Option<Bucket>, whole: Option<Bucket>, now: real)
    requires c.rate > 0.0 && Alike(c, part, whole, now) && !Decide(c, whole, now).1.allowed
    ensures Alike(c, part, Some(Decide(c, whole, now).0), now)
  {
    forall t | t >= now
      ensures Level(c, part, t) == Level(c, Some(Decide(c, whole, now).0), t)
    {
      RefillsCompose(c, whole, now, t);
    }
  }

  // ---------------------------------------------------------------- Retry-After

  /** The whole seconds printed in the Retry-After header. */
  function Printed(a: Answer): int {
    a.retryAfter.Floor
  }

  /**
   A fresh key calls at `ts`, the last of which is denied, then in vain at `ms`, then at
   `t`, when the seconds printed at the denial have passed.
   */
  ghost predicate Waited(c: Limits, ts: seq<real>, ms: seq<real>, t: real)
    requires c.rate > 0.0
  {
    && ts != [] && NonDecreasing(ts + ms + [t])
    && !Last(Answers(c, None, ts)).allowed
    && (forall a | a in Answers(c, After(c, None, ts), ms) :: !a.allowed)
    && t >= Last(ts) + Printed(Last(Answers(c, None, ts))) as real
  }

  /** Waiting as long as the header says is always enough. */
  ghost predicate HeaderSuffices(c: Limits)
    requires c.rate > 0.0
  {
    forall ts, ms, t | Waited(c, ts, ms, t) :: Decide(c, After(c, After(c, None, ts), ms), t).1.allowed
  }

  lemma LessGain(c: Limits, t1: real, t2: real, x: real)
    requires c.rate > 0.0 && x >= 0.0 && t2 - t1 < x / c.rate
    ensures Gain(c, t1, t2) < x
  {
    assert x / c.rate * c.rate == x;
    assert (t2 - t1) * c.rate < x / c.rate * c.rate;
  }

  /** At time `t` a bucket of level `tokens` at time `now` has less than one token. */
  ghost predicate Lacking(c: Limits, b: Bucket, t: real) {
    Level(c, Some(b), t) < 1.0
  }

  /**
   A refused call is told to wait at least a second; if it is told to wait longer, not one
   moment before that has a token; and then there is one, if a bucket can hold it.
   */
  lemma WaitIsLeast(c: Limits, b: Option<Bucket>, now: real)
    requires c.rate > 0.0
    ensures var (k, a) := Decide(c, b, now);
            && (a.allowed ==> a.retryAfter == 0.0)
            && (!a.allowed ==>
                  && a.retryAfter >= 1.0
                  && (a.retryAfter > 1.0 ==> forall t | now <= t < now + a.retryAfter :: Lacking(c, k, t))
                  && (c.burst >= 1.0 ==> !Lacking(c, k, now + a.retryAfter)))
  {
    var (k, a) := Decide(c, b, now);
    if !a.allowed {
      var missing := 1.0 - k.tokens;
      if a.retryAfter > 1.0 {
        forall t | now <= t < now + a.retryAfter
          ensures Lacking(c, k, t)
        {
          LessGain(c, now, t, missing);
        }
      }
      GainOver(c, now, missing);
      GainGrows(c, now, now + missing / c.rate, now + a.retryAfter);
    }
  }

  /** So are the printed seconds, but for the part of a second that is cut off. */
  lemma PrintedIsLeast(c: Limits, b: Option<Bucket>, now: real)
    requires c.rate > 0.0 && !Decide(c, b, now).1.allowed
    ensures var (k, a) := Decide(c, b, now);
            && Printed(a) >= 1
            && (Printed(a) > 1 ==> forall t | now <= t < now + Printed(a) as real :: Lacking(c, k, t))
            && (c.burst >= 1.0 ==> !Lacking(c, k, now + Printed(a) as real + 1.0))
  {
    var (k, a) := Decide(c, b, now);
    WaitIsLeast(c, b, now);
    GainGrows(c, now, now + a.retryAfter, now + Printed(a) as real + 1.0);
  }

  lemma GainGrows(c: Limits, t0: real, t1: real, t2: real)
    requires c.rate > 0.0 && t1 <= t2
    ensures Gain(c, t0, t1) <= Gain(c, t0, t2)
  {
    assert (t1 - t0) * c.rate <= (t2 - t0) * c.rate;
  }

  lemma {:induction false} TokensStayNonNegative(c: Limits, ts: seq<real>)
    requires c.rate > 0.0 && c.burst > 0.0 && NonDecreasing(ts)
    ensures After(c, None, ts).Some? ==> After(c, None, ts).value.tokens >= 0.0 && After(c, None, ts).value.last == Last(ts)
    decreases |ts|
  {
    if ts != [] {
      TokensStayNonNegative(c, Front(ts));
      if Front(ts) != [] {
        assert Last(Front(ts)) <= Last(ts);
        GainNonNegative(c, Last(Front(ts)), Last(ts));
      }
    }
  }

  lemma {:induction false} DenialsKeepLevel(c: Limits, b: Option<Bucket>, ms: seq<real>, t: real)
    requires c.rate > 0.0 && NonDecreasing(ms + [t])
    requires forall a | a in Answers(c, b, ms) :: !a.allowed
    ensures Level(c, After(c, b, ms), t) == Level(c, b, t)
    decreases |ms|
  {
    if ms != [] {
      var front, m := Front(ms), Last(ms);
      assert (ms + [t])[|front|] == m && (ms + [t])[|ms|] == t;
      var answer := Decide(c, After(c, b, front), m).1;
      assert Answers(c, b, ms) == Answers(c, b, front) + [answer];
      assert answer in Answers(c, b, ms);
      RefillsCompose(c, After(c, b, front), m, t);
      assert front + [t] == ms[..|front|] + [t];
      assert forall i, j | 0 <= i <= j < |front + [t]| ::
          (front + [t])[i] == (ms + [t])[if i < |front| then i else |ms|]
          && (front + [t])[j] == (ms + [t])[if j < |front| then j else |ms|];
      DenialsKeepLevel(c, b, front, t);
    }
  }

  lemma WaitedIsAllowed(c: Limits, ts: seq<real>, ms: seq<real>, t: real)
    requires c.rate >= 1.0 && c.burst >= 1.0 && Waited(c, ts, ms, t)
    ensures Decide(c, After(c, After(c, None, ts), ms), t).1.allowed
  {
    var all := ts + ms + [t];
    assert NonDecreasing(ts) by {
      assert forall i | 0 <= i < |ts| :: ts[i] == all[i];
    }
    assert NonDecreasing(ms + [t]) by {
      assert forall i | 0 <= i < |ms + [t]| :: (ms + [t])[i] == all[|ts| + i];
    }
    TokensStayNonNegative(c, ts);
    DenialsKeepLevel(c, After(c, None, ts), ms, t);
    OneSecondIsEnough(c, After(c, None, Front(ts)), Last(ts), t);
  }

  lemma OneSecondIsEnough(c: Limits, b: Option<Bucket>, denied: real, t: real)
    requires c.rate >= 1.0 && c.burst >= 1.0 && var (k, a) := Decide(c, b, denied);
                                             !a.allowed && k.tokens >= 0.0 && t >= denied + Printed(a) as real
    ensures Level(c, Some(Decide(c, b, denied).0), t) >= 1.0
  {
    var level := Decide(c, b, denied).0.tokens;
    QuotientAtMostOne(1.0 - level, c.rate);
    assert Printed(Decide(c, b, denied).1) == 1;
    ProductAtLeastOne(t - denied, c.rate);
  }

  lemma QuotientAtMostOne(x: real, y: real)
    requires y >= 1.0 && x <= 1.0
    ensures x / y <= 1.0
  {}

  lemma ProductAtLeastOne(x: real, y: real)
    requires x >= 1.0 && y >= 1.0
    ensures x * y >= 1.0
  {}

  /** The time in which `x` tokens are refilled. */
  lemma GainOver(c: Limits, t: real, x: real)
    requires c.rate > 0.0
    ensures Gain(c, t, t + x / c.rate) == x
  {
    assert x / c.rate * c.rate == x;
  }

  /** `n` calls at once empty a fresh bucket by `n` tokens. */
  lemma {:induction false} Drain(c: Limits, n: nat)
    requires c.rate > 0.0 && n as real <= c.burst
    ensures var zeros := seq(n, _ => 0.0);
            n > 0 ==> After(c, None, zeros) == Some(Bucket(c.burst - n as real, 0.0))
  {
    if n > 0 {
      Drain(c, n - 1);
      assert Front(seq(n, _ => 0.0)) == seq(n - 1, _ => 0.0);
      GainNone(c, 0.0);
    }
  }

  /** A wait between one second and two that starts from a level of at least 0. */
  lemma WaitBetween(rate: real) returns (wait: real)
    requires 0.0 < rate < 1.0
    ensures 1.0 < wait < 2.0 && wait * rate <= 1.0 && wait * rate / rate == wait
  {
    if rate <= 0.5 {
      wait := 1.5;
    } else {
      var r := 1.0 / rate;
      assert r * rate == 1.0;
      assert 1.0 < r <= 2.0;
      wait := (1.0 + r) / 2.0;
      assert wait * rate == (rate + r * rate) / 2.0;
    }
    assert wait * rate / rate == wait;
  }

  /** From empty at `t1`: denied with a wait of less than two seconds, denied again after one. */
  lemma DeniedTwice(c: Limits, t1: real, wait: real) returns (t2: real)
    requires 0.0 < c.rate < 1.0 && c.burst >= 1.0
    requires 1.0 < wait < 2.0 && wait * c.rate <= 1.0 && wait * c.rate / c.rate == wait
    ensures t2 >= t1
    ensures var (k, a) := Decide(c, Some(Bucket(0.0, t1)), t2);
            a == Answer(false, wait) && !Decide(c, Some(k), t2 + 1.0).1.allowed
  {
    var level := 1.0 - wait * c.rate;
    var dt := level / c.rate;
    t2 := t1 + dt;
    GainOver(c, t1, level);
    QuotientNonNegative(level, c.rate);
    ProductMore(wait, c.rate);
    assert Level(c, Some(Bucket(0.0, t1)), t2) == level;
    assert 1.0 - level == wait * c.rate;
    var k := Bucket(level, t2);
    assert Decide(c, Some(Bucket(0.0, t1)), t2).0 == k;
    OneSecondGain(c, t2);
    assert Level(c, Some(k), t2 + 1.0) == level + c.rate;
  }

  lemma OneSecondGain(c: Limits, t: real)
    ensures Gain(c, t, t + 1.0) == c.rate
  {}

  lemma QuotientNonNegative(x: real, y: real)
    requires x >= 0.0 && y > 0.0
    ensures x / y >= 0.0
  {}

  lemma ProductMore(x: real, y: real)
    requires x > 1.0 && y > 0.0
    ensures x * y > y
  {}

  /** A fresh bucket is empty after these calls. */
  lemma EmptyBucket(c: Limits) returns (ts: seq<real>, t1: real)
    requires c.rate > 0.0 && c.burst >= 1.0
    ensures NonDecreasing(ts) && ts != [] && Last(ts) == t1 && After(c, None, ts) == Some(Bucket(0.0, t1))
  {
    var n := c.burst.Floor;
    var zeros := seq(n, _ => 0.0);
    Drain(c, n);
    var missing := 1.0 - (c.burst - n as real);
    t1 := 0.0 + missing / c.rate;
    GainOver(c, 0.0, missing);
    assert missing / c.rate >= 0.0;
    ts := zeros + [t1];
    assert Front(ts) == zeros;
  }

  /** Below one token a second, one printed second can be too little. */
  lemma ShortPrint(c: Limits) returns (ts: seq<real>, t: real)
    requires 0.0 < c.rate < 1.0 && c.burst >= 1.0
    ensures Waited(c, ts, [], t) && !Decide(c, After(c, After(c, None, ts), []), t).1.allowed
  {
    var empty, t1 := EmptyBucket(c);
    var wait := WaitBetween(c.rate);
    var t2 := DeniedTwice(c, t1, wait);
    ts, t := empty + [t2], t2 + 1.0;
    assert Front(ts) == empty;
    assert NonDecreasing(ts + [] + [t]) by {
      assert ts + [] + [t] == empty + [t2, t];
    }
    assert Last(Answers(c, None, ts)) == Answer(false, wait);
  }

  /** The header is always enough exactly when a second brings a token and a bucket can hold one. */
  lemma HeaderSufficesIff(c: Limits)
    requires c.rate > 0.0 && c.burst > 0.0
    ensures HeaderSuffices(c) <==> c.rate >= 1.0 && c.burst >= 1.0
  {
    if c.rate >= 1.0 && c.burst >= 1.0 {
      forall ts, ms, t | Waited(c, ts, ms, t)
        ensures Decide(c, After(c, After(c, None, ts), ms), t).1.allowed
      {
        WaitedIsAllowed(c, ts, ms, t);
      }
    } else if c.burst >= 1.0 {
      var ts, t := ShortPrint(c);
    } else {
      var ts, t := [0.0], Printed(Decide(c, None, 0.0).1) as real;
      assert Answers(c, None, ts) == [Decide(c, None, 0.0).1];
      assert Waited(c, ts, [], t);
      assert !Decide(c, After(c, After(c, None, ts), []), t).1.allowed;
    }
  }
}
