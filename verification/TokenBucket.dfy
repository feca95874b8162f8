/** The token bucket that limits entropy requests. Instants are whole nanoseconds of an arbitrary
    clock, tokens are reals. */
module TokenBucket {
  import opened Samples

  const SECOND: int := 1_000_000_000

  datatype Bucket = Bucket(capacity: real, tokens: real, rate: real, last: int) {
    predicate Valid() { 0.0 <= tokens <= capacity && capacity > 0.0 && rate > 0.0 }
  }

  /** A full bucket; a rate that is not positive becomes 1, a burst that is not positive the rate. */
  function FullBucket(rate: real, burst: real, now: int): (b: Bucket)
    ensures b.Valid() && b.tokens == b.capacity && b.last == now
    ensures b.rate == if rate <= 0.0 then 1.0 else rate
    ensures b.capacity == if burst <= 0.0 then b.rate else burst
  {
    var r := if rate <= 0.0 then 1.0 else rate;
    var c := if burst <= 0.0 then r else burst;
    Bucket(c, c, r, now)
  }

  /** Tokens that accrue in a number of nanoseconds. */
  function Accrued(rate: real, ns: int): real { ns as real / SECOND as real * rate }

  function RMin(a: real, b: real): real { if a < b then a else b }

  function Refilled(b: Bucket, now: int): Bucket {
    if now <= b.last then b
    else b.(tokens := RMin(b.capacity, b.tokens + Accrued(b.rate, now - b.last)), last := now)
  }

  /** One call: the bucket after it, the verdict, and the wait in nanoseconds that goes with a denial. */
  datatype Verdict = Verdict(admitted: bool, wait: int)

  function Request(b: Bucket, now: int): (Bucket, Verdict)
    requires b.Valid()
  {
    var full := Refilled(b, now);
    if full.tokens >= 1.0 then (full.(tokens := full.tokens - 1.0), Verdict(true, 0))
    else (full, Verdict(false, Wait(full)))
  }

  /** Time until the missing fraction of a token has accrued, in nanoseconds, uncut. */
  function ExactWait(b: Bucket): real
    requires b.rate > 0.0
  {
    (1.0 - b.tokens) / b.rate * SECOND as real
  }

  /** The wait that is reported: cut to whole nanoseconds, but a second at least. */
  function Wait(b: Bucket): int
    requires b.rate > 0.0
  {
    Max(SECOND, ExactWait(b).Floor)
  }

  // ---- Arithmetic of accrual ----

  lemma AccruedAdds(rate: real, a: int, b: int)
    ensures Accrued(rate, a + b) == Accrued(rate, a) + Accrued(rate, b)
  {
  }

  lemma AccruedGrows(rate: real, a: int, b: int)
    requires rate > 0.0 && a <= b
    ensures Accrued(rate, a) <= Accrued(rate, b)
  {
    AccruedAdds(rate, a, b - a);
    AccruedNonNegative(rate, b - a);
  }

  lemma AccruedNonNegative(rate: real, a: int)
    requires rate > 0.0 && a >= 0
    ensures Accrued(rate, a) >= 0.0
  {
    var q := a as real / SECOND as real;
    assert q >= 0.0;
    assert q * rate >= 0.0;
  }

  // ---- Runs ----

  predicate NonDecreasing(times: seq<int>) {
    forall i, j :: 0 <= i <= j < |times| ==> times[i] <= times[j]
  }

  lemma RequestKeepsValid(b: Bucket, now: int)
    requires b.Valid()
    ensures Request(b, now).0.Valid()
    ensures Refilled(b, now).Valid()
  {
    hide Accrued;
    if now > b.last {
      AccruedNonNegative(b.rate, now - b.last);
    }
  }

  /** The bucket after a sequence of calls. */
  function After(b: Bucket, times: seq<int>): (r: Bucket)
    requires b.Valid()
    ensures r.Valid()
    decreases |times|
  {
    hide Request;
    if times == [] then b
    else
      RequestKeepsValid(b, times[0]);
      After(Request(b, times[0]).0, times[1..])
  }

  /** What a sequence of calls is told. */
  function Verdicts(b: Bucket, times: seq<int>): (v: seq<Verdict>)
    requires b.Valid()
    ensures |v| == |times|
    decreases |times|
  {
    hide Request;
    if times == [] then []
    else
      RequestKeepsValid(b, times[0]);
      [Request(b, times[0]).1] + Verdicts(Request(b, times[0]).0, times[1..])
  }

  function Admitted(v: seq<Verdict>): nat {
    if v == [] then 0 else (if v[0].admitted then 1 else 0) + Admitted(v[1..])
  }

  lemma {:induction false} RunsAppend(b: Bucket, a: seq<int>, c: seq<int>)
    requires b.Valid()
    ensures After(b, a + c) == After(After(b, a), c)
    ensures Verdicts(b, a + c) == Verdicts(b, a) + Verdicts(After(b, a), c)
    decreases |a|
  {
    hide Request;
    if a == [] {
      assert a + c == c;
    } else {
      RequestKeepsValid(b, a[0]);
      assert (a + c)[0] == a[0] && (a + c)[1..] == a[1..] + c;
      RunsAppend(Request(b, a[0]).0, a[1..], c);
    }
  }

  /** Tokens stay between none and the capacity, for every clock. */
  lemma TokensStayWithinCapacity(rate: real, burst: real, start: int, times: seq<int>)
    ensures var b := After(FullBucket(rate, burst, start), times);
            0.0 <= b.tokens <= b.capacity
  {
  }

  // ---- The window bound ----

  /** Admissions and what is left in the bucket are paid for by what was there and what accrued. */
  lemma {:induction false} SpendingIsCovered(b: Bucket, times: seq<int>, now: int)
    requires b.Valid() && NonDecreasing(times)
    requires times != [] ==> times[|times| - 1] <= now
    requires b.last <= now
    ensures var r := After(b, times);
            && Admitted(Verdicts(b, times)) as real + r.tokens + Accrued(r.rate, now - r.last)
               <= b.tokens + Accrued(b.rate, now - b.last)
            && r.last <= now && r.rate == b.rate && r.capacity == b.capacity
    decreases |times|
  {
    hide Accrued;
    if times != [] {
      RequestKeepsValid(b, times[0]);
      var b' := Request(b, times[0]).0;
      SpendingIsCovered(b', times[1..], now);
      AccruedAdds(b.rate, b'.last - b.last, now - b'.last);
      if times[0] <= b.last {
        assert b'.last == b.last;
      }
    }
  }

  /** From any bucket, calls between two instants admit at most the capacity plus what accrues. */
  lemma BurstBound(s: Bucket, window: seq<int>)
    requires s.Valid() && window != [] && NonDecreasing(window)
    ensures Admitted(Verdicts(s, window)) as real <=
            s.capacity + Accrued(s.rate, window[|window| - 1] - window[0])
  {
    hide Accrued, Wait, Request, Verdicts, After, Admitted;
    var first, end := window[0], window[|window| - 1];
    var full := Refilled(s, first);
    RefillOnce(s, window);
    if full.last <= end {
      SpendingIsCovered(full, window, end);
      AccruedGrows(s.rate, end - full.last, end - first);
      AccruedNonNegative(s.rate, end - After(full, window).last);
    } else {
      StaleClock(full, window);
      AccruedNonNegative(s.rate, end - first);
    }
  }

  /** Calls of one stretch of a run, whatever came before it: at most the capacity plus what
      accrues between its first and last call is admitted. */
  lemma {:induction false} WindowBound(b: Bucket, before: seq<int>, window: seq<int>)
    requires b.Valid() && window != [] && NonDecreasing(window)
    ensures var v := Verdicts(b, before + window)[|before|..];
            Admitted(v) as real <= b.capacity + Accrued(b.rate, window[|window| - 1] - window[0])
  {
    hide Accrued, Refilled, Request, Admitted;
    RunsAppend(b, before, window);
    SameLimits(b, before);
    assert Verdicts(b, before + window)[|before|..] == Verdicts(After(b, before), window);
    BurstBound(After(b, before), window);
  }

  lemma {:induction false} SameLimits(b: Bucket, times: seq<int>)
    requires b.Valid()
    ensures After(b, times).capacity == b.capacity && After(b, times).rate == b.rate
    decreases |times|
  {
    hide Accrued;
    if times != [] {
      RequestKeepsValid(b, times[0]);
      SameLimits(Request(b, times[0]).0, times[1..]);
    }
  }

  /** Refilling just before a call at the same instant changes nothing. */
  lemma RefillOnce(b: Bucket, times: seq<int>)
    requires b.Valid() && times != []
    ensures Refilled(b, times[0]).Valid()
    ensures Verdicts(Refilled(b, times[0]), times) == Verdicts(b, times)
    ensures After(Refilled(b, times[0]), times) == After(b, times)
  {
    hide Accrued;
    RequestKeepsValid(b, times[0]);
    var full := Refilled(b, times[0]);
    assert Refilled(full, times[0]) == full;
  }

  /** While the clock stays behind the last refill nothing accrues. */
  lemma {:induction false} StaleClock(b: Bucket, times: seq<int>)
    requires b.Valid() && forall i :: 0 <= i < |times| ==> times[i] <= b.last
    ensures Admitted(Verdicts(b, times)) as real <= b.tokens
    decreases |times|
  {
    hide Accrued;
    if times != [] {
      RequestKeepsValid(b, times[0]);
      StaleClock(Request(b, times[0]).0, times[1..]);
    }
  }

  // ---- What a call finds, exactly ----

  /** k calls at the instant u. */
  function Burst(u: int, k: nat): (times: seq<int>)
    ensures |times| == k && forall i :: 0 <= i < k ==> times[i] == u
  {
    if k == 0 then [] else [u] + Burst(u, k - 1)
  }

  lemma {:induction false} BurstWithoutRefill(b: Bucket, u: int, k: nat)
    requires b.Valid() && u <= b.last
    ensures Admitted(Verdicts(b, Burst(u, k))) == Min(k, b.tokens.Floor)
    ensures After(b, Burst(u, k)) == b.(tokens := b.tokens - Min(k, b.tokens.Floor) as real)
    decreases k
  {
    hide Accrued, Wait;
    if k > 0 {
      assert Burst(u, k)[0] == u && Burst(u, k)[1..] == Burst(u, k - 1);
      RequestKeepsValid(b, u);
      BurstWithoutRefill(Request(b, u).0, u, k - 1);
    }
  }

  /** At any instant the bucket holds what it held plus what accrued since, as far as the capacity goes;
      as many calls are admitted as there are whole tokens, and each takes one. */
  lemma {:induction false} BurstIsServedExactly(b: Bucket, u: int, k: nat)
    requires b.Valid()
    ensures var due := b.tokens + b.rate * Max(0, u - b.last) as real / 1_000_000_000.0;
            var level := if due < b.capacity then due else b.capacity;
            && Admitted(Verdicts(b, Burst(u, k))) == Min(k, level.Floor)
            && (k > 0 ==>
                After(b, Burst(u, k)) ==
                Bucket(b.capacity, level - Min(k, level.Floor) as real, b.rate, Max(b.last, u)))
  {
    hide Wait, Request, Verdicts, After;
    RequestKeepsValid(b, u);
    LevelNonNegative(b, u);
    if k > 0 {
      var full := Refilled(b, u);
      RefilledLevel(b, u);
      RefillOnce(b, Burst(u, k));
      BurstWithoutRefill(full, u, k);
    } else {
      assert Verdicts(b, []) == [] by { NoCalls(b); }
    }
  }

  lemma NoCalls(b: Bucket)
    requires b.Valid()
    ensures Verdicts(b, []) == [] && After(b, []) == b
  {
  }

  lemma LevelNonNegative(b: Bucket, u: int)
    requires b.Valid()
    ensures b.rate * Max(0, u - b.last) as real / 1_000_000_000.0 >= 0.0
  {
    assert b.rate * Max(0, u - b.last) as real >= 0.0;
  }

  lemma RefilledLevel(b: Bucket, u: int)
    requires b.Valid()
    ensures var due := b.tokens + b.rate * Max(0, u - b.last) as real / 1_000_000_000.0;
            Refilled(b, u) ==
            Bucket(b.capacity, if due < b.capacity then due else b.capacity, b.rate, Max(b.last, u))
  {
    var n := Max(0, u - b.last) as real;
    assert n / SECOND as real * b.rate == b.rate * n / 1_000_000_000.0;
  }

  /** So a bucket left idle until its capacity has accrued admits as many calls in a row as its capacity
      has whole tokens, drained or not. */
  lemma {:induction false} IdleBucketFills(b: Bucket, u: int)
    requires b.Valid() && u >= b.last && b.rate * (u - b.last) as real >= b.capacity * 1_000_000_000.0
    ensures Admitted(Verdicts(b, Burst(u, b.capacity.Floor))) == b.capacity.Floor
  {
    hide Request, Verdicts, After, Burst, Admitted;
    BurstIsServedExactly(b, u, b.capacity.Floor);
    var x := b.rate * (u - b.last) as real;
    assert x / 1_000_000_000.0 >= b.capacity;
  }

  // ---- Greedy is optimal ----

  /** A policy drawing on the same bucket: it may decline, but draws only when a token is there. */
  predicate Feasible(b: Bucket, times: seq<int>, draws: seq<bool>)
    requires |draws| == |times|
    decreases |times|
  {
    times == [] ||
    (var full := Refilled(b, times[0]);
     (draws[0] ==> full.tokens >= 1.0) &&
     Feasible(if draws[0] then full.(tokens := full.tokens - 1.0) else full, times[1..], draws[1..]))
  }

  function Drawn(draws: seq<bool>): nat {
    if draws == [] then 0 else (if draws[0] then 1 else 0) + Drawn(draws[1..])
  }

  /** The lead of the greedy bucket in admissions makes up for any token it is short of. */
  lemma {:induction false} LeadCoversShortage(g: Bucket, p: Bucket, lead: nat, times: seq<int>, draws: seq<bool>)
    requires g.Valid() && |draws| == |times| && Feasible(p, times, draws)
    requires g.capacity == p.capacity && g.rate == p.rate && g.last == p.last && p.tokens <= p.capacity
    requires g.tokens + lead as real >= p.tokens
    ensures Drawn(draws) <= lead + Admitted(Verdicts(g, times))
    decreases |times|
  {
    hide Accrued;
    if times != [] {
      RequestKeepsValid(g, times[0]);
      var g1, p1 := Refilled(g, times[0]), Refilled(p, times[0]);
      assert g1.tokens + lead as real >= p1.tokens;
      var g2 := Request(g, times[0]).0;
      var p2 := if draws[0] then p1.(tokens := p1.tokens - 1.0) else p1;
      var lead' := lead + (if g1.tokens >= 1.0 then 1 else 0) - (if draws[0] then 1 else 0);
      assert lead' >= 0;
      LeadCoversShortage(g2, p2, lead', times[1..], draws[1..]);
    }
  }

  lemma {:induction false} FeasiblePrefix(b: Bucket, times: seq<int>, draws: seq<bool>, k: nat)
    requires |draws| == |times| && k <= |times| && Feasible(b, times, draws)
    ensures Feasible(b, times[..k], draws[..k])
    decreases k
  {
    hide Refilled;
    if k > 0 {
      var full := Refilled(b, times[0]);
      var next := if draws[0] then full.(tokens := full.tokens - 1.0) else full;
      FeasiblePrefix(next, times[1..], draws[1..], k - 1);
      assert times[..k][1..] == times[1..][..k - 1] && draws[..k][1..] == draws[1..][..k - 1];
    }
  }

  /** No policy on the same bucket has admitted more than Allow after any number of requests. */
  lemma {:induction false} GreedyIsOptimal(b: Bucket, times: seq<int>, draws: seq<bool>, k: nat)
    requires b.Valid() && |draws| == |times| && k <= |times| && Feasible(b, times, draws)
    ensures Drawn(draws[..k]) <= Admitted(Verdicts(b, times)[..k])
  {
    hide Request, Refilled, Feasible, Verdicts, After, Admitted, Drawn;
    FeasiblePrefix(b, times, draws, k);
    LeadCoversShortage(b, b, 0, times[..k], draws[..k]);
    assert times == times[..k] + times[k..];
    RunsAppend(b, times[..k], times[k..]);
    assert Verdicts(b, times)[..k] == Verdicts(b, times[..k]);
  }

  /** Allow itself is such a policy. */
  lemma {:induction false} AllowIsFeasible(b: Bucket, times: seq<int>, draws: seq<bool>)
    requires b.Valid() && |draws| == |times|
    requires forall i :: 0 <= i < |times| ==> draws[i] == Verdicts(b, times)[i].admitted
    ensures Feasible(b, times, draws)
    decreases |times|
  {
    hide Accrued;
    if times != [] {
      RequestKeepsValid(b, times[0]);
      assert draws[0] == Verdicts(b, times)[0].admitted;
      assert forall i :: 0 <= i < |times| - 1 ==>
        draws[1..][i] == draws[i + 1] && Verdicts(b, times)[i + 1] == Verdicts(b, times)[1..][i];
      AllowIsFeasible(Request(b, times[0]).0, times[1..], draws[1..]);
    }
  }

  // ---- Denials leave no trace ----

  /** Refilling in two steps is refilling in one. */
  lemma RefillTwice(b: Bucket, t: int, u: int)
    requires b.Valid() && t <= u
    ensures Refilled(Refilled(b, t), u) == Refilled(b, u)
  {
    hide Accrued;
    if b.last < t {
      AccruedAdds(b.rate, t - b.last, u - t);
      AccruedNonNegative(b.rate, u - t);
    }
  }

  lemma DenialChangesNothingLater(b: Bucket, t: int, post: seq<int>)
    requires b.Valid() && !Request(b, t).1.admitted && Request(b, t).0.Valid()
    requires post != [] ==> t <= post[0]
    ensures Verdicts(Request(b, t).0, post) == Verdicts(b, post)
  {
    hide Accrued;
    if post != [] {
      RefillTwice(b, t, post[0]);
    }
  }

  /** Deleting a denied call from a run on a clock that does not run backwards changes neither
      verdict nor wait of any other call. */
  lemma DenialsAreUnobservable(b: Bucket, pre: seq<int>, t: int, post: seq<int>)
    requires b.Valid() && NonDecreasing(pre + [t] + post)
    requires !Verdicts(b, pre + [t] + post)[|pre|].admitted
    ensures Verdicts(b, pre + post) ==
            Verdicts(b, pre + [t] + post)[..|pre|] + Verdicts(b, pre + [t] + post)[|pre| + 1..]
  {
    hide Request, Verdicts, After;
    var all, s := pre + [t] + post, After(b, pre);
    assert all == pre + ([t] + post) && ([t] + post)[1..] == post;
    RunsAppend(b, pre, [t] + post);
    RunsAppend(b, pre, post);
    FirstVerdict(s, t, post);
    if post != [] {
      assert all[|pre|] == t && all[|pre| + 1] == post[0];
    }
    DenialChangesNothingLater(s, t, post);
  }

  lemma FirstVerdict(s: Bucket, t: int, post: seq<int>)
    requires s.Valid()
    ensures Request(s, t).0.Valid()
    ensures Verdicts(s, [t] + post) == [Request(s, t).1] + Verdicts(Request(s, t).0, post)
  {
    hide Request;
    RequestKeepsValid(s, t);
    assert ([t] + post)[1..] == post;
  }

  // ---- Retry-After ----

  /** The number a response carries: the configured minimum, the wait rounded up to seconds, or one. */
  method SetRetryAfter(configured: int, wait: int) returns (header: int)
    ensures header >= 1 && header >= configured && (wait > 0 ==> header * SECOND >= wait)
    ensures header == 1 || header == configured || (header - 1) * SECOND < wait
    ensures header == RetryAfter(configured, wait)
  {
    var seconds := configured;
    if wait > 0 {
      var rounded := (wait + SECOND - 1) / SECOND;
      if rounded > seconds {
        seconds := rounded;
      }
    }
    if seconds < 1 {
      seconds := 1;
    }
    header := seconds;
  }

  function RetryAfter(configured: int, wait: int): int {
    Max(1, Max(configured, if wait > 0 then (wait + SECOND - 1) / SECOND else configured))
  }

  predicate AllDenied(v: seq<Verdict>) {
    forall i :: 0 <= i < |v| ==> !v[i].admitted
  }

  lemma {:induction false} DeniedCallsVanish(b: Bucket, times: seq<int>, u: int)
    requires b.Valid() && NonDecreasing(times + [u])
    requires AllDenied(Verdicts(b, times))
    ensures Request(After(b, times), u).1 == Request(b, u).1
    decreases |times|
  {
    hide Accrued;
    if times != [] {
      RequestKeepsValid(b, times[0]);
      var b' := Request(b, times[0]).0;
      assert !Verdicts(b, times)[0].admitted;
      assert Verdicts(b, times)[1..] == Verdicts(b', times[1..]);
      forall i | 0 <= i < |times| - 1
        ensures !Verdicts(b', times[1..])[i].admitted
      {
        assert Verdicts(b, times)[i + 1] == Verdicts(b', times[1..])[i];
      }
      assert times[1..] + [u] == (times + [u])[1..];
      DeniedCallsVanish(b', times[1..], u);
      assert (times + [u])[0] == times[0] && (times + [u])[|times|] == u;
      DenialChangesNothingLater(b, times[0], [u]);
      assert Verdicts(b', [u])[0] == Request(b', u).1 && Verdicts(b, [u])[0] == Request(b, u).1;
    }
  }

  /** With at least one token a second and room for one, a caller who waits the advertised seconds
      after a denial is admitted, whatever further calls are denied meanwhile. */
  lemma RetryAfterSuffices(b: Bucket, t: int, configured: int, between: seq<int>, u: int)
    requires b.Valid() && b.rate >= 1.0 && b.capacity >= 1.0
    requires b.last <= t && NonDecreasing([t] + between + [u])
    requires AllDenied(Verdicts(b, [t] + between))
    requires u >= t + RetryAfter(configured, Request(b, t).1.wait) * SECOND
    ensures Request(After(b, [t] + between), u).1.admitted
  {
    hide Request, Verdicts, After, RetryAfter;
    DeniedCallsVanish(b, [t] + between, u);
    FullSecondLater(b, t, u, configured);
  }

  const DEFAULT_RATE_LIMIT: int := 25

  /** The bucket a server makes of its two settings. */
  function ServerBucket(rps: int, burst: int, now: int): (b: Bucket)
    ensures b.Valid() && b.rate >= 1.0 && b.capacity >= 1.0
    ensures b.rate == (if rps <= 0 then 25 else rps) as real
    ensures b.capacity == b.tokens == (if burst <= 0 then 25 else burst) as real
    ensures b.last == now
  {
    FullBucket((if rps <= 0 then DEFAULT_RATE_LIMIT else rps) as real,
               (if burst <= 0 then DEFAULT_RATE_LIMIT else burst) as real, now)
  }

  lemma {:induction false} LastIsSeen(b: Bucket, times: seq<int>, now: int)
    requires b.Valid() && b.last <= now && forall i :: 0 <= i < |times| ==> times[i] <= now
    ensures After(b, times).last <= now
    decreases |times|
  {
    hide Accrued;
    if times != [] {
      RequestKeepsValid(b, times[0]);
      LastIsSeen(Request(b, times[0]).0, times[1..], now);
    }
  }

  /** So on every server, in every run on a clock that does not run backwards, whoever is denied and
      waits the advertised seconds is admitted, if nobody is in between. */
  lemma {:induction false} ServerRetryAfterSuffices(rps: int, burst: int, start: int, before: seq<int>,
        t: int, configured: int, between: seq<int>, u: int)
    requires start <= t && (forall i :: 0 <= i < |before| ==> before[i] <= t)
    requires NonDecreasing([t] + between + [u])
    requires AllDenied(Verdicts(After(ServerBucket(rps, burst, start), before), [t] + between))
    requires var b := After(ServerBucket(rps, burst, start), before);
             u >= t + RetryAfter(configured, Request(b, t).1.wait) * SECOND
    ensures Request(After(ServerBucket(rps, burst, start), before + [t] + between), u).1.admitted
  {
    hide Request, Verdicts, After, RetryAfter, NonDecreasing;
    var s := ServerBucket(rps, burst, start);
    LastIsSeen(s, before, t);
    SameLimits(s, before);
    RetryAfterSuffices(After(s, before), t, configured, between, u);
    assert before + [t] + between == before + ([t] + between);
    RunsAppend(s, before, [t] + between);
  }

  /** A second after a denial the bucket holds a token. */
  lemma FullSecondLater(b: Bucket, t: int, u: int, configured: int)
    requires b.Valid() && b.rate >= 1.0 && b.capacity >= 1.0 && b.last <= t
    requires u >= t + RetryAfter(configured, Request(b, t).1.wait) * SECOND
    ensures Request(b, u).1.admitted
  {
    hide Accrued, Wait;
    var full := Refilled(b, t);
    RequestKeepsValid(b, t);
    AccruedGrows(b.rate, SECOND, u - full.last);
    OneSecondAccruesRate(b.rate);
    RefillTwice(b, t, u);
  }

  /** What the missing tokens d cost in time: x nanoseconds at rate r. */
  lemma CostOfDeficit(r: real, d: real, x: real, n: int)
    requires r > 0.0 && x == d / r * SECOND as real
    ensures n as real >= x ==> Accrued(r, n) >= d
    ensures n as real <= x ==> Accrued(r, n) <= d
    ensures (n as real) < x ==> Accrued(r, n) < d
  {
    var q := d / r;
    assert q * r == d;
    var m := n as real / SECOND as real;
    assert x / SECOND as real == q;
    if n as real >= x {
      assert m >= q;
      assert (m - q) * r >= 0.0;
    }
    if n as real <= x {
      assert m <= q;
      assert (q - m) * r >= 0.0;
    }
    if (n as real) < x {
      assert m < q;
      assert (q - m) * r > 0.0;
    }
  }

  /** The wait is the shortest up to a nanosecond: one nanosecond more always pays for a token, and
      a wait above the one-second floor never overpays. */
  lemma {:induction false} WaitIsTight(b: Bucket)
    requires b.Valid() && b.tokens < 1.0
    ensures Wait(b) >= SECOND
    ensures b.tokens + Accrued(b.rate, Wait(b) + 1) >= 1.0
    ensures Wait(b) > SECOND ==> b.tokens + Accrued(b.rate, Wait(b)) <= 1.0
  {
    hide Accrued;
    CostOfDeficit(b.rate, 1.0 - b.tokens, ExactWait(b), Wait(b) + 1);
    CostOfDeficit(b.rate, 1.0 - b.tokens, ExactWait(b), Wait(b));
  }

  /** In the terms of the call: a denied call is told to wait a second at least, so long that a nanosecond
      more pays for a token at any later instant of that length, and beyond a second not longer than it
      takes. */
  lemma {:induction false} DeniedWaitIsTight(b: Bucket, u: int)
    requires b.Valid() && u >= b.last && !Request(b, u).1.admitted && b.capacity >= 1.0
    ensures var wait := Request(b, u).1.wait;
            var level := b.tokens + b.rate * (u - b.last) as real / 1_000_000_000.0;
            && wait >= 1_000_000_000
            && level + b.rate * (wait + 1) as real / 1_000_000_000.0 >= 1.0
            && (wait > 1_000_000_000 ==> level + b.rate * wait as real / 1_000_000_000.0 <= 1.0)
  {
    hide Accrued, Wait;
    RefilledLevel(b, u);
    RequestKeepsValid(b, u);
    var full := Refilled(b, u);
    WaitIsTight(full);
    AccruedAs(b.rate, Wait(full) + 1);
    AccruedAs(b.rate, Wait(full));
  }

  lemma AccruedAs(rate: real, ns: int)
    ensures Accrued(rate, ns) == rate * ns as real / 1_000_000_000.0
  {
    var n := ns as real;
    assert n / SECOND as real * rate == rate * n / 1_000_000_000.0;
  }

  /** At any rate, a caller who waits the advertised seconds and one nanosecond is admitted. */
  lemma RetryAfterAtAnyRate(b: Bucket, t: int, configured: int, u: int)
    requires b.Valid() && b.capacity >= 1.0 && b.last <= t && !Request(b, t).1.admitted
    requires u >= t + RetryAfter(configured, Request(b, t).1.wait) * SECOND + 1
    ensures Request(Request(b, t).0, u).1.admitted
  {
    hide Accrued, Wait;
    var full := Refilled(b, t);
    RequestKeepsValid(b, t);
    WaitIsTight(full);
    var wait := Wait(full);
    assert RetryAfter(configured, wait) * SECOND >= wait;
    AccruedGrows(b.rate, wait + 1, u - full.last);
  }

  /** A call exactly the advertised seconds after a denial is admitted unless the wait lost a fraction
      of a nanosecond when it was cut and what remained is exactly the number of seconds advertised. */
  lemma {:induction false} RetryAfterMeetsExactly(b: Bucket, t: int, configured: int)
    requires b.Valid() && b.capacity >= 1.0 && b.last <= t && !Request(b, t).1.admitted
    ensures var (full, v) := Request(b, t);
            var header := RetryAfter(configured, v.wait);
            Request(full, t + header * SECOND).1.admitted <==>
            !(ExactWait(full) > v.wait as real && v.wait == header * SECOND)
  {
    hide Accrued;
    var full := Refilled(b, t);
    RequestKeepsValid(b, t);
    var wait, ns := Wait(full), RetryAfter(configured, Wait(full)) * SECOND;
    HeaderCoversWait(configured, wait);
    CostOfDeficit(full.rate, 1.0 - full.tokens, ExactWait(full), ns);
  }

  lemma HeaderCoversWait(configured: int, wait: int)
    requires wait > 0
    ensures RetryAfter(configured, wait) * SECOND >= wait
  {
  }

  /** Below one token a second the extra nanosecond can matter: the wait is cut to whole
      nanoseconds before it is rounded up to seconds. At a rate of 1/(2 s + 1/2 ns) an empty bucket
      advertises 2 seconds, and a call exactly 2 seconds later is denied. */
  lemma RetryAfterCanFallShort()
    ensures var b := Bucket(1.0, 0.0, 2_000_000_000.0 / 4_000_000_001.0, 0);
            && b.Valid() && !Request(b, 0).1.admitted
            && RetryAfter(1, Request(b, 0).1.wait) == 2
            && !Request(Request(b, 0).0, 2 * SECOND).1.admitted
  {
    var b := Bucket(1.0, 0.0, 2_000_000_000.0 / 4_000_000_001.0, 0);
    assert 1.0 / b.rate * SECOND as real == 2_000_000_000.5;
    assert Wait(b) == 2_000_000_000;
    assert Accrued(b.rate, 2 * SECOND) == 2.0 * b.rate;
  }

  lemma OneSecondAccruesRate(rate: real)
    ensures Accrued(rate, SECOND) == rate
  {
    assert SECOND as real / SECOND as real == 1.0;
  }

  /** A bucket that cannot hold one token never admits anyone. */
  lemma {:induction false} TooSmallNeverAdmits(b: Bucket, times: seq<int>)
    requires b.Valid() && b.capacity < 1.0
    ensures Admitted(Verdicts(b, times)) == 0
    decreases |times|
  {
    hide Accrued;
    if times != [] {
      RequestKeepsValid(b, times[0]);
      TooSmallNeverAdmits(Request(b, times[0]).0, times[1..]);
    }
  }

  // ======================= The class =======================

  class RateLimiter {
    var capacity: real
    var tokens: real
    var refillRate: real
    var lastRefill: int

    ghost function State(): Bucket
      reads this
    {
      Bucket(capacity, tokens, refillRate, lastRefill)
    }

    constructor (rate: real, burst: real, now: int)
      ensures State() == FullBucket(rate, burst, now)
    {
      var r, c := rate, burst;
      if r <= 0.0 {
        r := 1.0;
      }
      if c <= 0.0 {
        c := r;
      }
      capacity, tokens, refillRate, lastRefill := c, c, r, now;
    }

    /** now is the clock reading of this call; the wait is in nanoseconds. */
    method Allow(now: int) returns (allowed: bool, wait: int)
      requires State().Valid()
      modifies this
      ensures State().Valid()
      ensures (State(), Verdict(allowed, wait)) == Request(old(State()), now)
    {
      hide Accrued;
      RequestKeepsValid(State(), now);
      var elapsed := now - lastRefill;
      if elapsed > 0 {
        var refill := Accrued(refillRate, elapsed);
        AccruedPositive(refillRate, elapsed);
        if refill > 0.0 {
          tokens := RMin(capacity, tokens + refill);
        }
        lastRefill := now;
      }
      if tokens >= 1.0 {
        tokens := tokens - 1.0;
        return true, 0;
      }
      var deficit := 1.0 - tokens;
      var waitSeconds := deficit / refillRate;
      var waitDuration := (waitSeconds * SECOND as real).Floor;
      if waitDuration < SECOND {
        waitDuration := SECOND;
      }
      return false, waitDuration;
    }
  }

  lemma AccruedPositive(rate: real, a: int)
    requires rate > 0.0 && a > 0
    ensures Accrued(rate, a) > 0.0
  {
    var q := a as real / SECOND as real;
    assert q > 0.0;
    assert q * rate > 0.0;
  }
}
