/** The per-client token bucket (api/rate_limiter.go). Times are seconds and tokens are
    exact reals; the clock never runs backwards. */
module RateLimiting {
  import opened Options

  datatype Config = Config(rate: real, burst: nat, cleanupInterval: real) {
    predicate Valid() {
      rate > 0.0 && cleanupInterval >= 0.0
    }

    function Capacity(): (tokens: real)
      ensures tokens >= 0.0
    {
      burst as real
    }
  }

  const DEFAULT_CONFIG := Config(50.0, 100, 60.0)

  datatype Bucket = Bucket(tokens: real, lastRefill: real)

  type Buckets = map<string, Bucket>

  function Min(a: real, b: real): real {
    if a < b then a else b
  }

  /** Tokens that accrue between two times. */
  function Earned(cfg: Config, from: real, to: real): (tokens: real)
    ensures cfg.Valid() && from <= to ==> tokens >= 0.0
    ensures from == to ==> tokens == 0.0
  {
    (to - from) * cfg.rate
  }

  /** Tokens a client can spend at time `now`. A client without a bucket gets a full one. */
  function Available(cfg: Config, bucket: Option<Bucket>, now: real): real {
    match bucket
    case None => cfg.Capacity()
    case Some(b) => Min(cfg.Capacity(), b.tokens + Earned(cfg, b.lastRefill, now))
  }

  predicate Admits(cfg: Config, buckets: Buckets, client: string, now: real) {
    Available(cfg, Lookup(buckets, client), now) >= 1.0
  }

  function AfterRequest(cfg: Config, buckets: Buckets, client: string, now: real): Buckets {
    var tokens := Available(cfg, Lookup(buckets, client), now);
    buckets[client := Bucket(if tokens >= 1.0 then tokens - 1.0 else tokens, now)]
  }

  function AfterCleanup(cfg: Config, buckets: Buckets, now: real): Buckets {
    map c | c in buckets && now - buckets[c].lastRefill <= cfg.cleanupInterval :: buckets[c]
  }

  /** Seconds a refused client is told to wait: enough for a token, and at most a second more
      than that takes. */
  function RetryAfterSeconds(cfg: Config): (seconds: int)
    requires cfg.Valid()
    ensures seconds >= 1
    ensures (seconds - 1) as real * cfg.rate <= 1.0 <= seconds as real * cfg.rate
  {
    var secondsPerToken := 1.0 / cfg.rate;
    if secondsPerToken < 1.0 then
      assert cfg.rate > 1.0 by { MulMonotone(secondsPerToken, 1.0, cfg.rate); }
      1
    else
      assert (secondsPerToken.Floor + 1) as real * cfg.rate >= secondsPerToken * cfg.rate by {
        MulMonotone(secondsPerToken, (secondsPerToken.Floor + 1) as real, cfg.rate);
      }
      assert secondsPerToken.Floor as real * cfg.rate <= secondsPerToken * cfg.rate by {
        MulMonotone(secondsPerToken.Floor as real, secondsPerToken, cfg.rate);
      }
      secondsPerToken.Floor + 1
  }

  lemma {:induction false} MulMonotone(a: real, b: real, rate: real)
    requires a <= b && rate >= 0.0
    ensures a * rate <= b * rate
    ensures a < b && rate > 0.0 ==> a * rate < b * rate
  {
  }

  /** The limiter object: one mutable map of buckets under a mutex. */
  class RateLimiter {
    const config: Config
    var buckets: Buckets

    constructor (config: Config)
      ensures this.config == config && buckets == map[]
    {
      this.config := config;
      buckets := map[];
    }

    method Allow(clientAddress: string, currentTime: real) returns (allowed: bool)
      modifies this
      ensures allowed == Admits(config, old(buckets), clientAddress, currentTime)
      ensures buckets == AfterRequest(config, old(buckets), clientAddress, currentTime)
    {
      var burst := config.Capacity();
      if clientAddress !in buckets {
        buckets := buckets[clientAddress := Bucket(burst, currentTime)];
      }
      var bucket := buckets[clientAddress];
      var tokens := bucket.tokens + Earned(config, bucket.lastRefill, currentTime);
      if tokens > burst {
        tokens := burst;
      }
      if tokens < 1.0 {
        buckets := buckets[clientAddress := Bucket(tokens, currentTime)];
        return false;
      }
      buckets := buckets[clientAddress := Bucket(tokens - 1.0, currentTime)];
      return true;
    }

    method CleanupStale(currentTime: real)
      modifies this
      ensures buckets == AfterCleanup(config, old(buckets), currentTime)
      ensures forall c | c in old(buckets) ::
                c !in buckets <==> currentTime - old(buckets)[c].lastRefill > config.cleanupInterval
    {
      var remaining := buckets.Keys;
      while remaining != {}
        invariant remaining <= old(buckets).Keys
        invariant forall c | c in old(buckets) ::
                    c in buckets <==> c in remaining || currentTime - old(buckets)[c].lastRefill <= config.cleanupInterval
        invariant forall c | c in buckets :: c in old(buckets) && buckets[c] == old(buckets)[c]
        decreases remaining
      {
        var clientAddress :| clientAddress in remaining;
        remaining := remaining - {clientAddress};
        if currentTime - buckets[clientAddress].lastRefill > config.cleanupInterval {
          buckets := buckets - {clientAddress};
        }
      }
    }
  }

  // --- Runs -------------------------------------------------------------------------

  datatype Event = Request(client: string, time: real) | CleanupStaleAt(time: real)

  ghost predicate Monotone(events: seq<Event>) {
    forall i, j | 0 <= i < j < |events| :: events[i].time <= events[j].time
  }

  /** One event. With `cleaning` off the limiter ignores the cleanups. */
  function Step(cfg: Config, cleaning: bool, buckets: Buckets, event: Event): Buckets {
    match event
    case Request(client, time) => AfterRequest(cfg, buckets, client, time)
    case CleanupStaleAt(time) => if cleaning then AfterCleanup(cfg, buckets, time) else buckets
  }

  function After(cfg: Config, cleaning: bool, events: seq<Event>): Buckets
    decreases |events|
  {
    if events == [] then map[]
    else Step(cfg, cleaning, After(cfg, cleaning, events[..|events| - 1]), events[|events| - 1])
  }

  /** Event i of the run is a request and the limiter lets it through. */
  predicate Admitted(cfg: Config, cleaning: bool, events: seq<Event>, i: nat)
    requires i < |events|
  {
    events[i].Request? && Admits(cfg, After(cfg, cleaning, events[..i]), events[i].client, events[i].time)
  }

  /** How many requests of the client are admitted among events i to j. */
  function AdmittedCount(cfg: Config, cleaning: bool, events: seq<Event>, client: string, i: nat, j: nat): nat
    requires i <= j <= |events|
    decreases j
  {
    if i == j then 0
    else
      AdmittedCount(cfg, cleaning, events, client, i, j - 1) +
      if events[j - 1].Request? && events[j - 1].client == client && Admitted(cfg, cleaning, events, j - 1) then 1 else 0
  }

  ghost predicate BucketsOk(cfg: Config, buckets: Buckets, now: real) {
    forall c | c in buckets :: 0.0 <= buckets[c].tokens <= cfg.Capacity() && buckets[c].lastRefill <= now
  }

  lemma {:induction false} AvailableRange(cfg: Config, buckets: Buckets, client: string, now: real, earlier: real)
    requires cfg.Valid() && BucketsOk(cfg, buckets, earlier) && earlier <= now
    ensures 0.0 <= Available(cfg, Lookup(buckets, client), now) <= cfg.Capacity()
    ensures Available(cfg, Lookup(buckets, client), now) <=
            Available(cfg, Lookup(buckets, client), earlier) + Earned(cfg, earlier, now)
  {
    if client in buckets {
      EarnedSplits(cfg, buckets[client].lastRefill, earlier, now);
    }
  }

  lemma {:induction false} EarnedSplits(cfg: Config, a: real, b: real, c: real)
    ensures Earned(cfg, a, c) == Earned(cfg, a, b) + Earned(cfg, b, c)
  {
  }

  /** What accrues is monotone in the time waited. */
  lemma {:induction false} EarnedWithin(cfg: Config, from: real, to: real, T: real)
    requires cfg.Valid()
    ensures to - from <= T ==> Earned(cfg, from, to) <= T * cfg.rate
    ensures to - from >= T ==> Earned(cfg, from, to) >= T * cfg.rate
  {
    if to - from <= T { MulMonotone(to - from, T, cfg.rate); }
    if to - from >= T { MulMonotone(T, to - from, cfg.rate); }
  }

  lemma {:induction false} StepOk(cfg: Config, cleaning: bool, buckets: Buckets, event: Event, earlier: real)
    requires cfg.Valid() && BucketsOk(cfg, buckets, earlier) && earlier <= event.time
    ensures BucketsOk(cfg, Step(cfg, cleaning, buckets, event), event.time)
  {
    if event.Request? {
      AvailableRange(cfg, buckets, event.client, event.time, earlier);
    }
  }

  lemma {:induction false} AfterOk(cfg: Config, cleaning: bool, events: seq<Event>, now: real)
    requires cfg.Valid() && Monotone(events) && (events != [] ==> events[|events| - 1].time <= now)
    ensures BucketsOk(cfg, After(cfg, cleaning, events), now)
    decreases |events|
  {
    if events != [] {
      var last := events[|events| - 1];
      AfterOk(cfg, cleaning, events[..|events| - 1], last.time);
      StepOk(cfg, cleaning, After(cfg, cleaning, events[..|events| - 1]), last, last.time);
    }
  }

  // --- The rate bound -----------------------------------------------------------------

  /** An admitted request costs its client one token and nothing else does. */
  lemma {:induction false} SpendsOneToken(cfg: Config, buckets: Buckets, event: Event, client: string)
    requires cfg.Valid() && BucketsOk(cfg, buckets, event.time)
    ensures var spent := event.Request? && event.client == client && Admits(cfg, buckets, client, event.time);
            Available(cfg, Lookup(Step(cfg, false, buckets, event), client), event.time) ==
            Available(cfg, Lookup(buckets, client), event.time) - if spent then 1.0 else 0.0
  {
    AvailableRange(cfg, buckets, client, event.time, event.time);
    if event.Request? && event.client == client {
      var after := AfterRequest(cfg, buckets, client, event.time);
      assert Lookup(after, client) == Some(after[client]) && Earned(cfg, after[client].lastRefill, event.time) == 0.0;
    }
  }

  /** Spent tokens plus those left never exceed the burst plus what the interval earns. */
  lemma {:induction false} Budget(cfg: Config, events: seq<Event>, client: string, i: nat, j: nat)
    requires cfg.Valid() && Monotone(events) && i < j <= |events|
    ensures AdmittedCount(cfg, false, events, client, i, j) as real +
            Available(cfg, Lookup(After(cfg, false, events[..j]), client), events[j - 1].time)
            <= cfg.Capacity() + Earned(cfg, events[i].time, events[j - 1].time)
    decreases j
  {
    var last, buckets := events[j - 1], After(cfg, false, events[..j - 1]);
    assert events[..j][..j - 1] == events[..j - 1];
    assert After(cfg, false, events[..j]) == Step(cfg, false, buckets, last);
    AfterOk(cfg, false, events[..j - 1], last.time);
    SpendsOneToken(cfg, buckets, last, client);
    AvailableRange(cfg, buckets, client, last.time, last.time);
    if j - 1 > i {
      var earlier := events[j - 2].time;
      Budget(cfg, events, client, i, j - 1);
      AfterOk(cfg, false, events[..j - 1], earlier);
      AvailableRange(cfg, buckets, client, last.time, earlier);
      EarnedSplits(cfg, events[i].time, earlier, last.time);
    } else {
      assert AdmittedCount(cfg, false, events, client, i, j - 1) == 0;
    }
  }

  /** The events i to j all happen within T seconds. */
  ghost predicate Within(events: seq<Event>, i: nat, j: nat, T: real)
    requires i <= j <= |events|
  {
    T >= 0.0 && forall k, l | i <= k <= l < j :: events[l].time - events[k].time <= T
  }

  /** A limiter that never cleans up admits at most burst + rate * T requests of one
      client within any T seconds. */
  lemma {:induction false} RateBound(cfg: Config, events: seq<Event>, client: string, i: nat, j: nat, T: real)
    requires cfg.Valid() && Monotone(events) && i <= j <= |events| && Within(events, i, j, T)
    ensures AdmittedCount(cfg, false, events, client, i, j) as real <= cfg.Capacity() + T * cfg.rate
  {
    EarnedWithin(cfg, 0.0, T, T);
    if i < j {
      Budget(cfg, events, client, i, j);
      AfterOk(cfg, false, events[..j], events[j - 1].time);
      AvailableRange(cfg, After(cfg, false, events[..j]), client, events[j - 1].time, events[j - 1].time);
      EarnedWithin(cfg, events[i].time, events[j - 1].time, T);
    }
  }

  // --- Exactly which requests are admitted ------------------------------------------------

  lemma {:induction false} Refills(cfg: Config, bucket: Option<Bucket>, earlier: real, now: real)
    requires cfg.Valid() && earlier <= now
    ensures Available(cfg, bucket, now) == Min(cfg.Capacity(), Available(cfg, bucket, earlier) + Earned(cfg, earlier, now))
  {
    if bucket.Some? { EarnedSplits(cfg, bucket.value.lastRefill, earlier, now); }
  }

  /** What the requests admitted since event m leave of a full bucket and the tokens earned. */
  function LeftSince(cfg: Config, events: seq<Event>, client: string, m: nat, i: nat, now: real): real
    requires m <= i <= |events|
  {
    cfg.Capacity() - AdmittedCount(cfg, false, events, client, m, i) as real +
    if m < i then Earned(cfg, events[m].time, now) else 0.0
  }

  /** The tokens are the least that is left since any event before. */
  lemma {:induction false} TokensAreLeast(cfg: Config, events: seq<Event>, client: string, i: nat, now: real) returns (m: nat)
    requires cfg.Valid() && Monotone(events) && i <= |events| && (i > 0 ==> events[i - 1].time <= now)
    ensures m <= i && Available(cfg, Lookup(After(cfg, false, events[..i]), client), now) == LeftSince(cfg, events, client, m, i, now)
    ensures forall k | 0 <= k <= i ::
              Available(cfg, Lookup(After(cfg, false, events[..i]), client), now) <= LeftSince(cfg, events, client, k, i, now)
    decreases i
  {
    if i == 0 {
      assert events[..0] == [];
      return 0;
    }
    var last, buckets := events[i - 1], After(cfg, false, events[..i - 1]);
    assert events[..i][..i - 1] == events[..i - 1];
    m := TokensAreLeast(cfg, events, client, i - 1, last.time);
    AfterOk(cfg, false, events[..i - 1], last.time);
    SpendsOneToken(cfg, buckets, last, client);
    Refills(cfg, Lookup(After(cfg, false, events[..i]), client), last.time, now);
    forall k | 0 <= k < i
      ensures LeftSince(cfg, events, client, k, i, now) ==
              LeftSince(cfg, events, client, k, i - 1, last.time) + Earned(cfg, last.time, now) -
              if last.Request? && last.client == client && Admitted(cfg, false, events, i - 1) then 1.0 else 0.0
    {
      LeftLater(cfg, events, client, k, i, now);
    }
    if Available(cfg, Lookup(After(cfg, false, events[..i]), client), now) == cfg.Capacity() {
      m := i;
    }
  }

  lemma {:induction false} LeftLater(cfg: Config, events: seq<Event>, client: string, k: nat, i: nat, now: real)
    requires k < i <= |events|
    ensures var last := events[i - 1];
            LeftSince(cfg, events, client, k, i, now) ==
            LeftSince(cfg, events, client, k, i - 1, last.time) + Earned(cfg, last.time, now) -
            if last.Request? && last.client == client && Admitted(cfg, false, events, i - 1) then 1.0 else 0.0
  {
    if k < i - 1 { EarnedSplits(cfg, events[k].time, events[i - 1].time, now); }
  }

  /** From event m on, the client's admitted requests and one more are within the burst and
      the rate times the time since then. */
  predicate Fits(cfg: Config, events: seq<Event>, client: string, m: nat, i: nat, now: real)
    requires m < i <= |events|
  {
    AdmittedCount(cfg, false, events, client, m, i) as real + 1.0 <= cfg.burst as real + (now - events[m].time) * cfg.rate
  }

  lemma {:induction false} FitsMeansLeft(cfg: Config, events: seq<Event>, client: string, m: nat, i: nat, now: real)
    requires m < i <= |events|
    ensures Fits(cfg, events, client, m, i, now) <==> LeftSince(cfg, events, client, m, i, now) >= 1.0
  {
  }

  /** A request is admitted if and only if the burst is at least 1 and the request fits in
      from every earlier event on. */
  lemma {:induction false} AdmittedIff(cfg: Config, events: seq<Event>, i: nat)
    requires cfg.Valid() && Monotone(events) && i < |events| && events[i].Request?
    ensures Admitted(cfg, false, events, i) <==>
            cfg.burst >= 1 && forall m | 0 <= m < i :: Fits(cfg, events, events[i].client, m, i, events[i].time)
  {
    var client, now := events[i].client, events[i].time;
    var least := TokensAreLeast(cfg, events, client, i, now);
    assert LeftSince(cfg, events, client, i, i, now) == cfg.Capacity();
    forall m | 0 <= m < i
      ensures Fits(cfg, events, client, m, i, now) <==> LeftSince(cfg, events, client, m, i, now) >= 1.0
    {
      FitsMeansLeft(cfg, events, client, m, i, now);
    }
  }

  // --- Cleaning up: exactly when it makes no difference -------------------------------

  /** A bucket may be missing from the cleaned map only once it is full again. */
  ghost predicate Alike(cfg: Config, cleaned: Buckets, kept: Buckets, now: real) {
    && (forall c | c in cleaned :: c in kept && cleaned[c] == kept[c])
    && (forall c | c in kept && c !in cleaned :: kept[c].tokens + Earned(cfg, kept[c].lastRefill, now) >= cfg.Capacity())
  }

  lemma {:induction false} AlikeLater(cfg: Config, cleaned: Buckets, kept: Buckets, earlier: real, now: real)
    requires cfg.Valid() && Alike(cfg, cleaned, kept, earlier) && earlier <= now
    ensures Alike(cfg, cleaned, kept, now)
    ensures forall c :: Available(cfg, Lookup(cleaned, c), now) == Available(cfg, Lookup(kept, c), now)
  {
    forall c | c in kept && c !in cleaned
      ensures kept[c].tokens + Earned(cfg, kept[c].lastRefill, now) >= cfg.Capacity()
    {
      EarnedSplits(cfg, kept[c].lastRefill, earlier, now);
    }
  }

  lemma {:induction false} AlikeStep(cfg: Config, cleaned: Buckets, kept: Buckets, event: Event)
    requires cfg.Valid() && cfg.cleanupInterval * cfg.rate >= cfg.Capacity()
    requires Alike(cfg, cleaned, kept, event.time) && BucketsOk(cfg, kept, event.time)
    ensures Alike(cfg, Step(cfg, true, cleaned, event), Step(cfg, false, kept, event), event.time)
  {
    AlikeLater(cfg, cleaned, kept, event.time, event.time);
    if event.CleanupStaleAt? {
      forall c | c in cleaned && event.time - cleaned[c].lastRefill > cfg.cleanupInterval
        ensures Earned(cfg, cleaned[c].lastRefill, event.time) >= cfg.Capacity()
      {
        EarnedWithin(cfg, cleaned[c].lastRefill, event.time, cfg.cleanupInterval);
      }
    }
  }

  lemma {:induction false} AlikeAfter(cfg: Config, events: seq<Event>, now: real)
    requires cfg.Valid() && cfg.cleanupInterval * cfg.rate >= cfg.Capacity()
    requires Monotone(events) && (events != [] ==> events[|events| - 1].time <= now)
    ensures Alike(cfg, After(cfg, true, events), After(cfg, false, events), now)
    decreases |events|
  {
    if events != [] {
      var shorter, last := events[..|events| - 1], events[|events| - 1];
      AlikeAfter(cfg, shorter, last.time);
      AfterOk(cfg, false, shorter, last.time);
      AlikeStep(cfg, After(cfg, true, shorter), After(cfg, false, shorter), last);
      AlikeLater(cfg, After(cfg, true, events), After(cfg, false, events), last.time, now);
    }
  }

  /** When an idle interval refills any bucket, cleanups anywhere in a run change no
      decision. */
  lemma {:induction false} CleanupInvisible(cfg: Config, events: seq<Event>, i: nat)
    requires cfg.Valid() && cfg.cleanupInterval * cfg.rate >= cfg.Capacity()
    requires Monotone(events) && i < |events|
    ensures Admitted(cfg, true, events, i) == Admitted(cfg, false, events, i)
  {
    AlikeAfter(cfg, events[..i], events[i].time);
    AlikeLater(cfg, After(cfg, true, events[..i]), After(cfg, false, events[..i]), events[i].time, events[i].time);
  }

  lemma {:induction false} DefaultsCleanInvisibly()
    ensures DEFAULT_CONFIG.Valid()
    ensures DEFAULT_CONFIG.cleanupInterval * DEFAULT_CONFIG.rate >= DEFAULT_CONFIG.Capacity()
  {
  }

  lemma {:induction false} SameCount(cfg: Config, events: seq<Event>, client: string, i: nat, j: nat)
    requires i <= j <= |events|
    requires forall k | 0 <= k < |events| :: Admitted(cfg, true, events, k) == Admitted(cfg, false, events, k)
    ensures AdmittedCount(cfg, true, events, client, i, j) == AdmittedCount(cfg, false, events, client, i, j)
    decreases j
  {
    if i < j {
      SameCount(cfg, events, client, i, j - 1);
    }
  }

  /** The rate bound holds with cleanups in the run, too. */
  lemma {:induction false} RateBoundWithCleanup(cfg: Config, events: seq<Event>, client: string, i: nat, j: nat, T: real)
    requires cfg.Valid() && cfg.cleanupInterval * cfg.rate >= cfg.Capacity()
    requires Monotone(events) && i <= j <= |events| && Within(events, i, j, T)
    ensures AdmittedCount(cfg, true, events, client, i, j) as real <= cfg.Capacity() + T * cfg.rate
  {
    forall k | 0 <= k < |events| ensures Admitted(cfg, true, events, k) == Admitted(cfg, false, events, k) {
      CleanupInvisible(cfg, events, k);
    }
    SameCount(cfg, events, client, i, j);
    RateBound(cfg, events, client, i, j, T);
  }

  lemma {:induction false} CountAdds(cfg: Config, cleaning: bool, events: seq<Event>, client: string, i: nat, m: nat, j: nat)
    requires i <= m <= j <= |events|
    ensures AdmittedCount(cfg, cleaning, events, client, i, j) ==
            AdmittedCount(cfg, cleaning, events, client, i, m) + AdmittedCount(cfg, cleaning, events, client, m, j)
    decreases j
  {
    if m < j {
      CountAdds(cfg, cleaning, events, client, i, m, j - 1);
    }
  }

  lemma {:induction false} AdmittedBucket(cfg: Config, buckets: Buckets, client: string, now: real)
    requires Admits(cfg, buckets, client, now)
    ensures var tokens, after := Available(cfg, Lookup(buckets, client), now), Lookup(AfterRequest(cfg, buckets, client, now), client);
            after == Some(Bucket(tokens - 1.0, now)) && Available(cfg, after, now) == tokens - 1.0
  {
    assert Earned(cfg, now, now) == 0.0;
  }

  lemma {:induction false} NextInBurst(cfg: Config, events: seq<Event>, client: string, n: nat, time: real, tokens: real)
    requires cfg.Valid() && n < |events| && events[n] == Request(client, time) && tokens >= 1.0
    requires Available(cfg, Lookup(After(cfg, true, events[..n]), client), time) == tokens
    ensures Admitted(cfg, true, events, n)
    ensures var after := Lookup(After(cfg, true, events[..n + 1]), client);
            after == Some(Bucket(tokens - 1.0, time)) && Available(cfg, after, time) == tokens - 1.0
  {
    assert events[..n + 1][..n] == events[..n];
    AdmittedBucket(cfg, After(cfg, true, events[..n]), client, time);
  }

  ghost predicate Burst(events: seq<Event>, client: string, i: nat, k: nat, time: real) {
    i + k <= |events| && forall l | i <= l < i + k :: events[l] == Request(client, time)
  }

  /** k requests at one instant leave k tokens less than a full bucket. */
  lemma {:induction false} BurstSpends(cfg: Config, events: seq<Event>, client: string, i: nat, k: nat, time: real)
    requires cfg.Valid() && k <= cfg.burst && Burst(events, client, i, k, time)
    requires client !in After(cfg, true, events[..i])
    ensures var bucket := Lookup(After(cfg, true, events[..i + k]), client);
            && Available(cfg, bucket, time) == cfg.Capacity() - k as real
            && (k > 0 ==> bucket == Some(Bucket(cfg.Capacity() - k as real, time)))
    decreases k
  {
    if k > 0 {
      BurstSpends(cfg, events, client, i, k - 1, time);
      NextInBurst(cfg, events, client, i + k - 1, time, cfg.Capacity() - (k - 1) as real);
    }
  }

  lemma {:induction false} BurstAdmits(cfg: Config, events: seq<Event>, client: string, i: nat, k: nat, time: real)
    requires cfg.Valid() && k < cfg.burst && Burst(events, client, i, k + 1, time)
    requires client !in After(cfg, true, events[..i])
    ensures Admitted(cfg, true, events, i + k)
  {
    BurstSpends(cfg, events, client, i, k, time);
    NextInBurst(cfg, events, client, i + k, time, cfg.Capacity() - k as real);
  }

  /** A client without a bucket gets its first `burst` requests at one instant through. */
  lemma {:induction false} FullBurst(cfg: Config, events: seq<Event>, client: string, i: nat, k: nat, time: real)
    requires cfg.Valid() && k <= cfg.burst && Burst(events, client, i, k, time)
    requires client !in After(cfg, true, events[..i])
    ensures AdmittedCount(cfg, true, events, client, i, i + k) == k
    decreases k
  {
    if k > 0 {
      FullBurst(cfg, events, client, i, k - 1, time);
      BurstAdmits(cfg, events, client, i, k - 1, time);
      assert events[i + k - 1] == Request(client, time);
    }
  }

  /** Drain the bucket, wait until it is stale but not yet full, clean up, drain again. */
  function Flood(cfg: Config, t: real): seq<Event> {
    seq(cfg.burst, _ => Request("c", 0.0)) + [CleanupStaleAt(t)] + seq(cfg.burst, _ => Request("c", t))
  }

  lemma {:induction false} SecondBurst(cfg: Config, events: seq<Event>, t: real)
    requires cfg.Valid() && |events| == 2 * cfg.burst + 1 && "c" !in After(cfg, true, events[..cfg.burst + 1])
    requires forall k | cfg.burst < k < |events| :: events[k] == Request("c", t)
    ensures AdmittedCount(cfg, true, events, "c", cfg.burst + 1, |events|) == cfg.burst
  {
    FullBurst(cfg, events, "c", cfg.burst + 1, cfg.burst, t);
  }

  /** The cleanup between two bursts gives the client a full bucket again. */
  lemma {:induction false} BothBurstsAdmitted(cfg: Config, events: seq<Event>, t: real)
    requires cfg.Valid() && t > cfg.cleanupInterval && cfg.burst > 0
    requires |events| == 2 * cfg.burst + 1 && events[cfg.burst] == CleanupStaleAt(t)
    requires forall k | 0 <= k < cfg.burst :: events[k] == Request("c", 0.0)
    requires forall k | cfg.burst < k < |events| :: events[k] == Request("c", t)
    ensures AdmittedCount(cfg, true, events, "c", 0, |events|) == 2 * cfg.burst
  {
    var n := cfg.burst;
    FirstBurst(cfg, events);
    SecondBurst(cfg, events, t);
    CountAdds(cfg, true, events, "c", 0, n + 1, n + 1 + n);
  }

  lemma {:induction false} FirstBurst(cfg: Config, events: seq<Event>)
    requires cfg.Valid() && 0 < cfg.burst < |events|
    requires events[cfg.burst].CleanupStaleAt? && events[cfg.burst].time > cfg.cleanupInterval
    requires forall k | 0 <= k < cfg.burst :: events[k] == Request("c", 0.0)
    ensures "c" !in After(cfg, true, events[..cfg.burst + 1])
    ensures AdmittedCount(cfg, true, events, "c", 0, cfg.burst + 1) == cfg.burst
  {
    assert events[..0] == [];
    FullBurst(cfg, events, "c", 0, cfg.burst, 0.0);
    BurstSpends(cfg, events, "c", 0, cfg.burst, 0.0);
    StaleBucketDropped(cfg, events, "c", cfg.burst, 0.0);
  }

  lemma {:induction false} StaleBucketDropped(cfg: Config, events: seq<Event>, client: string, n: nat, lastRefill: real)
    requires n < |events| && events[n].CleanupStaleAt? && events[n].time - lastRefill > cfg.cleanupInterval
    requires var bucket := Lookup(After(cfg, true, events[..n]), client); bucket.Some? && bucket.value.lastRefill == lastRefill
    ensures client !in After(cfg, true, events[..n + 1])
    ensures AdmittedCount(cfg, true, events, client, 0, n + 1) == AdmittedCount(cfg, true, events, client, 0, n)
  {
    assert events[..n + 1][..n] == events[..n];
  }

  /** Cleaning up never changes a decision if and only if a bucket idle for the cleanup
      interval has refilled completely. */
  lemma {:induction false} CleanupInvisibleIff(cfg: Config)
    requires cfg.Valid()
    ensures (forall events, i: nat | Monotone(events) && i < |events| ::
               Admitted(cfg, true, events, i) == Admitted(cfg, false, events, i))
            <==> cfg.cleanupInterval * cfg.rate >= cfg.Capacity()
  {
    if cfg.cleanupInterval * cfg.rate >= cfg.Capacity() {
      forall events, i: nat | Monotone(events) && i < |events|
        ensures Admitted(cfg, true, events, i) == Admitted(cfg, false, events, i)
      {
        CleanupInvisible(cfg, events, i);
      }
    } else {
      CleanupVisible(cfg);
    }
  }

  lemma {:induction false} CleanupVisible(cfg: Config)
    requires cfg.Valid() && cfg.cleanupInterval * cfg.rate < cfg.Capacity()
    ensures exists events, i: nat :: Monotone(events) && i < |events| &&
                                     Admitted(cfg, true, events, i) != Admitted(cfg, false, events, i)
  {
    var t := (cfg.cleanupInterval + cfg.Capacity() / cfg.rate) / 2.0;
    StaleBeforeFull(cfg, t);
    var events := Flood(cfg, t);
    var n := |events|;
    FloodAdmitted(cfg, t);
    RateBound(cfg, events, "c", 0, n, t);
    if forall k | 0 <= k < n :: Admitted(cfg, true, events, k) == Admitted(cfg, false, events, k) {
      SameCount(cfg, events, "c", 0, n);
      assert false;
    }
  }

  /** Within T seconds the client gets at most burst + rate * T requests through. */
  ghost predicate RateBounded(cfg: Config, events: seq<Event>, client: string, i: nat, j: nat, T: real) {
    Monotone(events) && i <= j <= |events| && Within(events, i, j, T) ==>
      AdmittedCount(cfg, true, events, client, i, j) as real <= cfg.Capacity() + T * cfg.rate
  }

  /** A limiter that cleans up keeps the rate bound in every run if and only if a bucket idle
      for the cleanup interval has refilled completely. */
  lemma {:induction false} RateBoundIff(cfg: Config)
    requires cfg.Valid()
    ensures (forall events, client, i: nat, j: nat, T :: RateBounded(cfg, events, client, i, j, T))
            <==> cfg.cleanupInterval * cfg.rate >= cfg.Capacity()
  {
    if cfg.cleanupInterval * cfg.rate >= cfg.Capacity() {
      forall events, client, i: nat, j: nat, T ensures RateBounded(cfg, events, client, i, j, T) {
        if Monotone(events) && i <= j <= |events| && Within(events, i, j, T) {
          RateBoundWithCleanup(cfg, events, client, i, j, T);
        }
      }
    } else {
      var t := (cfg.cleanupInterval + cfg.Capacity() / cfg.rate) / 2.0;
      StaleBeforeFull(cfg, t);
      FloodExceeds(cfg, t);
    }
  }

  lemma {:induction false} FloodAdmitted(cfg: Config, t: real)
    requires cfg.Valid() && t > cfg.cleanupInterval && cfg.burst > 0
    ensures var events := Flood(cfg, t);
            && Monotone(events) && Within(events, 0, |events|, t)
            && AdmittedCount(cfg, true, events, "c", 0, |events|) == 2 * cfg.burst
  {
    var events := Flood(cfg, t);
    assert Monotone(events) && Within(events, 0, |events|, t);
    BothBurstsAdmitted(cfg, events, t);
  }

  /** A flood around a cleanup that comes too early exceeds the bound. */
  lemma {:induction false} FloodExceeds(cfg: Config, t: real)
    requires cfg.Valid() && t > cfg.cleanupInterval && cfg.burst > 0 && t * cfg.rate < cfg.Capacity()
    ensures !RateBounded(cfg, Flood(cfg, t), "c", 0, |Flood(cfg, t)|, t)
  {
    FloodAdmitted(cfg, t);
    TwiceIsTooMany(cfg, Flood(cfg, t), t);
  }

  lemma {:induction false} TwiceIsTooMany(cfg: Config, events: seq<Event>, t: real)
    requires Monotone(events) && Within(events, 0, |events|, t) && t * cfg.rate < cfg.Capacity()
    requires AdmittedCount(cfg, true, events, "c", 0, |events|) == 2 * cfg.burst
    ensures !RateBounded(cfg, events, "c", 0, |events|, t)
  {
    assert (2 * cfg.burst) as real == 2.0 * cfg.Capacity();
  }

  lemma {:induction false} StaleBeforeFull(cfg: Config, t: real)
    requires cfg.Valid() && cfg.cleanupInterval * cfg.rate < cfg.Capacity()
    requires t == (cfg.cleanupInterval + cfg.Capacity() / cfg.rate) / 2.0
    ensures t > cfg.cleanupInterval && t * cfg.rate < cfg.Capacity() && cfg.burst > 0
  {
    var full := cfg.Capacity() / cfg.rate;
    assert full * cfg.rate == cfg.Capacity();
    if full <= cfg.cleanupInterval {
      MulMonotone(full, cfg.cleanupInterval, cfg.rate);
    }
    MulMonotone(t, full, cfg.rate);
    assert Earned(cfg, 0.0, cfg.cleanupInterval) >= 0.0;
  }

  // --- Retry-After -----------------------------------------------------------------------

  /** A refused client that stays silent for the advised time is admitted then, if and
      only if the burst allows any request at all. Other clients and cleanups may run
      in between. */
  lemma {:induction false} RetryIsAdmitted(cfg: Config, cleaning: bool, events: seq<Event>, i: nat, j: nat)
    requires cfg.Valid() && Monotone(events) && i < j < |events|
    requires events[i].Request? && !Admitted(cfg, cleaning, events, i)
    requires events[j].Request? && events[j].client == events[i].client
    requires events[j].time - events[i].time >= RetryAfterSeconds(cfg) as real
    requires forall k | i < k < j && events[k].Request? :: events[k].client != events[i].client
    ensures Admitted(cfg, cleaning, events, j) <==> cfg.burst >= 1
  {
    var client, start := events[i].client, events[i].time;
    AfterOk(cfg, cleaning, events[..i], start);
    AvailableRange(cfg, After(cfg, cleaning, events[..i]), client, start, start);
    assert events[..i + 1][..i] == events[..i];
    assert After(cfg, cleaning, events[..i + 1]) == AfterRequest(cfg, After(cfg, cleaning, events[..i]), client, start);
    SilentClient(cfg, cleaning, events, client, i + 1, j);
    WaitRefills(cfg, Lookup(After(cfg, cleaning, events[..j]), client), start, events[j].time, RetryAfterSeconds(cfg) as real);
  }

  /** The advised wait earns a token, or the cleanup has left a full bucket. */
  lemma {:induction false} WaitRefills(cfg: Config, bucket: Option<Bucket>, start: real, now: real, wait: real)
    requires cfg.Valid() && now - start >= wait && wait * cfg.rate >= 1.0
    requires bucket.Some? ==> bucket.value.tokens >= 0.0 && bucket.value.lastRefill == start
    ensures Available(cfg, bucket, now) >= 1.0 <==> cfg.burst >= 1
  {
    EarnedWithin(cfg, start, now, wait);
  }

  /** While a client is silent its bucket is left alone, or dropped by a cleanup. */
  lemma {:induction false} SilentClient(cfg: Config, cleaning: bool, events: seq<Event>, client: string, i: nat, j: nat)
    requires i <= j <= |events|
    requires forall k | i <= k < j && events[k].Request? :: events[k].client != client
    ensures var before, after := Lookup(After(cfg, cleaning, events[..i]), client), Lookup(After(cfg, cleaning, events[..j]), client);
            after == before || after == None
    decreases j
  {
    if i < j {
      SilentClient(cfg, cleaning, events, client, i, j - 1);
      assert events[..j][..j - 1] == events[..j - 1];
    }
  }
}
