/** Horizontal and vertical autoscaling (controllers/autoscale.go): clamped
    recommendations, pruned recommendation histories and stabilisation windows.
    Times and windows are in one unit; the clock never runs backwards. */
module Autoscaling {
  import opened Options

  datatype Recommendation = Recommendation(count: int, timestamp: int)

  /** A stabilisation window; a side that is not positive is switched off. */
  datatype Window = Window(up: int, down: int)

  const VERTICAL_WINDOW := Window(60, 300)

  datatype Policy = Policy(min: int, max: int, targets: map<string, int>)

  datatype Schedule = Schedule(withinWindow: bool, minimum: int)

  function MaxDuration(a: int, b: int): int {
    if a > b then a else b
  }

  // --- Stabilisation, on values -----------------------------------------------------------

  /** pruneRecommendations: drops the leading entries older than the cutoff. */
  function Pruned(history: seq<Recommendation>, cutoff: int): seq<Recommendation>
    decreases |history|
  {
    if history != [] && history[0].timestamp < cutoff then Pruned(history[1..], cutoff) else history
  }

  /** Some entry since `start` does not exceed the current value. */
  ghost predicate DeniesUp(history: seq<Recommendation>, current: int, start: int) {
    exists i :: 0 <= i < |history| && history[i].timestamp >= start && history[i].count <= current
  }

  /** Some entry since `start` is not below the current value. */
  ghost predicate DeniesDown(history: seq<Recommendation>, current: int, start: int) {
    exists i :: 0 <= i < |history| && history[i].timestamp >= start && history[i].count >= current
  }

  /** The stabilised value: the recommendation, or the current value when the window for
      that direction has not agreed throughout. */
  ghost function Decision(history: seq<Recommendation>, recommendation: int, current: int, window: Window, now: int): int {
    if current == 0 then recommendation
    else if recommendation > current && window.up > 0 && DeniesUp(history, current, now - window.up) then current
    else if recommendation < current && window.down > 0 && DeniesDown(history, current, now - window.down) then current
    else recommendation
  }

  function Recorded(history: seq<Recommendation>, recommendation: int, window: Window, now: int): seq<Recommendation> {
    Pruned(history + [Recommendation(recommendation, now)], now - MaxDuration(window.up, window.down))
  }

  function HistoryOf(histories: map<string, seq<Recommendation>>, key: string): seq<Recommendation> {
    if key in histories then histories[key] else []
  }

  method PruneRecommendations(history: seq<Recommendation>, cutoff: int) returns (kept: seq<Recommendation>)
    ensures kept == Pruned(history, cutoff)
  {
    var pruneStart := 0;
    while pruneStart < |history| && history[pruneStart].timestamp < cutoff
      invariant pruneStart <= |history|
      invariant Pruned(history, cutoff) == Pruned(history[pruneStart..], cutoff)
    {
      assert history[pruneStart..][1..] == history[pruneStart + 1..];
      pruneStart := pruneStart + 1;
    }
    kept := history[pruneStart..];
  }

  /** The two scans of a history for an entry that denies the move. */
  method Stabilize(history: seq<Recommendation>, recommendation: int, current: int, window: Window, now: int)
    returns (stabilized: int)
    ensures stabilized == Decision(history, recommendation, current, window, now)
  {
    if current == 0 {
      return recommendation;
    }
    if recommendation > current && window.up > 0 {
      var windowStart := now - window.up;
      for i := 0 to |history|
        invariant forall k | 0 <= k < i :: history[k].timestamp < windowStart || history[k].count > current
      {
        if history[i].timestamp < windowStart {
          continue;
        }
        if history[i].count <= current {
          assert DeniesUp(history, current, windowStart);
          return current;
        }
      }
    }
    if recommendation < current && window.down > 0 {
      var windowStart := now - window.down;
      for i := 0 to |history|
        invariant forall k | 0 <= k < i :: history[k].timestamp < windowStart || history[k].count < current
      {
        if history[i].timestamp < windowStart {
          continue;
        }
        if history[i].count >= current {
          assert DeniesDown(history, current, windowStart);
          return current;
        }
      }
    }
    return recommendation;
  }

  // --- The raw recommendation ----------------------------------------------------------------

  /** The exact ceiling of a / b. */
  function CeilDiv(a: int, b: int): (c: int)
    requires b != 0
    ensures if b > 0 then (c - 1) * b < a <= c * b else (c - 1) * b > a >= c * b
  {
    if b > 0 then -((-a) / b) else -(a / (-b))
  }

  /** Dividing by a target of zero is not an error in floating point; `atZero` is the integer
      that the platform turns the infinite or undefined quotient into. */
  function Share(demand: int, target: int, atZero: int -> int): int {
    if target == 0 then atZero(demand) else CeilDiv(demand, target)
  }

  /** The recommendations the sources make: the policy minimum, one per observed metric
      and event source with a target, and the schedule's minimum inside its window. */
  ghost predicate Candidate(policy: Policy, instances: int, metrics: map<string, int>, eventTargets: map<string, int>,
                            events: map<string, int>, schedule: Option<Schedule>, atZero: int -> int, n: int) {
    || n == policy.min
    || (exists m :: m in policy.targets && m in metrics && n == Share(instances * metrics[m], policy.targets[m], atZero))
    || (exists e :: e in eventTargets && e in events && n == Share(events[e], eventTargets[e], atZero))
    || (schedule.Some? && schedule.value.withinWindow && n == schedule.value.minimum)
  }

  /** computeRawHorizontalRecommendation: the largest recommendation of any source. */
  method ComputeRawHorizontalRecommendation(policy: Policy, instances: int, metrics: map<string, int>,
                                            eventTargets: map<string, int>, events: map<string, int>,
                                            schedule: Option<Schedule>, atZero: int -> int)
    returns (recommendation: int)
    ensures Candidate(policy, instances, metrics, eventTargets, events, schedule, atZero, recommendation)
    ensures forall n | Candidate(policy, instances, metrics, eventTargets, events, schedule, atZero, n) :: n <= recommendation
  {
    recommendation := policy.min;
    var remaining := policy.targets.Keys;
    while remaining != {}
      invariant remaining <= policy.targets.Keys
      invariant Candidate(policy, instances, metrics, eventTargets, events, schedule, atZero, recommendation)
      invariant policy.min <= recommendation
      invariant forall m | m in policy.targets && m in metrics && m !in remaining ::
                  Share(instances * metrics[m], policy.targets[m], atZero) <= recommendation
      decreases remaining
    {
      var m :| m in remaining;
      remaining := remaining - {m};
      if m in metrics {
        var metricRecommendation := Share(instances * metrics[m], policy.targets[m], atZero);
        if metricRecommendation > recommendation {
          recommendation := metricRecommendation;
        }
      }
    }
    var sources := eventTargets.Keys;
    while sources != {}
      invariant sources <= eventTargets.Keys
      invariant Candidate(policy, instances, metrics, eventTargets, events, schedule, atZero, recommendation)
      invariant policy.min <= recommendation
      invariant forall m | m in policy.targets && m in metrics :: Share(instances * metrics[m], policy.targets[m], atZero) <= recommendation
      invariant forall e | e in eventTargets && e in events && e !in sources :: Share(events[e], eventTargets[e], atZero) <= recommendation
      decreases sources
    {
      var e :| e in sources;
      sources := sources - {e};
      if e in events {
        var eventRecommendation := Share(events[e], eventTargets[e], atZero);
        if eventRecommendation > recommendation {
          recommendation := eventRecommendation;
        }
      }
    }
    if schedule.Some? && schedule.value.withinWindow && schedule.value.minimum > recommendation {
      recommendation := schedule.value.minimum;
    }
  }

  // --- Clamping ---------------------------------------------------------------------------------

  function Low(policy: Policy): int {
    if policy.min < policy.max then policy.min else policy.max
  }

  predicate WithinPolicy(policy: Policy, n: int) {
    Low(policy) <= n <= policy.max
  }

  /** The horizontal clamp: raise to the minimum, then lower to the maximum. */
  function Clamped(policy: Policy, recommendation: int): (n: int)
    ensures WithinPolicy(policy, n)
    ensures WithinPolicy(policy, recommendation) && policy.min <= policy.max ==> n == recommendation
  {
    var raised := if recommendation < policy.min then policy.min else recommendation;
    if raised > policy.max then policy.max else raised
  }

  function Distance(a: int, b: int): nat {
    if a < b then b - a else a - b
  }

  /** n is the count from minimum to maximum that is nearest to the recommendation; a maximum
      below the minimum is the only choice. */
  ghost predicate Nearest(policy: Policy, recommendation: int, n: int) {
    if policy.min > policy.max then n == policy.max
    else
      && policy.min <= n <= policy.max
      && forall m | policy.min <= m <= policy.max :: Distance(n, recommendation) <= Distance(m, recommendation)
  }

  lemma {:induction false} ClampedIsNearest(policy: Policy, recommendation: int)
    ensures Nearest(policy, recommendation, Clamped(policy, recommendation))
  {
  }

  /** What may be published: a count within the policy, or 1 for a service that is being
      activated although its maximum is below 1. */
  predicate Publishable(policy: Policy, activating: bool, n: int) {
    WithinPolicy(policy, n) || (activating && policy.max < 1 && n == 1)
  }

  ghost predicate AllWithin(policy: Policy, history: seq<Recommendation>) {
    forall i | 0 <= i < |history| :: WithinPolicy(policy, history[i].count)
  }

  lemma {:induction false} PrunedWithin(policy: Policy, history: seq<Recommendation>, cutoff: int)
    requires AllWithin(policy, history)
    ensures AllWithin(policy, Pruned(history, cutoff))
    decreases |history|
  {
    if history != [] {
      PrunedWithin(policy, history[1..], cutoff);
    }
  }

  /** Holding back returns the observed current count, whatever it is; the entry that
      caused it was clamped, so the count is within the policy all the same. */
  lemma {:induction false} DecisionWithin(policy: Policy, history: seq<Recommendation>, recommendation: int, current: int, window: Window, now: int)
    requires AllWithin(policy, history) && WithinPolicy(policy, recommendation)
    ensures WithinPolicy(policy, Decision(history, recommendation, current, window, now))
  {
  }

  // --- The controller ---------------------------------------------------------------------------

  /** What one reconcile knows about one service. */
  datatype Observation = Observation(
    active: int,
    metrics: map<string, int>,
    eventTargets: map<string, int>,
    events: map<string, int>,
    schedule: Option<Schedule>,
    window: Option<Window>,
    activating: bool)

  /** A service without metric targets, event targets, schedule, activation and warm-zero
      minimum is left alone. */
  predicate Skipped(policy: Policy, o: Observation) {
    policy.targets == map[] && o.eventTargets == map[] && o.schedule.None? && !o.activating && policy.min != 0
  }

  /** A service is published if and only if it has a metric target, an event target or a
      schedule, is being activated, or may be scaled to zero. */
  lemma {:induction false} PublishedMeans(policy: Policy, o: Observation)
    ensures !Skipped(policy, o) <==>
            || (exists m :: m in policy.targets) || (exists e :: e in o.eventTargets) || o.schedule.Some?
            || o.activating || policy.min == 0
  {
    assert policy.targets == map[] <==> policy.targets.Keys == {};
    assert o.eventTargets == map[] <==> o.eventTargets.Keys == {};
  }

  /** The largest recommendation for what was observed; a service without active instances
      is scaled as if it had one. */
  ghost predicate RawFor(policy: Policy, o: Observation, atZero: int -> int, raw: int) {
    var instances := if o.active == 0 then 1 else o.active;
    && Candidate(policy, instances, o.metrics, o.eventTargets, o.events, o.schedule, atZero, raw)
    && forall n | Candidate(policy, instances, o.metrics, o.eventTargets, o.events, o.schedule, atZero, n) :: n <= raw
  }

  /** The raw recommendation is clamped, recorded, stabilised against the observed count and
      raised to 1 on activation: `count` is published and `next` is the new history. */
  ghost predicate Outcome(policy: Policy, o: Observation, history: seq<Recommendation>, now: int,
                          raw: int, count: int, next: seq<Recommendation>) {
    var clamped := Clamped(policy, raw);
    var stable := if o.window.None? then clamped else Decision(next, clamped, o.active, o.window.value, now);
    && next == (if o.window.None? then history else Recorded(history, clamped, o.window.value, now))
    && count == if o.activating && stable < 1 then 1 else stable
  }

  ghost predicate Reconciled(policy: Policy, o: Observation, atZero: int -> int, history: seq<Recommendation>, now: int,
                             count: int, next: seq<Recommendation>) {
    exists raw :: RawFor(policy, o, atZero, raw) && Outcome(policy, o, history, now, raw, count, next)
  }

  /** What is published, in terms of the raw recommendation: the nearest count the policy
      allows, or the observed count held back in its place; at least 1 on activation. Without
      a window, or with no instance active, nothing is held back. */
  lemma {:induction false} OutcomeMeans(policy: Policy, o: Observation, history: seq<Recommendation>, now: int,
                                        raw: int, count: int, next: seq<Recommendation>)
    requires Outcome(policy, o, history, now, raw, count, next)
    ensures o.activating ==> count >= 1
    ensures Nearest(policy, raw, count) || (o.window.Some? && o.active != 0 && count == o.active) || (o.activating && count == 1)
    ensures !o.activating && (o.window.None? || o.active == 0) ==> Nearest(policy, raw, count)
  {
    ClampedIsNearest(policy, raw);
  }

  lemma {:induction false} RawUnique(policy: Policy, o: Observation, atZero: int -> int, a: int, b: int)
    requires RawFor(policy, o, atZero, a) && RawFor(policy, o, atZero, b)
    ensures a == b
  {
  }

  /** So for every service that is reconciled: an activating one gets at least 1, and one that
      is not activating and has no window, or nothing running, the nearest allowed count. */
  lemma {:induction false} PublishedIsNearest(policy: Policy, o: Observation, atZero: int -> int, history: seq<Recommendation>,
                                              now: int, count: int, next: seq<Recommendation>, raw: int)
    requires Reconciled(policy, o, atZero, history, now, count, next) && RawFor(policy, o, atZero, raw)
    ensures o.activating ==> count >= 1
    ensures !o.activating && (o.window.None? || o.active == 0) ==> Nearest(policy, raw, count)
    ensures Nearest(policy, raw, count) || (o.window.Some? && o.active != 0 && count == o.active) || (o.activating && count == 1)
  {
    var r :| RawFor(policy, o, atZero, r) && Outcome(policy, o, history, now, r, count, next);
    RawUnique(policy, o, atZero, raw, r);
    OutcomeMeans(policy, o, history, now, r, count, next);
  }

  /** With n instances no metric exceeds its target per instance, no event source either, and
      the minimum and a schedule in force are met. */
  ghost predicate Sufficient(policy: Policy, o: Observation, n: int) {
    && n >= policy.min
    && (forall m | m in policy.targets && m in o.metrics ::
          n * policy.targets[m] >= (if o.active == 0 then 1 else o.active) * o.metrics[m])
    && (forall e | e in o.eventTargets && e in o.events :: n * o.eventTargets[e] >= o.events[e])
    && (o.schedule.Some? && o.schedule.value.withinWindow ==> n >= o.schedule.value.minimum)
  }

  lemma {:induction false} CeilingIsLeast(a: int, b: int, n: int)
    requires b > 0
    ensures n >= CeilDiv(a, b) <==> n * b >= a
  {
    var c := CeilDiv(a, b);
    if n >= c {
      assert n * b == c * b + (n - c) * b;
    } else {
      assert n * b == (c - 1) * b - (c - 1 - n) * b;
    }
  }

  /** With positive targets the raw recommendation is the least sufficient number. */
  lemma {:induction false} RawIsLeastSufficient(policy: Policy, o: Observation, atZero: int -> int, raw: int, n: int)
    requires forall m | m in policy.targets :: policy.targets[m] > 0
    requires forall e | e in o.eventTargets :: o.eventTargets[e] > 0
    requires RawFor(policy, o, atZero, raw)
    ensures n >= raw <==> Sufficient(policy, o, n)
  {
    var instances := if o.active == 0 then 1 else o.active;
    assert Candidate(policy, instances, o.metrics, o.eventTargets, o.events, o.schedule, atZero, policy.min);
    if o.schedule.Some? && o.schedule.value.withinWindow {
      assert Candidate(policy, instances, o.metrics, o.eventTargets, o.events, o.schedule, atZero, o.schedule.value.minimum);
    }
    forall m | m in policy.targets && m in o.metrics
      ensures n >= Share(instances * o.metrics[m], policy.targets[m], atZero) <==> n * policy.targets[m] >= instances * o.metrics[m]
      ensures Share(instances * o.metrics[m], policy.targets[m], atZero) <= raw
    {
      CeilingIsLeast(instances * o.metrics[m], policy.targets[m], n);
      assert Candidate(policy, instances, o.metrics, o.eventTargets, o.events, o.schedule, atZero,
                       Share(instances * o.metrics[m], policy.targets[m], atZero));
    }
    forall e | e in o.eventTargets && e in o.events
      ensures n >= Share(o.events[e], o.eventTargets[e], atZero) <==> n * o.eventTargets[e] >= o.events[e]
      ensures Share(o.events[e], o.eventTargets[e], atZero) <= raw
    {
      CeilingIsLeast(o.events[e], o.eventTargets[e], n);
      assert Candidate(policy, instances, o.metrics, o.eventTargets, o.events, o.schedule, atZero,
                       Share(o.events[e], o.eventTargets[e], atZero));
    }
  }

  class AutoscaleController {
    var recommendationHistory: map<string, seq<Recommendation>>
    var verticalRecommendationHistory: map<string, seq<Recommendation>>
    const atZero: int -> int

    constructor (atZero: int -> int)
      ensures recommendationHistory == map[] && verticalRecommendationHistory == map[] && this.atZero == atZero
    {
      recommendationHistory, verticalRecommendationHistory := map[], map[];
      this.atZero := atZero;
    }

    method ApplyStabilizationWindow(service: string, recommendation: int, current: int, window: Option<Window>, now: int)
      returns (stabilized: int)
      modifies this`recommendationHistory
      ensures window.None? ==> stabilized == recommendation && recommendationHistory == old(recommendationHistory)
      ensures window.Some? ==>
                var history := Recorded(HistoryOf(old(recommendationHistory), service), recommendation, window.value, now);
                && recommendationHistory == old(recommendationHistory)[service := history]
                && stabilized == Decision(history, recommendation, current, window.value, now)
    {
      if window.None? {
        return recommendation;
      }
      var cutoff := now - MaxDuration(window.value.up, window.value.down);
      var history := HistoryOf(recommendationHistory, service) + [Recommendation(recommendation, now)];
      history := PruneRecommendations(history, cutoff);
      recommendationHistory := recommendationHistory[service := history];
      stabilized := Stabilize(history, recommendation, current, window.value, now);
    }

    method ApplyVerticalStabilization(resourceKey: string, recommendation: int, current: int, now: int)
      returns (stabilized: int)
      modifies this`verticalRecommendationHistory
      ensures var history := Recorded(HistoryOf(old(verticalRecommendationHistory), resourceKey), recommendation, VERTICAL_WINDOW, now);
              && verticalRecommendationHistory == old(verticalRecommendationHistory)[resourceKey := history]
              && stabilized == Decision(history, recommendation, current, VERTICAL_WINDOW, now)
    {
      var history := HistoryOf(verticalRecommendationHistory, resourceKey) + [Recommendation(recommendation, now)];
      history := PruneRecommendations(history, now - VERTICAL_WINDOW.down);
      verticalRecommendationHistory := verticalRecommendationHistory[resourceKey := history];
      stabilized := Stabilize(history, recommendation, current, VERTICAL_WINDOW, now);
    }

    /** Every recorded recommendation of a service lies within its policy. */
    ghost predicate WithinPolicies(policies: map<string, Policy>)
      reads this`recommendationHistory
    {
      forall s | s in policies && s in recommendationHistory :: AllWithin(policies[s], recommendationHistory[s])
    }

    /** One service: raw recommendation, clamp, stabilise, activate. */
    method ReconcileService(service: string, policies: map<string, Policy>, o: Observation, now: int) returns (count: int)
      requires service in policies && WithinPolicies(policies)
      modifies this`recommendationHistory
      ensures WithinPolicies(policies)
      ensures Publishable(policies[service], o.activating, count)
      ensures Reconciled(policies[service], o, atZero, HistoryOf(old(recommendationHistory), service), now,
                         count, HistoryOf(recommendationHistory, service))
      ensures forall s | s != service :: HistoryOf(recommendationHistory, s) == HistoryOf(old(recommendationHistory), s)
    {
      var policy := policies[service];
      var instances := if o.active == 0 then 1 else o.active;
      var raw := ComputeRawHorizontalRecommendation(policy, instances, o.metrics, o.eventTargets, o.events, o.schedule, atZero);
      var recommendation := Clamped(policy, raw);
      if o.window.Some? {
        ghost var longer := HistoryOf(recommendationHistory, service) + [Recommendation(recommendation, now)];
        PrunedWithin(policy, longer, now - MaxDuration(o.window.value.up, o.window.value.down));
        DecisionWithin(policy, Recorded(HistoryOf(recommendationHistory, service), recommendation, o.window.value, now),
                       recommendation, o.active, o.window.value, now);
      }
      assert RawFor(policy, o, atZero, raw);
      count := ApplyStabilizationWindow(service, recommendation, o.active, o.window, now);
      if o.activating && count < 1 {
        count := 1;
      }
      assert Outcome(policy, o, HistoryOf(old(recommendationHistory), service), now, raw, count, HistoryOf(recommendationHistory, service));
    }

    /** buildHorizontalScalingChanges. Called again and again with the same policies it
        keeps publishing counts the policies allow, whatever it observes. */
    method BuildHorizontalScalingChanges(policies: map<string, Policy>, observations: map<string, Observation>, now: int)
      returns (changes: map<string, int>)
      requires policies.Keys <= observations.Keys
      requires WithinPolicies(policies)
      modifies this`recommendationHistory
      ensures WithinPolicies(policies)
      ensures changes.Keys == set s | s in policies && !Skipped(policies[s], observations[s])
      ensures forall s | s in changes :: Publishable(policies[s], observations[s].activating, changes[s])
      ensures forall s | s in changes ::
                Reconciled(policies[s], observations[s], atZero, HistoryOf(old(recommendationHistory), s), now,
                           changes[s], HistoryOf(recommendationHistory, s))
      ensures forall s | s !in changes :: HistoryOf(recommendationHistory, s) == HistoryOf(old(recommendationHistory), s)
    {
      changes := map[];
      var remaining := policies.Keys;
      while remaining != {}
        invariant remaining <= policies.Keys
        invariant WithinPolicies(policies)
        invariant changes.Keys == set s | s in policies && s !in remaining && !Skipped(policies[s], observations[s])
        invariant forall s | s in changes :: Publishable(policies[s], observations[s].activating, changes[s])
        invariant forall s | s in changes ::
                    Reconciled(policies[s], observations[s], atZero, HistoryOf(old(recommendationHistory), s), now,
                               changes[s], HistoryOf(recommendationHistory, s))
        invariant forall s | s !in changes :: HistoryOf(recommendationHistory, s) == HistoryOf(old(recommendationHistory), s)
        decreases remaining
      {
        var service :| service in remaining;
        remaining := remaining - {service};
        if !Skipped(policies[service], observations[service]) {
          var count := ReconcileService(service, policies, observations[service], now);
          changes := changes[service := count];
        }
      }
    }
  }

  // --- Runs --------------------------------------------------------------------------------------

  /** One stabilisation call, with the window in force at that moment, if there is one; calls
      of several services interleave. */
  datatype Call = Call(service: string, recommendation: int, current: int, time: int, window: Option<Window>)

  ghost predicate Monotone(calls: seq<Call>) {
    forall i, j | 0 <= i < j < |calls| :: calls[i].time <= calls[j].time
  }

  predicate Records(c: Call, service: string) {
    c.service == service && c.window.Some?
  }

  function Entry(c: Call): Recommendation {
    Recommendation(c.recommendation, c.time)
  }

  function Cutoff(c: Call): int
    requires c.window.Some?
  {
    c.time - MaxDuration(c.window.value.up, c.window.value.down)
  }

  /** The controller's histories after the calls. */
  function Histories(calls: seq<Call>): map<string, seq<Recommendation>>
    decreases |calls|
  {
    if calls == [] then map[]
    else
      var earlier, c := Histories(calls[..|calls| - 1]), calls[|calls| - 1];
      if c.window.Some? then
        earlier[c.service := Recorded(HistoryOf(earlier, c.service), c.recommendation, c.window.value, c.time)]
      else earlier
  }

  /** The stored history of one service. */
  function Stored(calls: seq<Call>, service: string): seq<Recommendation> {
    HistoryOf(Histories(calls), service)
  }

  /** Everything ever recorded for the service, nothing pruned. */
  function FullHistory(calls: seq<Call>, service: string): seq<Recommendation>
    decreases |calls|
  {
    if calls == [] then []
    else
      var earlier, c := FullHistory(calls[..|calls| - 1], service), calls[|calls| - 1];
      if Records(c, service) then earlier + [Entry(c)] else earlier
  }

  /** Call i recorded for the service, and call j, itself or a later one, pruned it. */
  predicate PrunedBy(calls: seq<Call>, service: string, i: int, j: int) {
    0 <= i <= j < |calls| && Records(calls[j], service) && calls[i].time < Cutoff(calls[j])
  }

  ghost predicate Forgotten(calls: seq<Call>, service: string, i: int) {
    exists j :: PrunedBy(calls, service, i, j)
  }

  ghost predicate Kept(calls: seq<Call>, service: string, i: int) {
    0 <= i < |calls| && Records(calls[i], service) && !Forgotten(calls, service, i)
  }

  ghost predicate Ascending(history: seq<Recommendation>) {
    forall i, j | 0 <= i < j < |history| :: history[i].timestamp <= history[j].timestamp
  }

  lemma {:induction false} PrunedFilters(history: seq<Recommendation>, cutoff: int, r: Recommendation)
    requires Ascending(history)
    ensures r in Pruned(history, cutoff) <==> r in history && r.timestamp >= cutoff
    decreases |history|
  {
    if history != [] && history[0].timestamp < cutoff {
      PrunedFilters(history[1..], cutoff, r);
      assert history == [history[0]] + history[1..];
    }
  }

  lemma {:induction false} KeptStep(calls: seq<Call>, service: string, i: nat)
    requires calls != [] && i < |calls|
    ensures var shorter, c := calls[..|calls| - 1], calls[|calls| - 1];
            Kept(calls, service, i) <==>
            if Records(c, service) then (Kept(shorter, service, i) || i == |calls| - 1) && calls[i].time >= Cutoff(c)
            else Kept(shorter, service, i)
  {
    var shorter, n := calls[..|calls| - 1], |calls| - 1;
    assert forall j | 0 <= j < n :: PrunedBy(calls, service, i, j) == PrunedBy(shorter, service, i, j);
    assert Records(calls[n], service) && calls[i].time < Cutoff(calls[n]) ==> PrunedBy(calls, service, i, n);
  }

  ghost predicate KeptAs(calls: seq<Call>, service: string, r: Recommendation) {
    exists i :: Kept(calls, service, i) && Entry(calls[i]) == r
  }

  lemma {:induction false} KeptAsStep(calls: seq<Call>, service: string, r: Recommendation)
    requires calls != []
    ensures var shorter, c := calls[..|calls| - 1], calls[|calls| - 1];
            KeptAs(calls, service, r) <==>
            if Records(c, service) then (KeptAs(shorter, service, r) || Entry(c) == r) && r.timestamp >= Cutoff(c)
            else KeptAs(shorter, service, r)
  {
    var shorter, n := calls[..|calls| - 1], |calls| - 1;
    if i :| Kept(calls, service, i) && Entry(calls[i]) == r {
      KeptStep(calls, service, i);
      assert i < n ==> Entry(shorter[i]) == r;
    }
    if i :| Kept(shorter, service, i) && Entry(shorter[i]) == r {
      KeptStep(calls, service, i);
      assert Entry(calls[i]) == r;
    }
    KeptStep(calls, service, n);
  }

  ghost predicate NoneAfter(history: seq<Recommendation>, time: int) {
    forall i | 0 <= i < |history| :: history[i].timestamp <= time
  }

  lemma {:induction false} PrunedKeepsOrder(history: seq<Recommendation>, cutoff: int, time: int)
    requires Ascending(history) && NoneAfter(history, time)
    ensures Ascending(Pruned(history, cutoff)) && NoneAfter(Pruned(history, cutoff), time)
    decreases |history|
  {
    if history != [] { PrunedKeepsOrder(history[1..], cutoff, time); }
  }

  lemma {:induction false} StoredInOrder(calls: seq<Call>, service: string, time: int)
    requires Monotone(calls) && (calls != [] ==> calls[|calls| - 1].time <= time)
    ensures Ascending(Stored(calls, service)) && NoneAfter(Stored(calls, service), time)
    decreases |calls|
  {
    if calls != [] {
      var shorter, c := calls[..|calls| - 1], calls[|calls| - 1];
      StoredInOrder(shorter, service, c.time);
      if Records(c, service) {
        PrunedKeepsOrder(Stored(shorter, service) + [Entry(c)], Cutoff(c), c.time);
      }
    }
  }

  /** Whatever windows were in force, the stored history holds exactly the recorded entries
      that no cutoff used since has passed. */
  lemma {:induction false} StoredExactly(calls: seq<Call>, service: string, r: Recommendation)
    requires Monotone(calls)
    ensures r in Stored(calls, service) <==> KeptAs(calls, service, r)
    decreases |calls|
  {
    if calls != [] {
      var shorter, c := calls[..|calls| - 1], calls[|calls| - 1];
      StoredExactly(shorter, service, r);
      KeptAsStep(calls, service, r);
      StoredInOrder(shorter, service, c.time);
      if Records(c, service) {
        PrunedFilters(Stored(shorter, service) + [Entry(c)], Cutoff(c), r);
      }
    }
  }

  predicate SuffixOf(kept: seq<Recommendation>, full: seq<Recommendation>) {
    |kept| <= |full| && kept == full[|full| - |kept|..]
  }

  lemma {:induction false} PrunedIsSuffix(history: seq<Recommendation>, cutoff: int)
    ensures SuffixOf(Pruned(history, cutoff), history)
    decreases |history|
  {
    if history != [] { PrunedIsSuffix(history[1..], cutoff); }
  }

  /** The stored history is the full one without some of its first entries. */
  lemma {:induction false} StoredIsSuffix(calls: seq<Call>, service: string)
    ensures SuffixOf(Stored(calls, service), FullHistory(calls, service))
    decreases |calls|
  {
    if calls != [] {
      var shorter, c := calls[..|calls| - 1], calls[|calls| - 1];
      StoredIsSuffix(shorter, service);
      if Records(c, service) {
        var stored, full := Stored(shorter, service) + [Entry(c)], FullHistory(calls, service);
        PrunedIsSuffix(stored, Cutoff(c));
        assert stored == full[|full| - |stored|..];
      }
    }
  }

  lemma {:induction false} FullExactly(calls: seq<Call>, service: string, r: Recommendation)
    ensures r in FullHistory(calls, service) <==> exists i :: 0 <= i < |calls| && Records(calls[i], service) && Entry(calls[i]) == r
    decreases |calls|
  {
    if calls != [] {
      var shorter := calls[..|calls| - 1];
      FullExactly(shorter, service, r);
      assert forall i | 0 <= i < |shorter| :: shorter[i] == calls[i];
    }
  }

  // --- The controller's calls ----------------------------------------------------------------------

  /** One reconcile of a service is one call of a run, with the clamped recommendation: it
      leaves the history and publishes the count that the run does. */
  lemma {:induction false} ReconcileIsCall(policy: Policy, o: Observation, now: int, raw: int, count: int,
                                           next: seq<Recommendation>, calls: seq<Call>, service: string)
    requires Outcome(policy, o, Stored(calls, service), now, raw, count, next)
    ensures var longer := calls + [Call(service, Clamped(policy, raw), o.active, now, o.window)];
            next == Stored(longer, service) && (!o.activating ==> count == Returned(longer))
  {
    var longer := calls + [Call(service, Clamped(policy, raw), o.active, now, o.window)];
    assert longer[..|calls|] == calls;
  }

  // --- When pruning is invisible -------------------------------------------------------------------

  /** The window of a call reaches back to the time. */
  predicate InSight(c: Call, time: int) {
    c.window.Some? &&
      var w := c.window.value;
      (w.up > 0 && time >= c.time - w.up) || (w.down > 0 && time >= c.time - w.down)
  }

  /** No earlier call of the service that the present window reaches has been forgotten. */
  ghost predicate NothingForgotten(calls: seq<Call>)
    requires calls != []
  {
    var c := calls[|calls| - 1];
    forall i | 0 <= i < |calls| && Records(calls[i], c.service) && InSight(c, calls[i].time) :: !Forgotten(calls, c.service, i)
  }

  /** What the last call returns, and what it would return from the unpruned history. */
  ghost function Returned(calls: seq<Call>): int
    requires calls != []
  {
    var c := calls[|calls| - 1];
    if c.window.None? then c.recommendation
    else Decision(Stored(calls, c.service), c.recommendation, c.current, c.window.value, c.time)
  }

  ghost function ReturnedFromFull(calls: seq<Call>): int
    requires calls != []
  {
    var c := calls[|calls| - 1];
    if c.window.None? then c.recommendation
    else Decision(FullHistory(calls, c.service), c.recommendation, c.current, c.window.value, c.time)
  }

  /** Two histories with the same entries in sight decide alike. */
  lemma {:induction false} SameSightSameDecision(a: seq<Recommendation>, b: seq<Recommendation>, c: Call)
    requires c.window.Some? && forall r: Recommendation | InSight(c, r.timestamp) :: r in a <==> r in b
    ensures Decision(a, c.recommendation, c.current, c.window.value, c.time) ==
            Decision(b, c.recommendation, c.current, c.window.value, c.time)
  {
    SeenIn(a, b, c);
    SeenIn(b, a, c);
  }

  lemma {:induction false} SeenIn(a: seq<Recommendation>, b: seq<Recommendation>, c: Call)
    requires c.window.Some? && forall r: Recommendation | InSight(c, r.timestamp) :: r in a <==> r in b
    ensures c.window.value.up > 0 && DeniesUp(a, c.current, c.time - c.window.value.up) ==>
            DeniesUp(b, c.current, c.time - c.window.value.up)
    ensures c.window.value.down > 0 && DeniesDown(a, c.current, c.time - c.window.value.down) ==>
            DeniesDown(b, c.current, c.time - c.window.value.down)
  {
    forall r | r in a && InSight(c, r.timestamp) ensures exists k :: 0 <= k < |b| && b[k] == r { assert r in b; }
  }

  /** If nothing in sight was forgotten, the pruned history decides as the full one. */
  lemma {:induction false} PrunedDecidesAsFull(calls: seq<Call>)
    requires calls != [] && Monotone(calls) && NothingForgotten(calls)
    ensures Returned(calls) == ReturnedFromFull(calls)
  {
    var c := calls[|calls| - 1];
    if c.window.Some? {
      forall r: Recommendation | InSight(c, r.timestamp) ensures r in Stored(calls, c.service) <==> r in FullHistory(calls, c.service) {
        StoredExactly(calls, c.service, r);
        FullExactly(calls, c.service, r);
        if i :| 0 <= i < |calls| && Records(calls[i], c.service) && Entry(calls[i]) == r {
          assert Kept(calls, c.service, i);
        }
      }
      SameSightSameDecision(Stored(calls, c.service), FullHistory(calls, c.service), c);
    }
  }

  /** The same calls at the same times with the same windows; recommendations and observed
      counts are free. */
  ghost predicate SameSchedule(calls: seq<Call>, other: seq<Call>) {
    && |other| == |calls|
    && forall i | 0 <= i < |calls| :: other[i] == calls[i].(recommendation := other[i].recommendation, current := other[i].current)
  }

  /** One recommendation at call k, which is also the observed count, and `rest` elsewhere. */
  function Singled(calls: seq<Call>, k: nat, odd: int, rest: int): (other: seq<Call>)
    ensures |other| == |calls|
    ensures forall i | 0 <= i < |calls| :: other[i] == calls[i].(recommendation := if i == k then odd else rest, current := odd)
  {
    seq(|calls|, i requires 0 <= i < |calls| => calls[i].(recommendation := if i == k then odd else rest, current := odd))
  }

  lemma {:induction false} ForgottenAlike(calls: seq<Call>, other: seq<Call>, service: string, i: int)
    requires SameSchedule(calls, other)
    ensures Forgotten(calls, service, i) <==> Forgotten(other, service, i)
  {
    forall j ensures PrunedBy(calls, service, i, j) <==> PrunedBy(other, service, i, j) {}
  }

  /** A forgotten call in sight can be the only one that denies the move: the full history
      holds back, the pruned one does not. */
  lemma {:induction false} ForgettingShows(calls: seq<Call>, k: nat, rest: int)
    requires calls != [] && Monotone(calls) && k < |calls|
    requires var c := calls[|calls| - 1];
             && c.window.Some? && Records(calls[k], c.service) && Forgotten(calls, c.service, k)
             && (if rest > 1 then c.window.value.up > 0 && calls[k].time >= c.time - c.window.value.up
                 else rest < 1 && c.window.value.down > 0 && calls[k].time >= c.time - c.window.value.down)
    ensures var other := Singled(calls, k, 1, rest);
            SameSchedule(calls, other) && Returned(other) == rest && ReturnedFromFull(other) == 1
  {
    var other, n := Singled(calls, k, 1, rest), |calls| - 1;
    var c := other[n];
    assert k != n;
    var full, stored := FullHistory(other, c.service), Stored(other, c.service);
    FullExactly(other, c.service, Entry(other[k]));
    assert Entry(other[k]) in full;
    forall r | r in stored ensures r.count == rest {
      StoredExactly(other, c.service, r);
      var i :| Kept(other, c.service, i) && Entry(other[i]) == r;
      if i == k { ForgottenAlike(calls, other, c.service, k); }
    }
  }

  /** For a schedule of call times and windows, the pruned history decides as the full one
      whatever is recommended and observed, if and only if no call that the present window
      reaches lies below a cutoff that was used at or after it. */
  lemma {:induction false} PruningInvisibleIff(calls: seq<Call>)
    requires calls != [] && Monotone(calls)
    ensures (forall other | SameSchedule(calls, other) :: Returned(other) == ReturnedFromFull(other)) <==> NothingForgotten(calls)
  {
    var c := calls[|calls| - 1];
    if NothingForgotten(calls) {
      forall other | SameSchedule(calls, other) ensures Returned(other) == ReturnedFromFull(other) {
        NothingForgottenAlike(calls, other);
        PrunedDecidesAsFull(other);
      }
    } else {
      var k :| 0 <= k < |calls| && Records(calls[k], c.service) && InSight(c, calls[k].time) && Forgotten(calls, c.service, k);
      var w := c.window.value;
      var rest := if w.up > 0 && calls[k].time >= c.time - w.up then 2 else 0;
      ForgettingShows(calls, k, rest);
      assert SameSchedule(calls, Singled(calls, k, 1, rest));
    }
  }

  lemma {:induction false} NothingForgottenAlike(calls: seq<Call>, other: seq<Call>)
    requires calls != [] && Monotone(calls) && SameSchedule(calls, other) && NothingForgotten(calls)
    ensures other != [] && Monotone(other) && NothingForgotten(other)
  {
    var c := other[|other| - 1];
    forall i | 0 <= i < |other| && Records(other[i], c.service) && InSight(c, other[i].time)
      ensures !Forgotten(other, c.service, i)
    {
      ForgottenAlike(calls, other, c.service, i);
    }
  }

  /** A window that reaches no further back than any window since used for the service
      forgets nothing it can see: fixed windows and narrowed ones do, for instance. */
  lemma {:induction false} NarrowerForgetsNothing(calls: seq<Call>)
    requires calls != [] && Monotone(calls)
    requires var c := calls[|calls| - 1];
             c.window.Some? ==> forall j | 0 <= j < |calls| && Records(calls[j], c.service) ::
               MaxDuration(c.window.value.up, c.window.value.down) <= MaxDuration(calls[j].window.value.up, calls[j].window.value.down)
    ensures NothingForgotten(calls)
  {
    assert forall j | 0 <= j < |calls| :: calls[j].time <= calls[|calls| - 1].time;
  }

  /** Widening forgets: an entry pruned under the short window is missing under the long one,
      and a move goes through that the full history denies. */
  lemma {:induction false} WidenedWindowForgets(service: string)
    ensures var narrow, wide := Some(Window(1, 1)), Some(Window(10, 10));
            var calls := [Call(service, 1, 1, 0, narrow), Call(service, 2, 1, 5, narrow), Call(service, 2, 1, 6, wide)];
            Returned(calls) == 2 && ReturnedFromFull(calls) == 1
  {
    var narrow, wide := Some(Window(1, 1)), Some(Window(10, 10));
    var calls := [Call(service, 1, 1, 0, narrow), Call(service, 2, 1, 5, narrow), Call(service, 2, 1, 6, wide)];
    assert PrunedBy(calls, service, 0, 1);
    ForgettingShows(calls, 0, 2);
    assert Singled(calls, 0, 1, 2) == calls;
  }

  // --- What stabilisation means ---------------------------------------------------------------------

  /** A non-zero count moves up exactly when the recommendation is above it and so was every
      recommendation of the last up-window, and down likewise. */
  lemma {:induction false} MovesIffSustained(calls: seq<Call>)
    requires calls != [] && Monotone(calls) && NothingForgotten(calls)
    requires calls[|calls| - 1].window.Some? && calls[|calls| - 1].current != 0
    ensures var c := calls[|calls| - 1];
            var w, full := c.window.value, FullHistory(calls, c.service);
            && (Returned(calls) == c.recommendation || Returned(calls) == c.current)
            && (Returned(calls) > c.current <==>
                  c.recommendation > c.current
                  && (w.up > 0 ==> forall i | 0 <= i < |full| && full[i].timestamp >= c.time - w.up :: full[i].count > c.current))
            && (Returned(calls) < c.current <==>
                  c.recommendation < c.current
                  && (w.down > 0 ==> forall i | 0 <= i < |full| && full[i].timestamp >= c.time - w.down :: full[i].count < c.current))
  {
    PrunedDecidesAsFull(calls);
  }

  /** Without a window, or with nothing running, the recommendation is followed at once. */
  lemma {:induction false} FollowedAtOnce(calls: seq<Call>)
    requires calls != [] && (calls[|calls| - 1].window.None? || calls[|calls| - 1].current == 0)
    ensures Returned(calls) == calls[|calls| - 1].recommendation
  {
  }

  /** With fixed windows, in particular with the vertical ones of one and five minutes, at
      every call of every run the pruned history decides as the full one. */
  lemma {:induction false} FixedWindowDecidesAsFull(calls: seq<Call>, window: Window)
    requires calls != [] && Monotone(calls)
    requires forall i | 0 <= i < |calls| && calls[i].service == calls[|calls| - 1].service :: calls[i].window == Some(window)
    ensures NothingForgotten(calls) && Returned(calls) == ReturnedFromFull(calls)
  {
    NarrowerForgetsNothing(calls);
    PrunedDecidesAsFull(calls);
  }

  /** A vertical resource with a value grows exactly when every recommendation of the last
      minute was above the value, and shrinks when every one of five minutes was below it. */
  lemma {:induction false} VerticalMovesIffSustained(calls: seq<Call>)
    requires calls != [] && Monotone(calls) && calls[|calls| - 1].current != 0
    requires forall i | 0 <= i < |calls| :: calls[i].window == Some(VERTICAL_WINDOW)
    ensures var c := calls[|calls| - 1];
            var full := FullHistory(calls, c.service);
            && (Returned(calls) == c.recommendation || Returned(calls) == c.current)
            && (Returned(calls) > c.current <==>
                  c.recommendation > c.current && forall r | r in full && r.timestamp >= c.time - 60 :: r.count > c.current)
            && (Returned(calls) < c.current <==>
                  c.recommendation < c.current && forall r | r in full && r.timestamp >= c.time - 300 :: r.count < c.current)
  {
    FixedWindowDecidesAsFull(calls, VERTICAL_WINDOW);
    MovesIffSustained(calls);
  }

  /** With every recommendation clamped to a fixed policy, every call of every run returns a
      count within the policy, even when it holds the observed count and whatever windows
      were in force. */
  lemma {:induction false} ReturnedWithinPolicy(calls: seq<Call>, policy: Policy)
    requires calls != [] && Monotone(calls)
    requires forall i | 0 <= i < |calls| && calls[i].service == calls[|calls| - 1].service ::
               WithinPolicy(policy, calls[i].recommendation)
    ensures WithinPolicy(policy, Returned(calls))
  {
    var c := calls[|calls| - 1];
    if c.window.Some? {
      var stored := Stored(calls, c.service);
      forall i | 0 <= i < |stored| ensures WithinPolicy(policy, stored[i].count) {
        StoredExactly(calls, c.service, stored[i]);
      }
      DecisionWithin(policy, stored, c.recommendation, c.current, c.window.value, c.time);
    }
  }
}
