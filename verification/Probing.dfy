/** The probe scheduler (agent/probes.go): startup, liveness and readiness checks of one
    instance, with initial delays, intervals, consecutive-result thresholds and a startup gate. */
module Probing {
  import opened Options

  /** Durations and times are in nanoseconds. */
  datatype Config = Config(interval: int, initialDelay: int, failureThreshold: int, successThreshold: int)

  datatype Tracker = Tracker(startTime: int, started: bool, lastCheck: Option<int>, failures: nat, successes: nat)

  /** The startup fact in the store; NotWritten also stands for any unknown value. */
  datatype StartupFact = NotWritten | Pending | Succeeded | Failed

  /** A liveness or readiness probe: its tracker, once created, and the fact in the store,
      Some(true) for healthy or ready and Some(false) for unhealthy or not ready. */
  datatype Probe = Probe(tracker: Option<Tracker>, fact: Option<bool>)

  datatype Configs = Configs(startup: Option<Config>, liveness: Option<Config>, readiness: Option<Config>)

  datatype State = State(startup: Option<Tracker>, startupFact: StartupFact, liveness: Probe, readiness: Probe)

  /** One pass: the time, whether the instance has an address, and how each check would end. */
  datatype Pass = Pass(now: int, addressed: bool, startupPasses: bool, livenessPasses: bool, readinessPasses: bool)

  // --- One probe at one pass ----------------------------------------------------------------------

  function Created(tracker: Option<Tracker>, now: int): Tracker {
    match tracker case Some(t) => t case None => Tracker(now, false, None, 0, 0)
  }

  predicate Delayed(t: Tracker, c: Config, now: int) {
    !t.started && now - t.startTime < c.initialDelay
  }

  /** A check runs: the initial delay is over and the interval since the last one has passed. */
  predicate Due(t: Tracker, c: Config, now: int) {
    !Delayed(t, c, now) && (t.lastCheck.None? || now - t.lastCheck.value >= c.interval)
  }

  function Begun(t: Tracker, c: Config, now: int): Tracker {
    if Delayed(t, c, now) then t else t.(started := true)
  }

  function Counted(t: Tracker, now: int, passed: bool): Tracker {
    if passed then t.(lastCheck := Some(now), successes := t.successes + 1, failures := 0)
    else t.(lastCheck := Some(now), failures := t.failures + 1, successes := 0)
  }

  predicate AtThreshold(t: Tracker, c: Config, passed: bool) {
    if passed then t.successes >= c.successThreshold else t.failures >= c.failureThreshold
  }

  function Probed(p: Probe, c: Config, now: int, passed: bool): Probe {
    var t := Created(p.tracker, now);
    if !Due(t, c, now) then Probe(Some(Begun(t, c, now)), p.fact)
    else
      var counted := Counted(Begun(t, c, now), now, passed);
      Probe(Some(counted), if AtThreshold(counted, c, passed) then Some(passed) else p.fact)
  }

  predicate Final(fact: StartupFact) {
    fact.Succeeded? || fact.Failed?
  }

  function StartupProbed(t: Tracker, fact: StartupFact, c: Config, now: int, passed: bool): (Tracker, StartupFact) {
    if Final(fact) then (t, fact)
    else if !Due(t, c, now) then (Begun(t, c, now), fact)
    else
      var counted := Counted(Begun(t, c, now), now, passed);
      (counted, if !AtThreshold(counted, c, passed) then Pending else if passed then Succeeded else Failed)
  }

  function AfterStartup(cs: Configs, s: State, pass: Pass): State {
    if cs.startup.None? then s
    else
      var (tracker, fact) := StartupProbed(Created(s.startup, pass.now), s.startupFact, cs.startup.value, pass.now, pass.startupPasses);
      s.(startup := Some(tracker), startupFact := fact)
  }

  predicate StartupComplete(cs: Configs, s: State) {
    cs.startup.None? || s.startupFact.Succeeded?
  }

  predicate Skipped(cs: Configs, pass: Pass) {
    !pass.addressed || (cs.startup.None? && cs.liveness.None? && cs.readiness.None?)
  }

  function AfterPass(cs: Configs, s: State, pass: Pass): State {
    if Skipped(cs, pass) then s
    else
      var s1 := AfterStartup(cs, s, pass);
      if !StartupComplete(cs, s1) then s1
      else s1.(
        liveness := if cs.liveness.Some? then Probed(s1.liveness, cs.liveness.value, pass.now, pass.livenessPasses) else s1.liveness,
        readiness := if cs.readiness.Some? then Probed(s1.readiness, cs.readiness.value, pass.now, pass.readinessPasses) else s1.readiness)
  }

  /** The scheduler's state for one instance, with the facts it keeps in the store. */
  class ProbeScheduler {
    var startup: Option<Tracker>
    var startupFact: StartupFact
    var liveness: Option<Tracker>
    var livenessFact: Option<bool>
    var readiness: Option<Tracker>
    var readinessFact: Option<bool>

    ghost function Value(): State
      reads this
    {
      State(startup, startupFact, Probe(liveness, livenessFact), Probe(readiness, readinessFact))
    }

    /** A check's outcome is only asked for when the check runs. */
    method ExecuteStartupProbe(c: Config, now: int, passed: bool) returns (complete: bool)
      modifies this`startup, this`startupFact
      ensures var (tracker, fact) := StartupProbed(Created(old(startup), now), old(startupFact), c, now, passed);
              startup == Some(tracker) && startupFact == fact && complete == fact.Succeeded?
    {
      var tracker := Created(startup, now);
      startup := Some(tracker);
      if startupFact.Succeeded? { return true; }
      if startupFact.Failed? { return false; }
      if !tracker.started {
        if now - tracker.startTime < c.initialDelay { return false; }
        tracker := tracker.(started := true);
        startup := Some(tracker);
      }
      if tracker.lastCheck.Some? && now - tracker.lastCheck.value < c.interval { return false; }
      tracker := tracker.(lastCheck := Some(now));
      if passed {
        tracker := tracker.(successes := tracker.successes + 1, failures := 0);
        startup := Some(tracker);
        if tracker.successes >= c.successThreshold {
          startupFact := Succeeded;
          return true;
        }
      } else {
        tracker := tracker.(failures := tracker.failures + 1, successes := 0);
        startup := Some(tracker);
        if tracker.failures >= c.failureThreshold {
          startupFact := Failed;
          return false;
        }
      }
      if !startupFact.Pending? { startupFact := Pending; }
      return false;
    }

    method ExecuteLivenessProbe(c: Config, now: int, passed: bool)
      modifies this`liveness, this`livenessFact
      ensures Probe(liveness, livenessFact) == Probed(old(Probe(liveness, livenessFact)), c, now, passed)
    {
      var tracker := Created(liveness, now);
      liveness := Some(tracker);
      if !tracker.started {
        if now - tracker.startTime < c.initialDelay { return; }
        tracker := tracker.(started := true);
        liveness := Some(tracker);
      }
      if tracker.lastCheck.Some? && now - tracker.lastCheck.value < c.interval { return; }
      tracker := tracker.(lastCheck := Some(now));
      if passed {
        tracker := tracker.(successes := tracker.successes + 1, failures := 0);
        if tracker.successes >= c.successThreshold { livenessFact := Some(true); }
      } else {
        tracker := tracker.(failures := tracker.failures + 1, successes := 0);
        if tracker.failures >= c.failureThreshold { livenessFact := Some(false); }
      }
      liveness := Some(tracker);
    }

    method ExecuteReadinessProbe(c: Config, now: int, passed: bool)
      modifies this`readiness, this`readinessFact
      ensures Probe(readiness, readinessFact) == Probed(old(Probe(readiness, readinessFact)), c, now, passed)
    {
      var tracker := Created(readiness, now);
      readiness := Some(tracker);
      if !tracker.started {
        if now - tracker.startTime < c.initialDelay { return; }
        tracker := tracker.(started := true);
        readiness := Some(tracker);
      }
      if tracker.lastCheck.Some? && now - tracker.lastCheck.value < c.interval { return; }
      tracker := tracker.(lastCheck := Some(now));
      if passed {
        tracker := tracker.(successes := tracker.successes + 1, failures := 0);
        if tracker.successes >= c.successThreshold { readinessFact := Some(true); }
      } else {
        tracker := tracker.(failures := tracker.failures + 1, successes := 0);
        if tracker.failures >= c.failureThreshold { readinessFact := Some(false); }
      }
      readiness := Some(tracker);
    }

    method ExecuteProbesForInstance(cs: Configs, pass: Pass)
      modifies this
      ensures Value() == AfterPass(cs, old(Value()), pass)
    {
      if cs.startup.None? && cs.liveness.None? && cs.readiness.None? { return; }
      if !pass.addressed { return; }
      var startupComplete := true;
      if cs.startup.Some? {
        startupComplete := ExecuteStartupProbe(cs.startup.value, pass.now, pass.startupPasses);
      }
      if startupComplete && cs.liveness.Some? {
        ExecuteLivenessProbe(cs.liveness.value, pass.now, pass.livenessPasses);
      }
      if startupComplete && cs.readiness.Some? {
        ExecuteReadinessProbe(cs.readiness.value, pass.now, pass.readinessPasses);
      }
    }
  }

  // --- Streaks of check results -------------------------------------------------------------------

  /** A threshold below one asks for one result. */
  function Needed(c: Config, kind: bool): nat {
    var threshold := if kind then c.successThreshold else c.failureThreshold;
    if threshold < 1 then 1 else threshold
  }

  /** The first k results end in a streak of equal results as long as its kind needs. */
  ghost predicate Reached(h: seq<bool>, c: Config, k: int) {
    && 1 <= k <= |h|
    && Needed(c, h[k - 1]) <= k
    && forall i | k - Needed(c, h[k - 1]) <= i < k :: h[i] == h[k - 1]
  }

  ghost predicate LatestReached(h: seq<bool>, c: Config, k: int) {
    Reached(h, c, k) && forall m | k < m :: !Reached(h, c, m)
  }

  ghost predicate NoneReached(h: seq<bool>, c: Config) {
    forall k :: !Reached(h, c, k)
  }

  /** The fact is the kind of the latest streak that reached its threshold; before there is
      one it is what it was. */
  ghost predicate IsVerdict(h: seq<bool>, c: Config, initial: Option<bool>, fact: Option<bool>) {
    (fact == initial && NoneReached(h, c)) || exists k :: LatestReached(h, c, k) && fact == Some(h[k - 1])
  }

  function TrailingRun(h: seq<bool>, kind: bool): nat
    decreases |h|
  {
    if h == [] || h[|h| - 1] != kind then 0 else 1 + TrailingRun(h[..|h| - 1], kind)
  }

  lemma {:induction false} TrailingRunMeans(h: seq<bool>, kind: bool, n: nat)
    ensures TrailingRun(h, kind) >= n <==> n <= |h| && forall i | |h| - n <= i < |h| :: h[i] == kind
    decreases |h|
  {
    if n > 0 && h != [] {
      var front := h[..|h| - 1];
      TrailingRunMeans(front, kind, n - 1);
      assert forall i | 0 <= i < |front| :: front[i] == h[i];
    }
  }

  ghost predicate CountsOk(t: Tracker, h: seq<bool>) {
    t.successes == TrailingRun(h, true) && t.failures == TrailingRun(h, false)
  }

  /** Counting a result keeps the counters equal to the trailing streaks, and they are at the
      threshold exactly when the streak is. */
  lemma {:induction false} CountedReaches(t: Tracker, h: seq<bool>, c: Config, now: int, passed: bool)
    requires CountsOk(t, h)
    ensures CountsOk(Counted(t, now, passed), h + [passed])
    ensures AtThreshold(Counted(t, now, passed), c, passed) <==> Reached(h + [passed], c, |h| + 1)
  {
    var longer := h + [passed];
    assert longer[..|h|] == h;
    TrailingRunMeans(longer, passed, Needed(c, passed));
  }

  lemma {:induction false} EarlierReached(h: seq<bool>, c: Config, passed: bool, k: int)
    requires k <= |h|
    ensures Reached(h + [passed], c, k) <==> Reached(h, c, k)
  {
    assert forall i | 0 <= i < |h| :: (h + [passed])[i] == h[i];
  }

  /** A result that completes no streak changes nothing about the latest one. */
  lemma {:induction false} SameVerdict(h: seq<bool>, c: Config, passed: bool)
    requires !Reached(h + [passed], c, |h| + 1)
    ensures NoneReached(h, c) ==> NoneReached(h + [passed], c)
    ensures forall k | LatestReached(h, c, k) :: LatestReached(h + [passed], c, k)
  {
    forall k ensures Reached(h + [passed], c, k) <==> Reached(h, c, k) {
      if k <= |h| { EarlierReached(h, c, passed, k); }
    }
  }

  lemma {:induction false} VerdictStep(h: seq<bool>, c: Config, initial: Option<bool>, fact: Option<bool>, passed: bool)
    requires IsVerdict(h, c, initial, fact)
    ensures IsVerdict(h + [passed], c, initial, if Reached(h + [passed], c, |h| + 1) then Some(passed) else fact)
  {
    var longer := h + [passed];
    if Reached(longer, c, |h| + 1) {
      assert LatestReached(longer, c, |h| + 1) && longer[|h| + 1 - 1] == passed;
    } else {
      SameVerdict(h, c, passed);
      if !(fact == initial && NoneReached(h, c)) {
        var k :| LatestReached(h, c, k) && fact == Some(h[k - 1]);
        assert LatestReached(longer, c, k) && longer[k - 1] == h[k - 1];
      }
    }
  }

  // --- Runs ---------------------------------------------------------------------------------------

  datatype Kind = Liveness | Readiness

  function ProbeOf(s: State, kind: Kind): Probe {
    match kind case Liveness => s.liveness case Readiness => s.readiness
  }

  function ConfigOf(cs: Configs, kind: Kind): Option<Config> {
    match kind case Liveness => cs.liveness case Readiness => cs.readiness
  }

  function PassedOf(pass: Pass, kind: Kind): bool {
    match kind case Liveness => pass.livenessPasses case Readiness => pass.readinessPasses
  }

  /** The pass runs a startup check. */
  predicate StartupRuns(cs: Configs, s: State, pass: Pass) {
    !Skipped(cs, pass) && cs.startup.Some? && !Final(s.startupFact) && Due(Created(s.startup, pass.now), cs.startup.value, pass.now)
  }

  /** The pass runs a liveness or readiness check. */
  predicate Runs(cs: Configs, s: State, pass: Pass, kind: Kind) {
    && !Skipped(cs, pass) && StartupComplete(cs, AfterStartup(cs, s, pass)) && ConfigOf(cs, kind).Some?
    && Due(Created(ProbeOf(s, kind).tracker, pass.now), ConfigOf(cs, kind).value, pass.now)
  }

  /** Passes with fixed configuration, from no trackers and any facts an earlier agent left. */
  ghost predicate IsRun(cs: Configs, run: seq<State>, passes: seq<Pass>) {
    && |run| == |passes| + 1
    && run[0].startup.None? && run[0].liveness.tracker.None? && run[0].readiness.tracker.None?
    && forall k | 0 <= k < |passes| :: run[k + 1] == AfterPass(cs, run[k], passes[k])
  }

  datatype Check = Check(time: int, passed: bool)

  /** The checks of one kind that the first k passes ran. */
  ghost function Checks(cs: Configs, run: seq<State>, passes: seq<Pass>, kind: Kind, k: nat): seq<Check>
    requires k <= |passes| <= |run|
  {
    if k == 0 then []
    else
      var before := Checks(cs, run, passes, kind, k - 1);
      if Runs(cs, run[k - 1], passes[k - 1], kind)
      then before + [Check(passes[k - 1].now, PassedOf(passes[k - 1], kind))]
      else before
  }

  ghost function StartupChecks(cs: Configs, run: seq<State>, passes: seq<Pass>, k: nat): seq<Check>
    requires k <= |passes| <= |run|
  {
    if k == 0 then []
    else
      var before := StartupChecks(cs, run, passes, k - 1);
      if StartupRuns(cs, run[k - 1], passes[k - 1])
      then before + [Check(passes[k - 1].now, passes[k - 1].startupPasses)]
      else before
  }

  function Results(checks: seq<Check>): (h: seq<bool>)
    ensures |h| == |checks|
  {
    seq(|checks|, i requires 0 <= i < |checks| => checks[i].passed)
  }

  ghost predicate Spaced(checks: seq<Check>, interval: int) {
    forall i | 0 <= i < |checks| - 1 :: checks[i + 1].time - checks[i].time >= interval
  }

  /** A tracker and the checks it has seen. */
  ghost predicate TrackerOk(tracker: Option<Tracker>, checks: seq<Check>, c: Config) {
    && Spaced(checks, c.interval)
    && match tracker
       case None => checks == []
       case Some(t) =>
         && CountsOk(t, Results(checks))
         && t.lastCheck == (if checks == [] then None else Some(checks[|checks| - 1].time))
         && (t.started <==> checks != [])
         && (checks != [] ==> checks[0].time - t.startTime >= c.initialDelay)
  }

  lemma {:induction false} ResultsAppend(checks: seq<Check>, check: Check)
    ensures Results(checks + [check]) == Results(checks) + [check.passed]
  {
  }

  function Extended(t: Tracker, checks: seq<Check>, c: Config, now: int, passed: bool): seq<Check> {
    if Due(t, c, now) then checks + [Check(now, passed)] else checks
  }

  lemma {:induction false} SpacedLonger(checks: seq<Check>, check: Check, interval: int)
    requires Spaced(checks, interval) && (checks != [] ==> check.time - checks[|checks| - 1].time >= interval)
    ensures Spaced(checks + [check], interval)
  {
  }

  /** A tracker new or not, and the checks it has seen. */
  ghost predicate SeenOk(t: Tracker, checks: seq<Check>, c: Config) {
    TrackerOk(Some(t), checks, c)
  }

  lemma {:induction false} CreatedOk(tracker: Option<Tracker>, checks: seq<Check>, c: Config, now: int)
    requires TrackerOk(tracker, checks, c)
    ensures SeenOk(Created(tracker, now), checks, c)
  {
    assert checks == [] ==> Results(checks) == [];
  }

  lemma {:induction false} CountedOk(t: Tracker, checks: seq<Check>, c: Config, now: int, passed: bool)
    requires SeenOk(t, checks, c) && Due(t, c, now)
    ensures SeenOk(Counted(Begun(t, c, now), now, passed), checks + [Check(now, passed)], c)
  {
    ResultsAppend(checks, Check(now, passed));
    CountedReaches(Begun(t, c, now), Results(checks), c, now, passed);
    SpacedLonger(checks, Check(now, passed), c.interval);
    assert checks != [] ==> (checks + [Check(now, passed)])[0] == checks[0];
  }

  lemma {:induction false} TrackerStep(tracker: Option<Tracker>, checks: seq<Check>, c: Config, now: int, passed: bool)
    requires TrackerOk(tracker, checks, c)
    ensures var t := Created(tracker, now);
            TrackerOk(Some(if Due(t, c, now) then Counted(Begun(t, c, now), now, passed) else Begun(t, c, now)),
                      Extended(t, checks, c, now, passed), c)
  {
    CreatedOk(tracker, checks, c, now);
    if Due(Created(tracker, now), c, now) { CountedOk(Created(tracker, now), checks, c, now, passed); }
  }

  /** One pass over a liveness or readiness probe keeps its fact the verdict of its results. */
  lemma {:induction false} ProbeStep(p: Probe, checks: seq<Check>, c: Config, initial: Option<bool>, now: int, passed: bool)
    requires TrackerOk(p.tracker, checks, c) && IsVerdict(Results(checks), c, initial, p.fact)
    ensures var next := Extended(Created(p.tracker, now), checks, c, now, passed);
            && TrackerOk(Probed(p, c, now, passed).tracker, next, c)
            && IsVerdict(Results(next), c, initial, Probed(p, c, now, passed).fact)
  {
    var t := Created(p.tracker, now);
    TrackerStep(p.tracker, checks, c, now, passed);
    if Due(t, c, now) {
      ResultsAppend(checks, Check(now, passed));
      assert checks == [] ==> Results(checks) == [];
      CountedReaches(Begun(t, c, now), Results(checks), c, now, passed);
      VerdictStep(Results(checks), c, initial, p.fact, passed);
    }
  }

  lemma {:induction false} PassStep(cs: Configs, s: State, pass: Pass, kind: Kind)
    requires ConfigOf(cs, kind).Some?
    ensures ProbeOf(AfterPass(cs, s, pass), kind) ==
            if !Skipped(cs, pass) && StartupComplete(cs, AfterStartup(cs, s, pass))
            then Probed(ProbeOf(s, kind), ConfigOf(cs, kind).value, pass.now, PassedOf(pass, kind))
            else ProbeOf(s, kind)
  {
  }

  /** For every run and every history of check results: the liveness (readiness) fact is the
      kind of the latest streak that reached its threshold, the checks are at least an
      interval apart, and the first came no sooner than the initial delay. */
  lemma {:induction false} FactIsVerdict(cs: Configs, run: seq<State>, passes: seq<Pass>, kind: Kind, k: nat)
    requires IsRun(cs, run, passes) && k <= |passes| && ConfigOf(cs, kind).Some?
    ensures var checks := Checks(cs, run, passes, kind, k);
            && TrackerOk(ProbeOf(run[k], kind).tracker, checks, ConfigOf(cs, kind).value)
            && IsVerdict(Results(checks), ConfigOf(cs, kind).value, ProbeOf(run[0], kind).fact, ProbeOf(run[k], kind).fact)
    decreases k
  {
    if k > 0 {
      FactIsVerdict(cs, run, passes, kind, k - 1);
      var s, pass, c := run[k - 1], passes[k - 1], ConfigOf(cs, kind).value;
      assert run[k - 1 + 1] == AfterPass(cs, s, pass);
      PassStep(cs, s, pass, kind);
      ProbeStep(ProbeOf(s, kind), Checks(cs, run, passes, kind, k - 1), c, ProbeOf(run[0], kind).fact, pass.now, PassedOf(pass, kind));
    }
  }

  // --- The startup probe --------------------------------------------------------------------------

  /** Until the startup probe is decided no streak has reached its threshold; the first that
      does decides it, and it is the last check. */
  ghost predicate StartupOk(fact: StartupFact, initial: StartupFact, h: seq<bool>, c: Config) {
    if Final(initial) then fact == initial && h == []
    else
      && (forall m | m < |h| :: !Reached(h, c, m))
      && fact == if h == [] then initial
                 else if !Reached(h, c, |h|) then Pending
                 else if h[|h| - 1] then Succeeded
                 else Failed
  }

  lemma {:induction false} StartupStep(tracker: Option<Tracker>, checks: seq<Check>, c: Config,
                                       fact: StartupFact, initial: StartupFact, now: int, passed: bool)
    requires TrackerOk(tracker, checks, c) && StartupOk(fact, initial, Results(checks), c) && !Final(fact)
    ensures var t := Created(tracker, now);
            var (after, next) := StartupProbed(t, fact, c, now, passed);
            && TrackerOk(Some(after), Extended(t, checks, c, now, passed), c)
            && StartupOk(next, initial, Results(Extended(t, checks, c, now, passed)), c)
  {
    var t, h := Created(tracker, now), Results(checks);
    TrackerStep(tracker, checks, c, now, passed);
    if Due(t, c, now) {
      ResultsAppend(checks, Check(now, passed));
      assert checks == [] ==> h == [];
      CountedReaches(Begun(t, c, now), h, c, now, passed);
      forall m | m < |h| + 1 ensures !Reached(h + [passed], c, m) {
        EarlierReached(h, c, passed, m);
      }
    }
  }

  /** Once decided, the probe keeps its fact and its checks. */
  ghost predicate StartupInv(cs: Configs, run: seq<State>, passes: seq<Pass>, k: nat)
    requires k <= |passes| < |run| && cs.startup.Some?
  {
    var checks := StartupChecks(cs, run, passes, k);
    && StartupOk(run[k].startupFact, run[0].startupFact, Results(checks), cs.startup.value)
    && (!Final(run[k].startupFact) ==> TrackerOk(run[k].startup, checks, cs.startup.value))
  }

  /** In every run the startup fact is succeeded (failed) exactly when the first streak of
      startup results to reach its threshold was one of successes (failures). */
  lemma {:induction false} StartupDecidedByFirstStreak(cs: Configs, run: seq<State>, passes: seq<Pass>, k: nat)
    requires IsRun(cs, run, passes) && k <= |passes| && cs.startup.Some?
    ensures StartupInv(cs, run, passes, k)
    decreases k
  {
    if k == 0 {
      assert Results([]) == [];
    } else {
      StartupDecidedByFirstStreak(cs, run, passes, k - 1);
      var s, pass := run[k - 1], passes[k - 1];
      assert run[k - 1 + 1] == AfterPass(cs, s, pass);
      if !Final(s.startupFact) && !Skipped(cs, pass) {
        StartupStep(s.startup, StartupChecks(cs, run, passes, k - 1), cs.startup.value,
                    s.startupFact, run[0].startupFact, pass.now, pass.startupPasses);
      }
    }
  }

  /** Succeeded and failed are absorbing, and no startup check runs after them. */
  lemma {:induction false} StartupAbsorbing(cs: Configs, run: seq<State>, passes: seq<Pass>, i: nat, j: nat)
    requires IsRun(cs, run, passes) && i <= j <= |passes| && Final(run[i].startupFact)
    ensures run[j].startupFact == run[i].startupFact
    ensures StartupChecks(cs, run, passes, j) == StartupChecks(cs, run, passes, i)
    decreases j - i
  {
    if i < j {
      StartupAbsorbing(cs, run, passes, i, j - 1);
      assert run[j - 1 + 1] == AfterPass(cs, run[j - 1], passes[j - 1]);
    }
  }

  /** With a startup probe configured, a pass that runs a liveness or readiness check ends,
      like every later one, with startup succeeded, and so only after its own checks have
      completed a success streak, unless an earlier agent already recorded the success. */
  lemma {:induction false} StartupGate(cs: Configs, run: seq<State>, passes: seq<Pass>, kind: Kind, k: nat, j: nat)
    requires IsRun(cs, run, passes) && k < j <= |passes| && cs.startup.Some? && Runs(cs, run[k], passes[k], kind)
    ensures run[j].startupFact.Succeeded?
    ensures run[0].startupFact.Succeeded? ||
            var h := Results(StartupChecks(cs, run, passes, k + 1));
            h != [] && Reached(h, cs.startup.value, |h|) && h[|h| - 1]
  {
    assert run[k + 1] == AfterPass(cs, run[k], passes[k]);
    StartupAbsorbing(cs, run, passes, k + 1, j);
    StartupDecidedByFirstStreak(cs, run, passes, k + 1);
  }

  // --- Every check that is due is made ------------------------------------------------------------

  /** The instance has an address, and no startup probe is configured or it has succeeded. */
  ghost predicate Open(cs: Configs, run: seq<State>, passes: seq<Pass>, k: nat)
    requires k < |passes| < |run|
  {
    passes[k].addressed && (cs.startup.None? || run[k + 1].startupFact == Succeeded)
  }

  /** The time of the first open pass among the first k. */
  ghost function FirstOpen(cs: Configs, run: seq<State>, passes: seq<Pass>, k: nat): Option<int>
    requires k <= |passes| < |run|
  {
    if k == 0 then None
    else
      var earlier := FirstOpen(cs, run, passes, k - 1);
      if earlier.None? && Open(cs, run, passes, k - 1) then Some(passes[k - 1].now) else earlier
  }

  /** The next check is due: an interval after the last one, or, if there was none, the
      initial delay after the first pass that could have made one. */
  predicate DueAfter(checks: seq<Check>, first: Option<int>, c: Config, now: int) {
    if checks != [] then now - checks[|checks| - 1].time >= c.interval
    else now - (if first.Some? then first.value else now) >= c.initialDelay
  }

  lemma {:induction false} OpenStep(cs: Configs, run: seq<State>, passes: seq<Pass>, kind: Kind, k: nat)
    requires IsRun(cs, run, passes) && k < |passes| && ConfigOf(cs, kind).Some?
    ensures ProbeOf(run[k + 1], kind) ==
            if Open(cs, run, passes, k)
            then Probed(ProbeOf(run[k], kind), ConfigOf(cs, kind).value, passes[k].now, PassedOf(passes[k], kind))
            else ProbeOf(run[k], kind)
    ensures Runs(cs, run[k], passes[k], kind) <==>
            Open(cs, run, passes, k) && Due(Created(ProbeOf(run[k], kind).tracker, passes[k].now), ConfigOf(cs, kind).value, passes[k].now)
  {
    assert run[k + 1] == AfterPass(cs, run[k], passes[k]);
  }

  lemma {:induction false} StartedAtFirstOpen(cs: Configs, run: seq<State>, passes: seq<Pass>, kind: Kind, k: nat)
    requires IsRun(cs, run, passes) && k <= |passes| && ConfigOf(cs, kind).Some?
    ensures var tracker, first := ProbeOf(run[k], kind).tracker, FirstOpen(cs, run, passes, k);
            if tracker.None? then first.None? else first == Some(tracker.value.startTime)
    decreases k
  {
    if k > 0 {
      StartedAtFirstOpen(cs, run, passes, kind, k - 1);
      OpenStep(cs, run, passes, kind, k - 1);
    }
  }

  /** In every run a liveness (readiness) check is made in exactly those passes that are open
      and in which one is due. */
  lemma {:induction false} CheckedExactlyWhenDue(cs: Configs, run: seq<State>, passes: seq<Pass>, kind: Kind, k: nat)
    requires IsRun(cs, run, passes) && k < |passes| && ConfigOf(cs, kind).Some?
    ensures var checks := Checks(cs, run, passes, kind, k);
            Checks(cs, run, passes, kind, k + 1) ==
            if Open(cs, run, passes, k) && DueAfter(checks, FirstOpen(cs, run, passes, k), ConfigOf(cs, kind).value, passes[k].now)
            then checks + [Check(passes[k].now, PassedOf(passes[k], kind))]
            else checks
  {
    FactIsVerdict(cs, run, passes, kind, k);
    StartedAtFirstOpen(cs, run, passes, kind, k);
    OpenStep(cs, run, passes, kind, k);
  }

  /** The time of the first pass with an address among the first k. */
  ghost function FirstAddressed(passes: seq<Pass>, k: nat): Option<int>
    requires k <= |passes|
  {
    if k == 0 then None
    else
      var earlier := FirstAddressed(passes, k - 1);
      if earlier.None? && passes[k - 1].addressed then Some(passes[k - 1].now) else earlier
  }

  lemma {:induction false} StartupStartedAt(cs: Configs, run: seq<State>, passes: seq<Pass>, k: nat)
    requires IsRun(cs, run, passes) && k <= |passes| && cs.startup.Some?
    ensures var tracker, first := run[k].startup, FirstAddressed(passes, k);
            if tracker.None? then first.None? else first == Some(tracker.value.startTime)
    decreases k
  {
    if k > 0 {
      StartupStartedAt(cs, run, passes, k - 1);
      assert run[k - 1 + 1] == AfterPass(cs, run[k - 1], passes[k - 1]);
    }
  }

  /** A startup check is made in exactly those passes with an address in which one is due and
      startup has neither succeeded nor failed. */
  lemma {:induction false} StartupCheckedExactlyWhenDue(cs: Configs, run: seq<State>, passes: seq<Pass>, k: nat)
    requires IsRun(cs, run, passes) && k < |passes| && cs.startup.Some?
    ensures var checks := StartupChecks(cs, run, passes, k);
            StartupChecks(cs, run, passes, k + 1) ==
            if passes[k].addressed && run[k].startupFact != Succeeded && run[k].startupFact != Failed
               && DueAfter(checks, FirstAddressed(passes, k), cs.startup.value, passes[k].now)
            then checks + [Check(passes[k].now, passes[k].startupPasses)]
            else checks
  {
    StartupDecidedByFirstStreak(cs, run, passes, k);
    StartupStartedAt(cs, run, passes, k);
  }
}
