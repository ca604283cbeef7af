/** Cron jobs (controllers/cronjob.go): a cronjob creates at most one job per matching UTC
    minute and never while its latest job, found by job name, is unfinished. */
module CronJobs {
  import opened Lexicographic
  import opened Options

  // --- Times and job names ------------------------------------------------------------------------

  datatype Instant = Instant(year: nat, month: nat, day: nat, hour: nat, minute: nat, second: nat)

  /** A UTC time whose year has four digits, so that every timestamp has the same width. */
  type UtcTime = t: Instant |
      && t.year < 10000 && 1 <= t.month <= 12 && 1 <= t.day <= 31
      && t.hour < 24 && t.minute < 60 && t.second < 60
    witness Instant(1970, 1, 1, 0, 0, 0)

  predicate WithinSameMinute(a: UtcTime, b: UtcTime) {
    a.year == b.year && a.month == b.month && a.day == b.day && a.hour == b.hour && a.minute == b.minute
  }

  /** The minute of a is earlier than the minute of b. */
  predicate EarlierMinute(a: UtcTime, b: UtcTime) {
    || a.year < b.year
    || (a.year == b.year && (
        || a.month < b.month
        || (a.month == b.month && (
            || a.day < b.day
            || (a.day == b.day && (a.hour < b.hour || (a.hour == b.hour && a.minute < b.minute)))))))
  }

  predicate NotAfter(a: UtcTime, b: UtcTime) {
    EarlierMinute(a, b) || (WithinSameMinute(a, b) && a.second <= b.second)
  }

  function Two(n: nat): string
    requires n < 100
  {
    [('0' as int + n / 10) as char, ('0' as int + n % 10) as char]
  }

  function Four(n: nat): string
    requires n < 10000
  {
    Two(n / 100) + Two(n % 100)
  }

  /** The name suffix: year, month and day, a dash, hour and minute. */
  function Stamp(t: UtcTime): string {
    Four(t.year) + (Two(t.month) + (Two(t.day) + ("-" + (Two(t.hour) + Two(t.minute)))))
  }

  function JobName(cron: string, t: UtcTime): string {
    cron + "-" + Stamp(t)
  }

  lemma {:induction false} TwoOrder(m: nat, n: nat, x: string, y: string)
    requires m < 100 && n < 100
    ensures Less(Two(m) + x, Two(n) + y) <==> m < n || (m == n && Less(x, y))
  {
    var a, b := Two(m) + x, Two(n) + y;
    assert a[0] == Two(m)[0] && b[0] == Two(n)[0] && a[1..][0] == Two(m)[1] && b[1..][0] == Two(n)[1];
    assert a[1..][1..] == x && b[1..][1..] == y;
  }

  lemma {:induction false} FourOrder(m: nat, n: nat, x: string, y: string)
    requires m < 10000 && n < 10000
    ensures Less(Four(m) + x, Four(n) + y) <==> m < n || (m == n && Less(x, y))
  {
    TwoOrder(m % 100, n % 100, x, y);
    TwoOrder(m / 100, n / 100, Two(m % 100) + x, Two(n % 100) + y);
    assert Four(m) + x == Two(m / 100) + (Two(m % 100) + x) && Four(n) + y == Two(n / 100) + (Two(n % 100) + y);
  }

  /** Timestamps compare as strings exactly as the minutes they stand for. */
  lemma {:induction false} StampOrder(a: UtcTime, b: UtcTime)
    ensures Less(Stamp(a), Stamp(b)) <==> EarlierMinute(a, b)
  {
    var hours := (t: UtcTime) => Two(t.hour) + Two(t.minute);
    var days := (t: UtcTime) => Two(t.day) + ("-" + hours(t));
    FourOrder(a.year, b.year, Two(a.month) + days(a), Two(b.month) + days(b));
    TwoOrder(a.month, b.month, days(a), days(b));
    TwoOrder(a.day, b.day, "-" + hours(a), "-" + hours(b));
    CommonFront("-", hours(a), hours(b));
    TwoOrder(a.hour, b.hour, Two(a.minute), Two(b.minute));
    TwoOrder(a.minute, b.minute, "", "");
    assert Two(a.minute) + "" == Two(a.minute) && Two(b.minute) + "" == Two(b.minute);
  }

  /** Job names of one cronjob are ordered by their minutes, and equal only within one minute. */
  lemma {:induction false} NameOrder(cron: string, a: UtcTime, b: UtcTime)
    ensures Less(JobName(cron, a), JobName(cron, b)) <==> EarlierMinute(a, b)
    ensures JobName(cron, a) == JobName(cron, b) <==> WithinSameMinute(a, b)
  {
    StampOrder(a, b);
    StampOrder(b, a);
    CommonFront(cron + "-", Stamp(a), Stamp(b));
    CommonFront(cron + "-", Stamp(b), Stamp(a));
    if JobName(cron, a) == JobName(cron, b) { Irreflexive(JobName(cron, a)); }
  }

  /** The number that a string of digits reads as. */
  function Reads(s: string): int
    decreases |s|
  {
    if s == "" then 0 else 10 * Reads(s[..|s| - 1]) + (s[|s| - 1] as int - '0' as int)
  }

  lemma {:induction false} TwoReads(n: nat)
    requires n < 100
    ensures |Two(n)| == 2 && Reads(Two(n)) == n
  {
    var s := Two(n);
    var tens := s[..1];
    assert tens[..0] == "" && tens[0] as int - '0' as int == n / 10;
    assert Reads(tens) == n / 10 && s[..|s| - 1] == tens;
  }

  lemma {:induction false} FourReads(n: nat)
    requires n < 10000
    ensures |Four(n)| == 4 && Reads(Four(n)) == n
  {
    var s := Four(n);
    TwoReads(n / 100);
    assert s[..3][..2] == Two(n / 100) && s[..|s| - 1] == s[..3];
  }

  /** A job name is the cronjob's, a dash, and thirteen characters that read as year, month and
      day, a dash, hour and minute. */
  lemma {:induction false} NameReads(cron: string, t: UtcTime)
    ensures var name, n := JobName(cron, t), |cron|;
            && |name| == n + 14 && name[..n] == cron && name[n] == '-'
            && Reads(name[n + 1..n + 5]) == t.year && Reads(name[n + 5..n + 7]) == t.month && Reads(name[n + 7..n + 9]) == t.day
            && name[n + 9] == '-' && Reads(name[n + 10..n + 12]) == t.hour && Reads(name[n + 12..]) == t.minute
  {
    FourReads(t.year);
    TwoReads(t.month);
    TwoReads(t.day);
    TwoReads(t.hour);
    TwoReads(t.minute);
    var name, n, stamp := JobName(cron, t), |cron|, Stamp(t);
    assert name[n + 1..] == stamp;
    assert stamp[..4] == Four(t.year) && stamp[4..6] == Two(t.month) && stamp[6..8] == Two(t.day);
    assert stamp[9..11] == Two(t.hour) && stamp[11..] == Two(t.minute);
    assert name[n + 1..n + 5] == stamp[..4] && name[n + 5..n + 7] == stamp[4..6] && name[n + 7..n + 9] == stamp[6..8];
    assert name[n + 9] == stamp[8] && name[n + 10..n + 12] == stamp[9..11] && name[n + 12..] == stamp[11..];
  }

  // --- The reconcile step -------------------------------------------------------------------------

  const COMPLETE := "complete"
  const FAILED := "failed"

  /** What one reconcile reads about a cronjob: the desired job names in listing order, the
      derived status of each job that has derived facts, and its own derived facts. */
  datatype View = View(jobs: seq<string>, statuses: map<string, string>,
                       lastScheduled: Option<UtcTime>, lastStatus: string)

  /** The puts one reconcile proposes: the mirrored status, the new job, its schedule time. */
  datatype Plan = Plan(mirror: Option<string>, job: Option<string>, scheduled: Option<UtcTime>)

  predicate Named(cron: string, job: string) {
    cron + "-" <= job
  }

  /** A job is named for the cronjob if its name is the cronjob's, a dash and anything. */
  lemma {:induction false} NamedMeans(cron: string, job: string)
    ensures Named(cron, job) <==> exists rest :: job == cron + "-" + rest
  {
    if Named(cron, job) {
      assert job == cron + "-" + job[|cron| + 1..];
    }
  }

  predicate Finished(job: string, statuses: map<string, string>) {
    job in statuses && (statuses[job] == COMPLETE || statuses[job] == FAILED)
  }

  /** The greatest name among the jobs named for the cronjob, "" if there is none. */
  ghost predicate IsLatest(cron: string, jobs: seq<string>, latest: string) {
    && (latest == "" || (latest in jobs && Named(cron, latest)))
    && forall j | j in jobs && Named(cron, j) :: latest != "" && !Less(latest, j)
  }

  method FindLatestJobForCronJob(cron: string, jobs: seq<string>) returns (latest: string)
    ensures IsLatest(cron, jobs, latest)
  {
    latest := "";
    for i := 0 to |jobs|
      invariant IsLatest(cron, jobs[..i], latest)
    {
      ghost var before := latest;
      assert jobs[..i + 1] == jobs[..i] + [jobs[i]];
      if Named(cron, jobs[i]) && Less(latest, jobs[i]) {
        latest := jobs[i];
        Irreflexive(latest);
        forall j | j in jobs[..i] && Named(cron, j) ensures !Less(latest, j) {
          if Less(latest, j) { Transitive(before, latest, j); }
        }
      }
    }
    assert jobs[..|jobs|] == jobs;
  }

  lemma {:induction false} LatestUnique(cron: string, jobs: seq<string>, a: string, b: string)
    requires IsLatest(cron, jobs, a) && IsLatest(cron, jobs, b)
    ensures a == b
  {
    Total(a, b);
  }

  function Mirror(view: View, latest: string): Option<string> {
    if latest == "" || latest !in view.statuses then None
    else
      var status := view.statuses[latest];
      if status != "" && status != view.lastStatus then Some(status) else None
  }

  /** When a new job is due. */
  predicate Due(view: View, latest: string, now: UtcTime, matches: bool) {
    && matches
    && (view.lastScheduled.None? || !WithinSameMinute(view.lastScheduled.value, now))
    && (latest == "" || Finished(latest, view.statuses))
  }

  /** `matches` is the outcome of the schedule expression at `now`. */
  method ReconcileSingleCronJob(cron: string, view: View, now: UtcTime, matches: bool) returns (plan: Plan)
    ensures forall latest | IsLatest(cron, view.jobs, latest) ::
              && plan.mirror == Mirror(view, latest)
              && plan.job == (if Due(view, latest, now, matches) then Some(JobName(cron, now)) else None)
              && plan.scheduled == (if Due(view, latest, now, matches) then Some(now) else None)
  {
    var latestJob := FindLatestJobForCronJob(cron, view.jobs);
    forall latest | IsLatest(cron, view.jobs, latest) ensures latest == latestJob {
      LatestUnique(cron, view.jobs, latest, latestJob);
    }
    plan := Plan(None, None, None);
    if latestJob != "" && latestJob in view.statuses {
      var status := view.statuses[latestJob];
      if status != "" && status != view.lastStatus {
        plan := plan.(mirror := Some(status));
      }
    }
    if !matches { return; }
    if view.lastScheduled.Some? && WithinSameMinute(view.lastScheduled.value, now) { return; }
    if latestJob != "" && !Finished(latestJob, view.statuses) { return; }
    plan := plan.(job := Some(JobName(cron, now)), scheduled := Some(now));
  }

  // --- Runs ---------------------------------------------------------------------------------------

  /** The store as far as one cronjob is concerned, the clock, the snapshot of a reconcile in
      progress, and the times at which jobs were created so far. */
  datatype State = State(
    jobs: set<string>,
    statuses: map<string, string>,
    lastScheduled: Option<UtcTime>,
    lastStatus: string,
    clock: UtcTime,
    view: Option<View>,
    created: seq<UtcTime>)

  datatype Step =
    | Scan(listing: seq<string>)
    | Commit(now: UtcTime, matches: bool, latest: string)
    | Report(job: string, status: string)
    | Remove(job: string)
    | AddForeign(job: string)

  /** Finished jobs stay finished, the clock does not go back, one reconcile runs at a time,
      and nobody else adds a job under a name this cronjob has used. Other names are free. */
  ghost predicate Enabled(cron: string, s: State, step: Step) {
    match step
    case Scan(listing) => s.view.None? && forall j :: j in listing <==> j in s.jobs
    case Commit(now, _, latest) => s.view.Some? && NotAfter(s.clock, now) && IsLatest(cron, s.view.value.jobs, latest)
    case Report(job, _) => job in s.jobs && !Finished(job, s.statuses)
    case Remove(job) => job in s.jobs
    case AddForeign(job) => !CreatedJob(cron, s.created, job)
  }

  function Apply(cron: string, s: State, step: Step): State
    requires step.Commit? ==> s.view.Some?
  {
    match step
    case Scan(listing) => s.(view := Some(View(listing, s.statuses, s.lastScheduled, s.lastStatus)))
    case Commit(now, matches, latest) =>
      var view := s.view.value;
      var mirrored := match Mirror(view, latest) case Some(status) => status case None => s.lastStatus;
      var next := s.(view := None, clock := now, lastStatus := mirrored);
      if Due(view, latest, now, matches)
      then next.(jobs := s.jobs + {JobName(cron, now)}, lastScheduled := Some(now), created := s.created + [now])
      else next
    case Report(job, status) => s.(statuses := s.statuses[job := status])
    case Remove(job) => s.(jobs := s.jobs - {job}, statuses := s.statuses - {job})
    case AddForeign(job) => s.(jobs := s.jobs + {job})
  }

  ghost predicate CreatedJob(cron: string, created: seq<UtcTime>, job: string) {
    exists k :: 0 <= k < |created| && job == JobName(cron, created[k])
  }

  /** From a cronjob that has created nothing yet, beside any jobs of others. */
  ghost predicate IsRun(cron: string, run: seq<State>, steps: seq<Step>) {
    && |run| == |steps| + 1
    && run[0].created == [] && run[0].lastScheduled.None? && run[0].view.None?
    && forall k | 0 <= k < |steps| :: Enabled(cron, run[k], steps[k]) && run[k + 1] == Apply(cron, run[k], steps[k])
  }

  // --- The schedule: what every run keeps -----------------------------------------------------------

  ghost predicate MinutesIncrease(created: seq<UtcTime>) {
    forall i, j | 0 <= i < j < |created| :: EarlierMinute(created[i], created[j])
  }

  ghost predicate ScheduleOk(s: State) {
    && MinutesIncrease(s.created)
    && s.lastScheduled == (if s.created == [] then None else Some(s.created[|s.created| - 1]))
    && (s.created != [] ==> NotAfter(s.created[|s.created| - 1], s.clock))
    && (s.view.Some? ==> s.view.value.lastScheduled == s.lastScheduled)
  }

  lemma {:induction false} ScheduleStep(cron: string, s: State, step: Step)
    requires ScheduleOk(s) && Enabled(cron, s, step)
    ensures ScheduleOk(Apply(cron, s, step))
  {
    if step.Commit? && Due(s.view.value, step.latest, step.now, step.matches) && s.created != [] {
      LastDecidesMinute(s.created, s.clock, step.now);
      LaterThanAll(s.created, s.clock, step.now);
    }
  }

  lemma {:induction false} LaterThanAll(created: seq<UtcTime>, clock: UtcTime, now: UtcTime)
    requires MinutesIncrease(created) && created != [] && MinuteFree(created, now)
    requires NotAfter(created[|created| - 1], clock) && NotAfter(clock, now)
    ensures MinutesIncrease(created + [now])
  {
    assert EarlierMinute(created[|created| - 1], now);
  }

  lemma {:induction false} ScheduleKept(cron: string, run: seq<State>, steps: seq<Step>, k: nat)
    requires IsRun(cron, run, steps) && k < |run|
    ensures ScheduleOk(run[k])
    decreases k
  {
    if k > 0 {
      ScheduleKept(cron, run, steps, k - 1);
      assert run[k - 1 + 1] == Apply(cron, run[k - 1], steps[k - 1]);
      ScheduleStep(cron, run[k - 1], steps[k - 1]);
    }
  }

  /** In every run, whatever others add, no two jobs are created in the same UTC minute, and
      names are never reused. */
  lemma {:induction false} OncePerMinute(cron: string, run: seq<State>, steps: seq<Step>, k: nat, i: nat, j: nat)
    requires IsRun(cron, run, steps) && k < |run| && i < j < |run[k].created|
    ensures !WithinSameMinute(run[k].created[i], run[k].created[j])
    ensures Less(JobName(cron, run[k].created[i]), JobName(cron, run[k].created[j]))
  {
    ScheduleKept(cron, run, steps, k);
    NameOrder(cron, run[k].created[i], run[k].created[j]);
  }

  ghost predicate MinuteFree(created: seq<UtcTime>, now: UtcTime) {
    forall i | 0 <= i < |created| :: !WithinSameMinute(created[i], now)
  }

  lemma {:induction false} LastDecidesMinute(created: seq<UtcTime>, clock: UtcTime, now: UtcTime)
    requires MinutesIncrease(created) && created != [] && NotAfter(created[|created| - 1], clock) && NotAfter(clock, now)
    ensures MinuteFree(created, now) <==> !WithinSameMinute(created[|created| - 1], now)
  {
    assert forall i | 0 <= i < |created| - 1 :: EarlierMinute(created[i], created[|created| - 1]);
  }

  /** The job with the greatest name among those named for the cronjob is unfinished. */
  ghost predicate Blocked(cron: string, s: State) {
    exists j :: j in s.jobs && Named(cron, j) && Greatest(cron, s, j)
                && !(j in s.statuses && (s.statuses[j] == "complete" || s.statuses[j] == "failed"))
  }

  ghost predicate Greatest(cron: string, s: State, job: string) {
    forall i | i in s.jobs && Named(cron, i) :: !Less(job, i)
  }

  lemma {:induction false} LatestDecidesBlocked(cron: string, s: State, listing: seq<string>, latest: string)
    requires IsLatest(cron, listing, latest) && forall j :: j in listing <==> j in s.jobs
    ensures Blocked(cron, s) <==> latest != "" && !Finished(latest, s.statuses)
  {
    if j :| j in s.jobs && Named(cron, j) && Greatest(cron, s, j)
            && !(j in s.statuses && (s.statuses[j] == "complete" || s.statuses[j] == "failed")) {
      Total(j, latest);
    }
    if latest != "" { assert Greatest(cron, s, latest); }
  }

  /** No job is skipped, either: in every run a reconcile over fresh facts creates a job
      exactly when the schedule matches, this minute has none yet and the job with the
      greatest name is not unfinished. */
  lemma {:induction false} CreatesExactlyWhenFree(cron: string, run: seq<State>, steps: seq<Step>, k: nat)
    requires IsRun(cron, run, steps) && k + 1 < |steps| && steps[k].Scan? && steps[k + 1].Commit?
    ensures run[k + 2].created ==
            if steps[k + 1].matches && MinuteFree(run[k].created, steps[k + 1].now) && !Blocked(cron, run[k])
            then run[k].created + [steps[k + 1].now]
            else run[k].created
  {
    ScheduleKept(cron, run, steps, k);
    var s, commit := run[k], steps[k + 1];
    assert Enabled(cron, s, steps[k]) && run[k + 1] == Apply(cron, s, steps[k]);
    assert Enabled(cron, run[k + 1], commit) && run[k + 1 + 1] == Apply(cron, run[k + 1], commit);
    LatestDecidesBlocked(cron, s, steps[k].listing, commit.latest);
    if s.created != [] { LastDecidesMinute(s.created, s.clock, commit.now); }
  }

  /** The mirrored status, in every run: a reconcile over fresh facts takes over the status of
      the job with the greatest name, if it has one, and no other step touches it. */
  lemma {:induction false} MirrorsGreatestJob(cron: string, run: seq<State>, steps: seq<Step>, k: nat, j: string)
    requires IsRun(cron, run, steps) && k + 1 < |steps| && steps[k].Scan? && steps[k + 1].Commit?
    requires j in run[k].jobs && Named(cron, j) && Greatest(cron, run[k], j)
    ensures run[k + 2].lastStatus ==
            if j in run[k].statuses && run[k].statuses[j] != "" then run[k].statuses[j] else run[k].lastStatus
  {
    var s, commit := run[k], steps[k + 1];
    assert Enabled(cron, s, steps[k]) && run[k + 1] == Apply(cron, s, steps[k]);
    assert Enabled(cron, run[k + 1], commit) && run[k + 1 + 1] == Apply(cron, run[k + 1], commit);
    Total(j, commit.latest);
    assert j != "";
  }

  lemma {:induction false} StatusKept(cron: string, run: seq<State>, steps: seq<Step>, k: nat)
    requires IsRun(cron, run, steps) && k < |steps|
    requires steps[k].Commit? ==> forall j | j in run[k].view.value.jobs :: !Named(cron, j)
    ensures run[k + 1].lastStatus == run[k].lastStatus
  {
    assert Enabled(cron, run[k], steps[k]) && run[k + 1] == Apply(cron, run[k], steps[k]);
  }

  // --- One unfinished job ---------------------------------------------------------------------------

  ghost predicate OwnJob(cron: string, s: State, k: int) {
    0 <= k < |s.created| && JobName(cron, s.created[k]) in s.jobs
  }

  ghost predicate OwnFinished(cron: string, s: State, k: int) {
    0 <= k < |s.created| && Finished(JobName(cron, s.created[k]), s.statuses)
  }

  /** Only the last job created may be unfinished. */
  ghost predicate OlderFinished(cron: string, s: State) {
    forall k | OwnJob(cron, s, k) && k < |s.created| - 1 :: OwnFinished(cron, s, k)
  }

  /** The view of a reconcile in progress lists every job of the cronjob that is still there,
      and those it shows finished are. */
  ghost predicate ViewOk(cron: string, s: State, view: View) {
    forall k | OwnJob(cron, s, k) ::
      && JobName(cron, s.created[k]) in view.jobs
      && (Finished(JobName(cron, s.created[k]), view.statuses) ==> OwnFinished(cron, s, k))
  }

  ghost predicate Inv(cron: string, s: State) {
    && ScheduleOk(s)
    && OlderFinished(cron, s)
    && (s.view.Some? ==> ViewOk(cron, s, s.view.value))
  }

  /** Under the invariant a cronjob has at most one unfinished job, and it has the greatest
      name of all its jobs. */
  lemma {:induction false} AtMostOneUnfinished(cron: string, s: State, i: nat, j: nat)
    requires Inv(cron, s) && OwnJob(cron, s, i) && !OwnFinished(cron, s, i) && OwnJob(cron, s, j) && i != j
    ensures OwnFinished(cron, s, j) && Less(JobName(cron, s.created[j]), JobName(cron, s.created[i]))
  {
    NameOrder(cron, s.created[j], s.created[i]);
  }

  /** The commit creates a job while the last one created is there and unfinished. */
  ghost predicate Overlaps(cron: string, s: State, step: Step) {
    && step.Commit? && s.view.Some? && Due(s.view.value, step.latest, step.now, step.matches)
    && OwnJob(cron, s, |s.created| - 1) && !OwnFinished(cron, s, |s.created| - 1)
  }

  lemma {:induction false} OwnName(cron: string, t: UtcTime)
    ensures Named(cron, JobName(cron, t)) && JobName(cron, t) != ""
  {
  }

  lemma {:induction false} OwnNamesDiffer(cron: string, created: seq<UtcTime>, i: nat, j: nat)
    requires MinutesIncrease(created) && i < |created| && j < |created| && i != j
    ensures JobName(cron, created[i]) != JobName(cron, created[j])
  {
    NameOrder(cron, created[i], created[j]);
  }

  /** A name that sorts after the last job's is nobody's own. */
  lemma {:induction false} AfterNewestIsForeign(cron: string, created: seq<UtcTime>, job: string)
    requires MinutesIncrease(created) && created != [] && Less(JobName(cron, created[|created| - 1]), job)
    ensures !CreatedJob(cron, created, job)
  {
    if k :| 0 <= k < |created| && job == JobName(cron, created[k]) {
      NameOrder(cron, created[|created| - 1], created[k]);
    }
  }

  /** With the last job created unfinished, a commit creates another one if and only if the
      schedule matches in a free minute and the greatest name of the cronjob's form is a
      finished job of someone else's that sorts after that job. */
  lemma {:induction false} OverlapIffForeignSortsLast(cron: string, s: State, step: Step)
    requires Inv(cron, s) && step.Commit? && Enabled(cron, s, step)
    requires OwnJob(cron, s, |s.created| - 1) && !OwnFinished(cron, s, |s.created| - 1)
    ensures var newest := JobName(cron, s.created[|s.created| - 1]);
            Overlaps(cron, s, step) <==>
            && step.matches && MinuteFree(s.created, step.now)
            && Less(newest, step.latest) && Finished(step.latest, s.view.value.statuses)
            && !CreatedJob(cron, s.created, step.latest)
  {
    var n := |s.created| - 1;
    var newest := JobName(cron, s.created[n]);
    OwnName(cron, s.created[n]);
    LastDecidesMinute(s.created, s.clock, step.now);
    Total(newest, step.latest);
    if Less(newest, step.latest) { AfterNewestIsForeign(cron, s.created, step.latest); }
  }

  lemma {:induction false} IdleCommitKeeps(cron: string, s: State, step: Step)
    requires Inv(cron, s) && step.Commit? && Enabled(cron, s, step)
    requires !Due(s.view.value, step.latest, step.now, step.matches)
    ensures Inv(cron, Apply(cron, s, step))
  {
    var next := Apply(cron, s, step);
    ScheduleStep(cron, s, step);
    forall k | OwnJob(cron, next, k) && k < |next.created| - 1 ensures OwnFinished(cron, next, k) { assert OwnJob(cron, s, k); }
  }

  /** A new job changes nothing about the earlier ones. */
  lemma {:induction false} EarlierJobsSame(cron: string, s: State, step: Step, k: nat)
    requires ScheduleOk(s) && step.Commit? && Enabled(cron, s, step) && k < |s.created|
    requires Due(s.view.value, step.latest, step.now, step.matches)
    ensures OwnJob(cron, Apply(cron, s, step), k) <==> OwnJob(cron, s, k)
    ensures OwnFinished(cron, Apply(cron, s, step), k) <==> OwnFinished(cron, s, k)
  {
    var next := Apply(cron, s, step);
    ScheduleStep(cron, s, step);
    assert next.created[k] == s.created[k] && next.created[|s.created|] == step.now;
    OwnNamesDiffer(cron, next.created, k, |s.created|);
  }

  lemma {:induction false} CreatingCommitKeepsIff(cron: string, s: State, step: Step)
    requires Inv(cron, s) && step.Commit? && Enabled(cron, s, step)
    requires Due(s.view.value, step.latest, step.now, step.matches)
    ensures Inv(cron, Apply(cron, s, step)) <==> !Overlaps(cron, s, step)
  {
    var next, n := Apply(cron, s, step), |s.created| - 1;
    ScheduleStep(cron, s, step);
    if n >= 0 { EarlierJobsSame(cron, s, step, n); }
    if !Overlaps(cron, s, step) {
      forall k | OwnJob(cron, next, k) && k < |next.created| - 1 ensures OwnFinished(cron, next, k) {
        EarlierJobsSame(cron, s, step, k);
      }
    }
  }

  lemma {:induction false} ScanKeeps(cron: string, s: State, step: Step)
    requires Inv(cron, s) && step.Scan? && Enabled(cron, s, step)
    ensures Inv(cron, Apply(cron, s, step))
  {
    var next := Apply(cron, s, step);
    ScheduleStep(cron, s, step);
    forall k | OwnJob(cron, next, k) ensures OwnJob(cron, s, k) && (OwnFinished(cron, next, k) <==> OwnFinished(cron, s, k)) {}
  }

  /** The other writers only finish, remove or add jobs that are not the cronjob's. */
  lemma {:induction false} WriterKeeps(cron: string, s: State, step: Step)
    requires Inv(cron, s) && (step.Report? || step.Remove? || step.AddForeign?) && Enabled(cron, s, step)
    ensures Inv(cron, Apply(cron, s, step))
  {
    var next := Apply(cron, s, step);
    ScheduleStep(cron, s, step);
    forall k | OwnJob(cron, next, k)
      ensures OwnJob(cron, s, k)
      ensures OwnFinished(cron, s, k) ==> OwnFinished(cron, next, k)
    {
      WriterAt(cron, s, step, k);
    }
  }

  lemma {:induction false} WriterAt(cron: string, s: State, step: Step, k: nat)
    requires (step.Report? || step.Remove? || step.AddForeign?) && Enabled(cron, s, step)
    requires OwnJob(cron, Apply(cron, s, step), k)
    ensures OwnJob(cron, s, k) && (OwnFinished(cron, s, k) ==> OwnFinished(cron, Apply(cron, s, step), k))
  {
  }

  /** A step keeps at most one job unfinished if and only if it is not a commit that overlaps. */
  lemma {:induction false} StepKeepsIff(cron: string, s: State, step: Step)
    requires Inv(cron, s) && Enabled(cron, s, step)
    ensures Inv(cron, Apply(cron, s, step)) <==> !Overlaps(cron, s, step)
  {
    match step {
      case Scan(_) => ScanKeeps(cron, s, step);
      case Commit(now, matches, latest) =>
        if Due(s.view.value, latest, now, matches) {
          CreatingCommitKeepsIff(cron, s, step);
        } else {
          IdleCommitKeeps(cron, s, step);
        }
      case _ => WriterKeeps(cron, s, step);
    }
  }

  /** Every run, whatever others add, keeps at most one job unfinished up to its first
      overlapping commit. */
  lemma {:induction false} KeptUntilOverlap(cron: string, run: seq<State>, steps: seq<Step>, k: nat)
    requires IsRun(cron, run, steps) && k < |run|
    requires forall i | 0 <= i < k :: !Overlaps(cron, run[i], steps[i])
    ensures Inv(cron, run[k])
    decreases k
  {
    if k > 0 {
      KeptUntilOverlap(cron, run, steps, k - 1);
      assert run[k - 1 + 1] == Apply(cron, run[k - 1], steps[k - 1]);
      StepKeepsIff(cron, run[k - 1], steps[k - 1]);
    }
  }

  // --- Foreign names that do no harm -----------------------------------------------------------------

  /** A name that is not of the cronjob's form, or sorts below its job of the time `first`. */
  predicate SortsBelow(cron: string, first: UtcTime, job: string) {
    Named(cron, job) ==> Less(job, JobName(cron, first))
  }

  /** The run's foreign names sort below the cronjob's first job: `first` is its minute or an
      earlier time. */
  ghost predicate ForeignBelow(cron: string, first: UtcTime, run: seq<State>, steps: seq<Step>)
    requires IsRun(cron, run, steps)
  {
    && (forall j | j in run[0].jobs :: SortsBelow(cron, first, j))
    && (forall k | 0 <= k < |steps| && steps[k].AddForeign? :: SortsBelow(cron, first, steps[k].job))
    && (forall k | 0 <= k < |run| :: NoneBefore(run[k].created, first))
  }

  ghost predicate NoneBefore(created: seq<UtcTime>, first: UtcTime) {
    forall i | 0 <= i < |created| :: !EarlierMinute(created[i], first)
  }

  ghost predicate OwnOrBelow(cron: string, first: UtcTime, created: seq<UtcTime>, job: string) {
    CreatedJob(cron, created, job) || SortsBelow(cron, first, job)
  }

  ghost predicate AllOwnOrBelow(cron: string, first: UtcTime, s: State) {
    && (forall j | j in s.jobs :: OwnOrBelow(cron, first, s.created, j))
    && (s.view.Some? ==> forall j | j in s.view.value.jobs :: OwnOrBelow(cron, first, s.created, j))
  }

  lemma {:induction false} StillOwnOrBelow(cron: string, first: UtcTime, created: seq<UtcTime>, now: UtcTime, job: string)
    requires job == JobName(cron, now) || OwnOrBelow(cron, first, created, job)
    ensures OwnOrBelow(cron, first, created + [now], job)
  {
    if job == JobName(cron, now) {
      assert (created + [now])[|created|] == now;
    } else if k :| 0 <= k < |created| && job == JobName(cron, created[k]) {
      assert (created + [now])[k] == created[k];
    }
  }

  lemma {:induction false} OwnOrBelowStep(cron: string, first: UtcTime, s: State, step: Step)
    requires AllOwnOrBelow(cron, first, s) && Enabled(cron, s, step)
    requires step.AddForeign? ==> SortsBelow(cron, first, step.job)
    ensures AllOwnOrBelow(cron, first, Apply(cron, s, step))
  {
    var next := Apply(cron, s, step);
    if step.Commit? && Due(s.view.value, step.latest, step.now, step.matches) {
      forall j | j in next.jobs ensures OwnOrBelow(cron, first, next.created, j) {
        StillOwnOrBelow(cron, first, s.created, step.now, j);
      }
    }
  }

  lemma {:induction false} OwnOrBelowKept(cron: string, first: UtcTime, run: seq<State>, steps: seq<Step>, k: nat)
    requires IsRun(cron, run, steps) && ForeignBelow(cron, first, run, steps) && k < |run|
    ensures AllOwnOrBelow(cron, first, run[k])
    decreases k
  {
    if k > 0 {
      OwnOrBelowKept(cron, first, run, steps, k - 1);
      assert run[k - 1 + 1] == Apply(cron, run[k - 1], steps[k - 1]);
      OwnOrBelowStep(cron, first, run[k - 1], steps[k - 1]);
    }
  }

  /** A name below the first job's does not sort after any job's. */
  lemma {:induction false} BelowIsNotAfter(cron: string, first: UtcTime, t: UtcTime, job: string)
    requires !EarlierMinute(t, first) && Less(job, JobName(cron, first))
    ensures !Less(JobName(cron, t), job)
  {
    NameOrder(cron, t, first);
    if Less(JobName(cron, t), job) { Transitive(JobName(cron, t), job, JobName(cron, first)); }
  }

  lemma {:induction false} NoOverlapBelow(cron: string, first: UtcTime, s: State, step: Step)
    requires Inv(cron, s) && Enabled(cron, s, step) && AllOwnOrBelow(cron, first, s) && NoneBefore(s.created, first)
    ensures !Overlaps(cron, s, step)
  {
    if Overlaps(cron, s, step) {
      OverlapIffForeignSortsLast(cron, s, step);
      assert OwnOrBelow(cron, first, s.created, step.latest);
      BelowIsNotAfter(cron, first, s.created[|s.created| - 1], step.latest);
    }
  }

  lemma {:induction false} RunKeeps(cron: string, first: UtcTime, run: seq<State>, steps: seq<Step>, k: nat)
    requires IsRun(cron, run, steps) && ForeignBelow(cron, first, run, steps) && k < |run|
    ensures Inv(cron, run[k])
    decreases k
  {
    if k > 0 {
      RunKeeps(cron, first, run, steps, k - 1);
      OwnOrBelowKept(cron, first, run, steps, k - 1);
      NoOverlapBelow(cron, first, run[k - 1], steps[k - 1]);
      assert run[k - 1 + 1] == Apply(cron, run[k - 1], steps[k - 1]);
      StepKeepsIff(cron, run[k - 1], steps[k - 1]);
    }
  }

  /** In every state of every run whose foreign names sort below the cronjob's first job, the
      cronjob has at most one unfinished job, and it has the greatest name of all its jobs. */
  lemma {:induction false} NeverOverlaps(cron: string, first: UtcTime, run: seq<State>, steps: seq<Step>, k: nat, i: nat, j: nat)
    requires IsRun(cron, run, steps) && ForeignBelow(cron, first, run, steps) && k < |run|
    requires OwnJob(cron, run[k], i) && !OwnFinished(cron, run[k], i) && OwnJob(cron, run[k], j) && i != j
    ensures OwnFinished(cron, run[k], j) && Less(JobName(cron, run[k].created[j]), JobName(cron, run[k].created[i]))
  {
    RunKeeps(cron, first, run, steps, k);
    AtMostOneUnfinished(cron, run[k], i, j);
  }

  // --- A foreign name that starts with the cronjob's ----------------------------------------------

  lemma {:induction false} LatestOfTwo(cron: string, a: string, b: string, latest: string)
    requires Named(cron, a) && Named(cron, b) && a != b && IsLatest(cron, [a, b], latest)
    ensures latest == if Less(b, a) then a else b
  {
    assert a in [a, b] && b in [a, b];
    Total(a, b);
    if Less(b, a) { Asymmetric(b, a); }
  }

  /** A scan of all jobs and a commit in a minute not scheduled before. */
  lemma {:induction false} OneCycle(cron: string, s: State, listing: seq<string>, now: UtcTime, latest: string) returns (t: State, u: State)
    requires s.view.None? && NotAfter(s.clock, now) && IsLatest(cron, listing, latest)
    requires forall j :: j in listing <==> j in s.jobs
    requires s.lastScheduled.Some? ==> !WithinSameMinute(s.lastScheduled.value, now)
    ensures Enabled(cron, s, Scan(listing)) && t == Apply(cron, s, Scan(listing))
    ensures Enabled(cron, t, Commit(now, true, latest)) && u == Apply(cron, t, Commit(now, true, latest))
    ensures u.view.None? && u.statuses == s.statuses && u.clock == now
    ensures if latest == "" || Finished(latest, s.statuses)
            then u.jobs == s.jobs + {JobName(cron, now)} && u.created == s.created + [now] && u.lastScheduled == Some(now)
            else u.jobs == s.jobs && u.created == s.created && u.lastScheduled == s.lastScheduled
  {
    t := Apply(cron, s, Scan(listing));
    u := Apply(cron, t, Commit(now, true, latest));
  }

  /** Runs that overlap exist: beside someone else's finished job of the name `<cronjob>-...`,
      as the jobs of a cronjob called `<cronjob>-x` have, the first two matching minutes leave
      two unfinished jobs exactly when that name sorts after the first job's. */
  lemma {:induction false} ForeignNameOverlaps(cron: string, foreign: string, first: UtcTime, second: UtcTime, latest: string)
    returns (run: seq<State>, steps: seq<Step>)
    requires Named(cron, foreign) && foreign != JobName(cron, first) && foreign != JobName(cron, second)
    requires EarlierMinute(first, second)
    requires IsLatest(cron, [foreign, JobName(cron, first)], latest)
    ensures steps == [Scan([foreign]), Commit(first, true, foreign),
                      Scan([foreign, JobName(cron, first)]), Commit(second, true, latest)]
    ensures IsRun(cron, run, steps) && run[0].jobs == {foreign} && Finished(foreign, run[0].statuses)
    ensures OwnJob(cron, run[4], 0) && !OwnFinished(cron, run[4], 0)
    ensures OwnJob(cron, run[4], 1) && !OwnFinished(cron, run[4], 1) <==> Less(JobName(cron, first), foreign)
  {
    var own := JobName(cron, first);
    OwnName(cron, first);
    LatestOfTwo(cron, foreign, own, latest);
    Irreflexive(foreign);
    var s0 := State({foreign}, map[foreign := COMPLETE], None, COMPLETE, first, None, []);
    var s1, s2 := OneCycle(cron, s0, [foreign], first, foreign);
    var s3, s4 := OneCycle(cron, s2, [foreign, own], second, latest);
    steps := [Scan([foreign]), Commit(first, true, foreign), Scan([foreign, own]), Commit(second, true, latest)];
    run := [s0, s1, s2, s3, s4];
  }
}
