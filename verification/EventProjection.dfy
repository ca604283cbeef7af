/** The event projector's resumable watch on one prefix
    (controllers/event_projector.go): it forwards committed events, reconnects after
    the watch closes, and rescans with a gap marker when events were lost. */
module EventProjection {
  import opened Options

  /** A projector.resync event: history between `from` (exclusive) and `upto`
      (inclusive) is missing. Emitting it can fail, which is only logged. */
  datatype Marker = Marker(from: nat, upto: nat, emitted: bool)

  /** The loop's own state. `forwarded` lists the forwarded events by their position in
      the prefix's commit order; `markers` the gap markers, newest last. */
  datatype Projector = Projector(last: nat, forwarded: seq<nat>, markers: seq<Marker>)

  /** How one watch ends: its channel closes, or a compaction or overflow event makes
      the loop rescan. The scan reports the store revision, or fails. */
  datatype Ending = ChannelClosed | ResyncRequired(scan: Option<nat>, emitted: bool)

  datatype Received = Received(position: nat, revision: nat)

  /** One pass of the outer loop, as the loop sees it. */
  datatype Session = WatchFailed | Watched(events: seq<Received>, ending: Ending)

  function Max(a: nat, b: nat): nat {
    if a < b then b else a
  }

  function Forward(p: Projector, event: Received): Projector {
    p.(last := Max(p.last, event.revision), forwarded := p.forwarded + [event.position])
  }

  /** resyncFromScan, and the caller's update of the last processed revision. */
  function End(p: Projector, ending: Ending): Projector {
    match ending
    case ChannelClosed => p
    case ResyncRequired(None, _) => p
    case ResyncRequired(Some(revision), emitted) =>
      p.(last := Max(p.last, revision), markers := p.markers + [Marker(p.last, revision, emitted)])
  }

  function ForwardAll(p: Projector, events: seq<Received>): Projector
    decreases |events|
  {
    if events == [] then p else Forward(ForwardAll(p, events[..|events| - 1]), events[|events| - 1])
  }

  function AfterSession(p: Projector, session: Session): Projector {
    if session.WatchFailed? then p else End(ForwardAll(p, session.events), session.ending)
  }

  function AfterSessions(p: Projector, sessions: seq<Session>): Projector
    decreases |sessions|
  {
    if sessions == [] then p else AfterSession(AfterSessions(p, sessions[..|sessions| - 1]), sessions[|sessions| - 1])
  }

  /** The start revision of watch i, 0 meaning live events only. */
  function StartOf(sessions: seq<Session>, i: nat): nat
    requires i <= |sessions|
  {
    var last := AfterSessions(Projector(0, [], []), sessions[..i]).last;
    if last > 0 then last + 1 else 0
  }

  /** watchPrefixWithReconnect: nested loops over watches and their events. `starts` are
      the start revisions the loop asks for. */
  method WatchPrefixWithReconnect(sessions: seq<Session>) returns (p: Projector, starts: seq<nat>)
    ensures p == AfterSessions(Projector(0, [], []), sessions)
    ensures |starts| == |sessions|
    ensures forall i | 0 <= i < |sessions| :: starts[i] == StartOf(sessions, i)
  {
    var lastProcessedRevision: nat := 0;
    var forwarded: seq<nat>, markers: seq<Marker> := [], [];
    starts := [];
    ghost var initial := Projector(0, [], []);
    for i := 0 to |sessions|
      invariant Projector(lastProcessedRevision, forwarded, markers) == AfterSessions(initial, sessions[..i])
      invariant |starts| == i
      invariant forall j | 0 <= j < i :: starts[j] == StartOf(sessions, j)
    {
      assert sessions[..i + 1][..i] == sessions[..i];
      starts := starts + [if lastProcessedRevision > 0 then lastProcessedRevision + 1 else 0];
      ghost var before := AfterSessions(initial, sessions[..i]);
      if sessions[i].Watched? {
        var events := sessions[i].events;
        for j := 0 to |events|
          invariant Projector(lastProcessedRevision, forwarded, markers) == ForwardAll(before, events[..j])
        {
          assert events[..j + 1][..j] == events[..j];
          if events[j].revision > lastProcessedRevision {
            lastProcessedRevision := events[j].revision;
          }
          forwarded := forwarded + [events[j].position];
        }
        assert events[..|events|] == events;
        match sessions[i].ending
        case ChannelClosed =>
        case ResyncRequired(None, _) =>
        case ResyncRequired(Some(revision), emitted) =>
          markers := markers + [Marker(lastProcessedRevision, revision, emitted)];
          if revision > lastProcessedRevision {
            lastProcessedRevision := revision;
          }
      }
    }
    assert sessions[..|sessions|] == sessions;
    p := Projector(lastProcessedRevision, forwarded, markers);
  }

  // --- The projector against a committing store ---------------------------------

  /** `log` holds the revision of each event committed under the prefix, in commit
      order; one transaction may commit several at one revision. `watch` is the
      position the open watch delivers next. */
  datatype System = System(log: seq<nat>, storeRevision: nat, watch: Option<nat>, projector: Projector)

  datatype Step =
    | Commit(revision: nat, count: nat)
    | Open
    | OpenFails
    | Deliver
    | Close
    | Resync(scanOk: bool, emitted: bool)

  function Init(): System {
    System([], 0, None, Projector(0, [], []))
  }

  /** The first position whose revision is at least r, in a log of ascending revisions. */
  function FirstFrom(log: seq<nat>, r: nat): (i: nat)
    ensures i <= |log|
  {
    if log == [] || log[|log| - 1] < r then |log| else FirstFrom(log[..|log| - 1], r)
  }

  /** Where a watch from a start revision begins; 0 asks for what is committed from now on. */
  function PositionFrom(log: seq<nat>, start: nat): nat {
    if start > 0 then FirstFrom(log, start) else |log|
  }

  predicate Enabled(s: System, step: Step) {
    match step
    case Commit(revision, _) => revision > s.storeRevision
    case Open => s.watch.None?
    case OpenFails => s.watch.None?
    case Deliver => s.watch.Some? && s.watch.value < |s.log|
    case Close => s.watch.Some?
    case Resync(_, _) => s.watch.Some?
  }

  /** A watch from revision r delivers every event from r on, in commit order and
      without a gap, until it closes or reports compaction or overflow. */
  function Apply(s: System, step: Step): System
    requires Enabled(s, step)
  {
    match step
    case Commit(revision, count) =>
      s.(log := s.log + seq(count, _ => revision), storeRevision := revision)
    case Open =>
      s.(watch := Some(PositionFrom(s.log, if s.projector.last > 0 then s.projector.last + 1 else 0)))
    case OpenFails => s
    case Deliver =>
      var position := s.watch.value;
      s.(watch := Some(position + 1), projector := Forward(s.projector, Received(position, s.log[position])))
    case Close =>
      s.(watch := None, projector := End(s.projector, ChannelClosed))
    case Resync(scanOk, emitted) =>
      var scan := if scanOk then Some(s.storeRevision) else None;
      s.(watch := None, projector := End(s.projector, ResyncRequired(scan, emitted)))
  }

  /** The system after a run from the start, or None when some step is not enabled. */
  function Run(steps: seq<Step>): Option<System>
    decreases |steps|
  {
    if steps == [] then Some(Init())
    else
      var before, step := Run(steps[..|steps| - 1]), steps[|steps| - 1];
      if before.Some? && Enabled(before.value, step) then Some(Apply(before.value, step)) else None
  }

  // --- What the run has done with each event -------------------------------------

  predicate InInterval(m: Marker, revision: nat) {
    m.from < revision <= m.upto
  }

  ghost predicate InGap(p: Projector, revision: nat) {
    exists k :: 0 <= k < |p.markers| && InInterval(p.markers[k], revision)
  }

  /** An earlier event of the same revision was forwarded. */
  ghost predicate SiblingForwarded(s: System, i: nat)
    requires i < |s.log|
  {
    exists j :: 0 <= j < i && s.log[j] == s.log[i] && j in s.projector.forwarded
  }

  /** The projector has passed event i: it will not deliver it from now on. */
  predicate Passed(s: System, i: nat)
    requires i < |s.log|
  {
    if s.watch.Some? then i < s.watch.value else s.log[i] <= s.projector.last
  }

  ghost predicate Ascending(log: seq<nat>) {
    forall i, j | 0 <= i < j < |log| :: log[i] <= log[j]
  }

  ghost predicate StrictlyAscending(s: seq<nat>) {
    forall i, j | 0 <= i < j < |s| :: s[i] < s[j]
  }

  lemma {:induction false} FirstFromSplits(log: seq<nat>, r: nat, i: nat)
    requires Ascending(log) && i < |log|
    ensures i < FirstFrom(log, r) <==> log[i] < r
  {
    if log[|log| - 1] >= r && i < |log| - 1 {
      FirstFromSplits(log[..|log| - 1], r, i);
    }
  }

  // --- The invariant ---------------------------------------------------------------

  ghost predicate LogOk(s: System) {
    Ascending(s.log) && (forall i | 0 <= i < |s.log| :: 0 < s.log[i] <= s.storeRevision)
    && s.projector.last <= s.storeRevision
  }

  ghost predicate ForwardedOk(s: System) {
    && StrictlyAscending(s.projector.forwarded)
    && (forall k | 0 <= k < |s.projector.forwarded| ::
          var i := s.projector.forwarded[k];
          && i < |s.log| && s.log[i] <= s.projector.last
          && (s.watch.Some? ==> i < s.watch.value))
  }

  /** An open watch continues right after the last processed revision; the events it
      still owes lie beyond every gap. */
  ghost predicate WatchOk(s: System) {
    s.watch.Some? ==>
      && s.watch.value <= |s.log|
      && (s.projector.last > 0 ==> forall i | 0 <= i < s.watch.value :: s.log[i] <= s.projector.last)
      && (forall i | s.watch.value <= i < |s.log| :: s.log[i] >= s.projector.last)
      && (forall i, k | s.watch.value <= i < |s.log| && 0 <= k < |s.projector.markers| ::
            s.log[i] > s.projector.markers[k].upto)
  }

  ghost predicate MarkersOk(s: System) {
    && (forall k | 0 <= k < |s.projector.markers| ::
          s.projector.markers[k].from <= s.projector.markers[k].upto <= s.projector.last)
    && (forall k, l | 0 <= k < l < |s.projector.markers| :: s.projector.markers[k].upto <= s.projector.markers[l].from)
    && (forall k, i | 0 <= k < |s.projector.markers| && i in s.projector.forwarded && i < |s.log| ::
          !InInterval(s.projector.markers[k], s.log[i]))
  }

  /** The last processed revision is that of a forwarded event or the end of a gap. */
  ghost predicate LastOk(s: System) {
    && (s.projector.last > 0 ==>
          || (exists i :: i in s.projector.forwarded && i < |s.log| && s.log[i] == s.projector.last)
          || InGap(s.projector, s.projector.last))
    && (s.projector.last == 0 ==> s.projector.forwarded == [])
  }

  ghost predicate CoveredAt(s: System, i: nat)
    requires i < |s.log|
  {
    i in s.projector.forwarded || InGap(s.projector, s.log[i]) || SiblingForwarded(s, i)
  }

  /** A gap was noted that begins with the first revision. */
  ghost predicate MarkedFromStart(p: Projector) {
    exists k :: 0 <= k < |p.markers| && p.markers[k].from == 0 && p.markers[k].upto > 0
  }

  /** From where on events are accounted for: from the first forwarded event, and from the very
      first if a gap was noted before any was forwarded. */
  ghost predicate Begun(s: System, i: nat) {
    i < |s.log| && ((s.projector.forwarded != [] && s.projector.forwarded[0] <= i) || MarkedFromStart(s.projector))
  }

  ghost predicate Covered(s: System) {
    forall i: nat | Begun(s, i) && Passed(s, i) :: CoveredAt(s, i)
  }

  ghost predicate Consistent(s: System) {
    LogOk(s) && ForwardedOk(s) && WatchOk(s) && MarkersOk(s) && LastOk(s)
  }

  ghost predicate Inv(s: System) {
    Consistent(s) && Covered(s)
  }

  // --- Every step keeps the invariant ------------------------------------------------

  lemma {:induction false} CommitConsistent(s: System, step: Step)
    requires Consistent(s) && step.Commit? && Enabled(s, step)
    ensures Consistent(Apply(s, step))
  {
    var t := Apply(s, step);
    assert forall i | 0 <= i < |s.log| :: t.log[i] == s.log[i];
  }

  lemma {:induction false} CommitCovered(s: System, step: Step)
    requires Inv(s) && step.Commit? && Enabled(s, step)
    ensures Covered(Apply(s, step))
  {
    var t := Apply(s, step);
    forall i: nat | Begun(t, i) && Passed(t, i) ensures CoveredAt(t, i) {
      assert i < |s.log| && CoveredAt(s, i);
    }
  }

  lemma {:induction false} OpenConsistent(s: System, step: Step)
    requires Consistent(s) && step.Open? && Enabled(s, step)
    ensures Consistent(Apply(s, step))
    ensures forall i | 0 <= i < |s.log| && s.projector.last > 0 :: Passed(Apply(s, step), i) <==> Passed(s, i)
  {
    forall i | 0 <= i < |s.log| ensures i < FirstFrom(s.log, s.projector.last + 1) <==> s.log[i] <= s.projector.last {
      FirstFromSplits(s.log, s.projector.last + 1, i);
    }
  }

  lemma {:induction false} OpenCovered(s: System, step: Step)
    requires Inv(s) && step.Open? && Enabled(s, step)
    ensures Covered(Apply(s, step))
  {
    OpenConsistent(s, step);
    var t := Apply(s, step);
    forall i: nat | Begun(t, i) && Passed(t, i) ensures CoveredAt(t, i) {
      assert CoveredAt(s, i);
    }
  }

  lemma {:induction false} DeliverForwarded(s: System, step: Step)
    requires Consistent(s) && step.Deliver? && Enabled(s, step)
    ensures LogOk(Apply(s, step)) && ForwardedOk(Apply(s, step))
  {
  }

  lemma {:induction false} DeliverWatch(s: System, step: Step)
    requires Consistent(s) && step.Deliver? && Enabled(s, step)
    ensures WatchOk(Apply(s, step))
  {
  }

  lemma {:induction false} DeliverMarkersLast(s: System, step: Step)
    requires Consistent(s) && step.Deliver? && Enabled(s, step)
    ensures MarkersOk(Apply(s, step)) && LastOk(Apply(s, step))
  {
    var q := Apply(s, step).projector;
    assert q.forwarded[|s.projector.forwarded|] == s.watch.value;
    assert s.projector.last <= q.last;
  }

  lemma {:induction false} DeliverCovered(s: System, step: Step)
    requires Inv(s) && step.Deliver? && Enabled(s, step)
    ensures Covered(Apply(s, step))
  {
    var t, position := Apply(s, step), s.watch.value;
    assert t.projector.forwarded[|s.projector.forwarded|] == position;
    forall i: nat | Begun(t, i) && Passed(t, i) ensures CoveredAt(t, i) {
      if i < position {
        assert CoveredAt(s, i);
      }
    }
  }

  /** The events a watch still owes when it ends belong to later revisions, except for
      siblings of the last event it forwarded. */
  lemma {:induction false} CutShort(s: System, i: nat)
    requires Consistent(s) && s.watch.Some? && s.projector.last > 0
    requires s.watch.value <= i < |s.log| && s.log[i] == s.projector.last
    ensures SiblingForwarded(s, i)
  {
    assert !InGap(s.projector, s.projector.last);
    var j :| j in s.projector.forwarded && j < |s.log| && s.log[j] == s.projector.last;
    assert j < i;
  }

  /** Ending a watch only adds to the gaps, and a gap it adds runs up to the new last
      processed revision. */
  lemma {:induction false} EndGaps(p: Projector, ending: Ending)
    ensures var q := End(p, ending);
            && (forall r | InGap(p, r) :: InGap(q, r))
            && (forall r | p.last < r <= q.last :: InGap(q, r))
  {
    var q := End(p, ending);
    forall r | InGap(p, r) ensures InGap(q, r) {
      var k :| 0 <= k < |p.markers| && InInterval(p.markers[k], r);
      assert q.markers[k] == p.markers[k];
    }
    forall r | p.last < r <= q.last ensures InGap(q, r) {
      assert InInterval(q.markers[|p.markers|], r);
    }
  }

  function EndingOf(s: System, step: Step): Ending {
    if step.Resync? then ResyncRequired(if step.scanOk then Some(s.storeRevision) else None, step.emitted)
    else ChannelClosed
  }

  lemma {:induction false} EndLogWatch(s: System, step: Step)
    requires Consistent(s) && (step.Close? || step.Resync?) && Enabled(s, step)
    ensures LogOk(Apply(s, step)) && ForwardedOk(Apply(s, step)) && WatchOk(Apply(s, step))
  {
  }

  lemma {:induction false} EndMarkers(s: System, step: Step)
    requires Consistent(s) && (step.Close? || step.Resync?) && Enabled(s, step)
    ensures MarkersOk(Apply(s, step))
  {
  }

  lemma {:induction false} EndLast(s: System, step: Step)
    requires Consistent(s) && (step.Close? || step.Resync?) && Enabled(s, step)
    ensures LastOk(Apply(s, step))
  {
    EndGaps(s.projector, EndingOf(s, step));
  }

  lemma {:induction false} EndConsistent(s: System, step: Step)
    requires Consistent(s) && (step.Close? || step.Resync?) && Enabled(s, step)
    ensures Consistent(Apply(s, step))
  {
    EndLogWatch(s, step);
    EndMarkers(s, step);
    EndLast(s, step);
  }

  lemma {:induction false} EndCovered(s: System, step: Step)
    requires Inv(s) && (step.Close? || step.Resync?) && Enabled(s, step)
    ensures Covered(Apply(s, step))
  {
    EndGaps(s.projector, EndingOf(s, step));
    var t := Apply(s, step);
    forall i: nat | Begun(t, i) && Passed(t, i) ensures CoveredAt(t, i) {
      if Begun(s, i) && i < s.watch.value {
        assert CoveredAt(s, i);
      } else if s.log[i] == s.projector.last {
        CutShort(s, i);
      }
    }
  }

  lemma {:induction false} StepKeeps(s: System, step: Step)
    requires Inv(s) && Enabled(s, step)
    ensures Inv(Apply(s, step))
  {
    match step
    case Commit(_, _) =>
      CommitConsistent(s, step);
      CommitCovered(s, step);
    case Open =>
      OpenConsistent(s, step);
      OpenCovered(s, step);
    case OpenFails =>
    case Deliver =>
      DeliverForwarded(s, step);
      DeliverWatch(s, step);
      DeliverMarkersLast(s, step);
      DeliverCovered(s, step);
    case _ =>
      EndConsistent(s, step);
      EndCovered(s, step);
  }

  lemma {:induction false} RunKeeps(steps: seq<Step>)
    requires Run(steps).Some?
    ensures Inv(Run(steps).value)
    decreases |steps|
  {
    if steps != [] {
      RunKeeps(steps[..|steps| - 1]);
      StepKeeps(Run(steps[..|steps| - 1]).value, steps[|steps| - 1]);
    }
  }

  // --- Main results over every run -----------------------------------------------------

  /** Forwarded events are in commit order without duplicates, so their revisions never
      go back, and strictly increase when every revision commits one event. */
  lemma {:induction false} ForwardedInOrder(steps: seq<Step>, k: nat, l: nat)
    requires Run(steps).Some?
    requires k < l < |Run(steps).value.projector.forwarded|
    ensures var s := Run(steps).value;
            var i, j := s.projector.forwarded[k], s.projector.forwarded[l];
            && i < j < |s.log|
            && s.log[i] <= s.log[j] <= s.projector.last
            && (StrictlyAscending(s.log) ==> s.log[i] < s.log[j])
  {
    RunKeeps(steps);
  }

  /** Every event the projector has passed, from the first forwarded one on or, after a gap
      that was noted before any was forwarded, from the very first, was forwarded, or lies in the interval of a gap marker, never both, unless an earlier
      event of its own revision was forwarded and it was not. */
  lemma {:induction false} EveryEventAccounted(steps: seq<Step>, i: nat)
    requires Run(steps).Some?
    requires var s := Run(steps).value;
             Begun(s, i) && Passed(s, i)
    ensures var s := Run(steps).value;
            var forwarded, gap := i in s.projector.forwarded, InGap(s.projector, s.log[i]);
            && !(forwarded && gap)
            && (!forwarded && !gap <==> !forwarded && SiblingForwarded(s, i))
  {
    RunKeeps(steps);
    assert CoveredAt(Run(steps).value, i);
  }

  // --- Where an event is lost ------------------------------------------------------------

  /** Passed, and neither forwarded nor in a gap. */
  ghost predicate Lost(s: System, i: nat)
    requires i < |s.log|
  {
    Passed(s, i) && i !in s.projector.forwarded && !InGap(s.projector, s.log[i])
  }

  /** The watch ends while it still owes event i of the last processed revision: closing
      resumes after that revision, and the gap a rescan reports begins after it, too. */
  predicate CutsOff(s: System, step: Step, i: nat) {
    && (step.Close? || step.Resync?)
    && s.watch.Some? && s.watch.value <= i < |s.log|
    && s.log[i] == s.projector.last
  }

  /** The gaps after an ending are those before and, for a rescan, the one up to the store
      revision. */
  lemma {:induction false} GapsAfterEnd(p: Projector, ending: Ending, revision: nat)
    ensures InGap(End(p, ending), revision) <==>
            InGap(p, revision) || (ending.ResyncRequired? && ending.scan.Some? && p.last < revision <= ending.scan.value)
  {
    var q := End(p, ending);
    if InGap(p, revision) {
      var k :| 0 <= k < |p.markers| && InInterval(p.markers[k], revision);
      assert InInterval(q.markers[k], revision);
    }
    if ending.ResyncRequired? && ending.scan.Some? && p.last < revision <= ending.scan.value {
      assert InInterval(q.markers[|p.markers|], revision);
    }
  }

  /** An event not passed before a step is lost by the step if and only if the step cuts it
      off. */
  lemma {:induction false} LostIffCutOff(s: System, step: Step, i: nat)
    requires Inv(s) && Enabled(s, step) && Begun(s, i) && !Passed(s, i)
    ensures Lost(Apply(s, step), i) <==> CutsOff(s, step, i)
  {
    match step
    case Open => OpenConsistent(s, step);
    case Close => GapsAfterEnd(s.projector, EndingOf(s, step), s.log[i]);
    case Resync(_, _) => GapsAfterEnd(s.projector, EndingOf(s, step), s.log[i]);
    case _ =>
  }

  /** What was passed stays passed, and lost or not as it was. */
  lemma {:induction false} PassedIsSettled(s: System, step: Step, i: nat)
    requires Inv(s) && Enabled(s, step) && Begun(s, i) && Passed(s, i)
    ensures Lost(Apply(s, step), i) <==> Lost(s, i)
  {
    match step
    case Open => OpenConsistent(s, step);
    case Close => GapsAfterEnd(s.projector, EndingOf(s, step), s.log[i]);
    case Resync(_, _) => GapsAfterEnd(s.projector, EndingOf(s, step), s.log[i]);
    case Deliver => assert Apply(s, step).projector.forwarded == s.projector.forwarded + [s.watch.value];
    case _ =>
  }

  /** Some step of the run cut event i off. */
  ghost predicate WasCutOff(steps: seq<Step>, i: nat)
    requires Run(steps).Some?
    decreases |steps|
  {
    steps != [] &&
      var shorter := steps[..|steps| - 1];
      WasCutOff(shorter, i) || CutsOff(Run(shorter).value, steps[|steps| - 1], i)
  }

  lemma {:induction false} CutOffBegan(steps: seq<Step>, i: nat)
    requires Run(steps).Some? && WasCutOff(steps, i)
    ensures var s := Run(steps).value; Begun(s, i) && Passed(s, i)
    decreases |steps|
  {
    var shorter, step := steps[..|steps| - 1], steps[|steps| - 1];
    var s := Run(shorter).value;
    RunKeeps(shorter);
    if WasCutOff(shorter, i) {
      CutOffBegan(shorter, i);
      StaysPassed(s, step, i);
    } else {
      assert s.projector.forwarded[0] < s.watch.value;
    }
  }

  lemma {:induction false} StaysPassed(s: System, step: Step, i: nat)
    requires Inv(s) && Enabled(s, step) && Begun(s, i) && Passed(s, i)
    ensures Begun(Apply(s, step), i) && Passed(Apply(s, step), i)
  {
    if step.Open? { OpenConsistent(s, step); }
    if MarkedFromStart(s.projector) {
      var k :| 0 <= k < |s.projector.markers| && s.projector.markers[k].from == 0 && s.projector.markers[k].upto > 0;
      assert Apply(s, step).projector.markers[k] == s.projector.markers[k];
    }
  }

  /** An event that a step brings into view is not lost by it. */
  lemma {:induction false} NewEventNotLost(s: System, step: Step, i: nat)
    requires Inv(s) && Enabled(s, step) && !Begun(s, i) && Begun(Apply(s, step), i)
    ensures !Lost(Apply(s, step), i) && !CutsOff(s, step, i)
  {
    var t := Apply(s, step);
    if step.Deliver? {
      assert t.projector.forwarded == s.projector.forwarded + [s.watch.value];
      assert t.projector.forwarded[|s.projector.forwarded|] == s.watch.value;
    }
  }

  lemma {:induction false} LostStep(s: System, step: Step, i: nat)
    requires Inv(s) && Enabled(s, step) && Begun(Apply(s, step), i)
    ensures Lost(Apply(s, step), i) <==> (Begun(s, i) && Lost(s, i)) || CutsOff(s, step, i)
  {
    if !Begun(s, i) {
      NewEventNotLost(s, step, i);
    } else if Passed(s, i) {
      PassedIsSettled(s, step, i);
    } else {
      LostIffCutOff(s, step, i);
    }
  }

  /** In every run, where events are accounted for, one is lost if and only if some watch ended
      after forwarding an earlier event of its revision but not it. */
  lemma {:induction false} LostOnlyWhenCutOff(steps: seq<Step>, i: nat)
    requires Run(steps).Some? && Begun(Run(steps).value, i)
    ensures Lost(Run(steps).value, i) <==> WasCutOff(steps, i)
    decreases |steps|
  {
    var shorter := steps[..|steps| - 1];
    LostLately(steps, i);
    if Begun(Run(shorter).value, i) {
      LostOnlyWhenCutOff(shorter, i);
    } else if WasCutOff(shorter, i) {
      CutOffBegan(shorter, i);
    }
  }

  lemma {:induction false} LostLately(steps: seq<Step>, i: nat)
    requires Run(steps).Some? && Begun(Run(steps).value, i)
    ensures steps != []
    ensures var s := Run(steps[..|steps| - 1]).value;
            Lost(Run(steps).value, i) <==> (Begun(s, i) && Lost(s, i)) || CutsOff(s, steps[|steps| - 1], i)
  {
    RunKeeps(steps[..|steps| - 1]);
    LostStep(Run(steps[..|steps| - 1]).value, steps[|steps| - 1], i);
  }

  /** With one event per revision nothing is lost silently. */
  lemma {:induction false} NothingLostWithOneEventPerRevision(steps: seq<Step>, i: nat)
    requires Run(steps).Some?
    requires var s := Run(steps).value;
             StrictlyAscending(s.log) && Begun(s, i) && Passed(s, i)
    ensures var s := Run(steps).value;
            i in s.projector.forwarded <==> !InGap(s.projector, s.log[i])
  {
    EveryEventAccounted(steps, i);
  }

  ghost predicate Reported(p: Projector, revision: nat) {
    exists k :: 0 <= k < |p.markers| && InInterval(p.markers[k], revision) && p.markers[k].emitted
  }

  /** A revision lies in the interval of at most one marker, so it is reported exactly
      when that marker's event could be emitted. */
  lemma {:induction false} ReportedIffEmitted(steps: seq<Step>, revision: nat, k: nat)
    requires Run(steps).Some?
    requires var p := Run(steps).value.projector; k < |p.markers| && InInterval(p.markers[k], revision)
    ensures var p := Run(steps).value.projector;
            && (Reported(p, revision) <==> p.markers[k].emitted)
            && (forall l | 0 <= l < |p.markers| && InInterval(p.markers[l], revision) :: l == k)
  {
    RunKeeps(steps);
  }

  /** Some rescan of the run that succeeded, and whose marker could be emitted, reported the
      revision: it was after the last processed one and no later than the store's. */
  ghost predicate WasReported(steps: seq<Step>, revision: nat)
    requires Run(steps).Some?
    decreases |steps|
  {
    steps != [] &&
      var shorter := steps[..|steps| - 1];
      || WasReported(shorter, revision)
      || (steps[|steps| - 1] == Resync(true, true)
          && Run(shorter).value.projector.last < revision <= Run(shorter).value.storeRevision)
  }

  /** In every run the reported revisions are exactly those. */
  lemma {:induction false} ReportedByRescans(steps: seq<Step>, revision: nat)
    requires Run(steps).Some?
    ensures Reported(Run(steps).value.projector, revision) <==> WasReported(steps, revision)
    decreases |steps|
  {
    if steps != [] {
      var shorter := steps[..|steps| - 1];
      ReportedByRescans(shorter, revision);
      ReportedStep(Run(shorter).value, steps[|steps| - 1], revision);
    }
  }

  lemma {:induction false} ReportedStep(s: System, step: Step, revision: nat)
    requires Enabled(s, step)
    ensures Reported(Apply(s, step).projector, revision) <==>
            Reported(s.projector, revision) || (step == Resync(true, true) && s.projector.last < revision <= s.storeRevision)
  {
    var p, q := s.projector, Apply(s, step).projector;
    if Reported(p, revision) {
      var k :| 0 <= k < |p.markers| && InInterval(p.markers[k], revision) && p.markers[k].emitted;
      assert InInterval(q.markers[k], revision) && q.markers[k].emitted;
    }
    if step == Resync(true, true) && p.last < revision <= s.storeRevision {
      assert InInterval(q.markers[|p.markers|], revision);
    }
  }

  /** What a new watch will deliver of the events committed so far: those after the last
      processed revision, and none if nothing was processed yet. */
  lemma {:induction false} OpenDelivers(s: System, i: nat)
    requires Inv(s) && Enabled(s, Open) && i < |s.log|
    ensures !Passed(Apply(s, Open), i) <==> s.projector.last > 0 && s.log[i] > s.projector.last
  {
    if s.projector.last > 0 { FirstFromSplits(s.log, s.projector.last + 1, i); }
  }

  /** Two events of one transaction, a watch that closes between them: the second is
      neither forwarded nor reported. */
  lemma {:induction false} SiblingLost() returns (steps: seq<Step>)
    ensures Run(steps).Some?
    ensures var s := Run(steps).value;
            && s.log == [1, 1] && Passed(s, 1)
            && s.projector == Projector(1, [0], [])
  {
    assert Run([Open]) == Some(Init().(watch := Some(0))) by { assert [Open][..0] == []; }
    steps := [Open, Commit(1, 2)];
    assert steps[..1] == [Open];
    assert Apply(Init().(watch := Some(0)), Commit(1, 2)).log == [1, 1];
    assert Run(steps) == Some(System([1, 1], 1, Some(0), Projector(0, [], [])));
    steps := [Open, Commit(1, 2), Deliver];
    assert steps[..2] == [Open, Commit(1, 2)];
    assert Forward(Projector(0, [], []), Received(0, 1)).forwarded == [0];
    assert Run(steps) == Some(System([1, 1], 1, Some(1), Projector(1, [0], [])));
    steps := [Open, Commit(1, 2), Deliver, Close];
    assert steps[..3] == [Open, Commit(1, 2), Deliver];
  }

  lemma {:induction false} ForwardAllAppend(p: Projector, events: seq<Received>, event: Received)
    ensures ForwardAll(p, events + [event]) == Forward(ForwardAll(p, events), event)
  {
    assert (events + [event])[..|events|] == events;
  }

  lemma {:induction false} AfterSessionsAppend(p: Projector, sessions: seq<Session>, session: Session)
    ensures AfterSessions(p, sessions + [session]) == AfterSession(AfterSessions(p, sessions), session)
  {
    assert (sessions + [session])[..|sessions|] == sessions;
  }

  // --- The loop and the run ---------------------------------------------------------------

  /** What a run shows the loop: the sessions that have ended, and the events received from
      the watch that is open. */
  datatype Shown = Shown(ended: seq<Session>, open: seq<Received>)

  function ShownIn(steps: seq<Step>): Shown
    requires Run(steps).Some?
    decreases |steps|
  {
    if steps == [] then Shown([], [])
    else
      var shorter, step := steps[..|steps| - 1], steps[|steps| - 1];
      var s, shown := Run(shorter).value, ShownIn(shorter);
      match step
      case Commit(_, _) => shown
      case Open => Shown(shown.ended, [])
      case OpenFails => Shown(shown.ended + [WatchFailed], [])
      case Deliver => Shown(shown.ended, shown.open + [Received(s.watch.value, s.log[s.watch.value])])
      case _ => Shown(shown.ended + [Watched(shown.open, EndingOf(s, step))], [])
  }

  /** What the loop computes is what the run does: the projector of every run is the
      loop's result on exactly the sessions the run shows it, plus the events of the open
      watch. */
  lemma {:induction false} LoopRefinesRun(steps: seq<Step>)
    requires Run(steps).Some?
    ensures var shown := ShownIn(steps);
            && Run(steps).value.projector == ForwardAll(AfterSessions(Projector(0, [], []), shown.ended), shown.open)
            && (Run(steps).value.watch.None? ==> shown.open == [])
    decreases |steps|
  {
    if steps != [] {
      var shorter, step := steps[..|steps| - 1], steps[|steps| - 1];
      LoopRefinesRun(shorter);
      var s, shown, initial := Run(shorter).value, ShownIn(shorter), Projector(0, [], []);
      match step
      case OpenFails => AfterSessionsAppend(initial, shown.ended, WatchFailed);
      case Deliver =>
        ForwardAllAppend(AfterSessions(initial, shown.ended), shown.open, Received(s.watch.value, s.log[s.watch.value]));
      case Close => AfterSessionsAppend(initial, shown.ended, Watched(shown.open, EndingOf(s, step)));
      case Resync(_, _) => AfterSessionsAppend(initial, shown.ended, Watched(shown.open, EndingOf(s, step)));
      case _ =>
    }
  }

  lemma {:induction false} PrefixRuns(steps: seq<Step>, k: nat)
    requires Run(steps).Some? && k <= |steps|
    ensures Run(steps[..k]).Some? && ShownIn(steps[..k]).ended <= ShownIn(steps).ended
    decreases |steps|
  {
    if k < |steps| {
      var shorter := steps[..|steps| - 1];
      PrefixRuns(shorter, k);
      assert shorter[..k] == steps[..k];
    } else {
      assert steps[..k] == steps;
    }
  }

  /** Every watch of a run starts where the loop asks for it: at the start revision that the
      loop computes for the session it becomes. */
  lemma {:induction false} WatchesStartWhereAsked(steps: seq<Step>, k: nat)
    requires Run(steps).Some? && k < |steps| && steps[k].Open?
    ensures Run(steps[..k]).Some? && Run(steps[..k + 1]).Some?
    ensures var i := |ShownIn(steps[..k]).ended|;
            && i <= |ShownIn(steps).ended|
            && Run(steps[..k + 1]).value.watch ==
               Some(PositionFrom(Run(steps[..k]).value.log, StartOf(ShownIn(steps).ended, i)))
  {
    PrefixRuns(steps, k);
    PrefixRuns(steps, k + 1);
    assert steps[..k + 1][..k] == steps[..k];
    LoopRefinesRun(steps[..k]);
    var i := |ShownIn(steps[..k]).ended|;
    assert ShownIn(steps).ended[..i] == ShownIn(steps[..k]).ended;
  }
}
