/** The delta buffer (controllers/delta_buffer.go): watch events of one key coalesced between
    drains, so that the drained events amount to the whole log since the previous drain. */
module DeltaBuffering {
  import opened Options

  datatype Fact = Fact(value: string, revision: nat)

  datatype Kind = Put | Delete

  /** A change of one key: the fact it carries and the fact it replaced. */
  datatype Event = Event(kind: Kind, key: string, fact: Fact, prev: Option<Fact>)

  type Store = map<string, Fact>

  function After(e: Event): Option<Fact> {
    if e.kind.Put? then Some(e.fact) else None
  }

  function Replayed(store: Store, e: Event): Store {
    if e.kind.Put? then store[e.key := e.fact] else store - {e.key}
  }

  function Replay(store: Store, events: seq<Event>): Store
    decreases |events|
  {
    if events == [] then store else Replayed(Replay(store, events[..|events| - 1]), events[|events| - 1])
  }

  /** Every event names the fact that its key held just before. */
  predicate Consistent(store: Store, events: seq<Event>)
    decreases |events|
  {
    events != [] ==>
      && Consistent(store, events[..|events| - 1])
      && events[|events| - 1].prev == Lookup(Replay(store, events[..|events| - 1]), events[|events| - 1].key)
  }

  /** Whether some event of the log is about the key, and then the last one. */
  function LastOf(events: seq<Event>, key: string): Option<Event>
    decreases |events|
  {
    if events == [] then None
    else if events[|events| - 1].key == key then Some(events[|events| - 1])
    else LastOf(events[..|events| - 1], key)
  }

  /** After a replay a key holds the fact of its last event if that was a put, nothing if it
      was a delete, and what it held before if there was none. */
  lemma {:induction false} LastEventDecides(store: Store, events: seq<Event>, key: string)
    ensures var last, after := LastOf(events, key), Replay(store, events);
            && (last.None? ==> Lookup(after, key) == Lookup(store, key))
            && (last.Some? && last.value.kind == Put ==> key in after && after[key] == last.value.fact)
            && (last.Some? && last.value.kind == Delete ==> key !in after)
    decreases |events|
  {
    if events != [] { LastEventDecides(store, events[..|events| - 1], key); }
  }

  // --- The buffer ---------------------------------------------------------------------------------

  function Coalesced(buffer: map<string, Event>, e: Event): map<string, Event> {
    buffer[e.key := if e.key in buffer then e.(prev := buffer[e.key].prev) else e]
  }

  /** The events are the buffered ones, each once, in any order. */
  ghost predicate Lists(events: seq<Event>, buffer: map<string, Event>) {
    && (forall i | 0 <= i < |events| :: events[i].key in buffer && buffer[events[i].key] == events[i])
    && (forall k | k in buffer :: k in Keys(events))
    && (forall i, j | 0 <= i < j < |events| :: events[i].key != events[j].key)
  }

  ghost function Keys(events: seq<Event>): set<string> {
    set i | 0 <= i < |events| :: events[i].key
  }

  class DeltaBuffer {
    var coalescedEvents: map<string, Event>
    var overflowDetected: bool

    ghost predicate Valid()
      reads this
    {
      forall k | k in coalescedEvents :: coalescedEvents[k].key == k
    }

    constructor ()
      ensures Valid() && coalescedEvents == map[] && !overflowDetected
    {
      coalescedEvents, overflowDetected := map[], false;
    }

    method AppendEvent(event: Event)
      requires Valid()
      modifies this`coalescedEvents
      ensures Valid() && coalescedEvents == Coalesced(old(coalescedEvents), event)
    {
      var tracked := event;
      if event.key in coalescedEvents {
        tracked := event.(prev := coalescedEvents[event.key].prev);
      }
      coalescedEvents := coalescedEvents[event.key := tracked];
    }

    method MarkOverflow()
      requires Valid()
      modifies this`overflowDetected
      ensures Valid() && overflowDetected
    {
      overflowDetected := true;
    }

    method Drain() returns (drained: Option<seq<Event>>)
      requires Valid()
      modifies this
      ensures Valid() && coalescedEvents == map[] && !overflowDetected
      ensures drained.None? <==> old(overflowDetected)
      ensures drained.Some? ==> Lists(drained.value, old(coalescedEvents))
    {
      if overflowDetected {
        overflowDetected, coalescedEvents := false, map[];
        return None;
      }
      var events: seq<Event>, left := [], coalescedEvents.Keys;
      while left != {}
        invariant left <= coalescedEvents.Keys && Valid()
        invariant forall i | 0 <= i < |events| ::
            events[i].key in coalescedEvents.Keys - left && coalescedEvents[events[i].key] == events[i]
        invariant forall k | k in coalescedEvents.Keys - left :: k in Keys(events)
        invariant forall i, j | 0 <= i < j < |events| :: events[i].key != events[j].key
        decreases left
      {
        var key :| key in left;
        ghost var before := events;
        events, left := events + [coalescedEvents[key]], left - {key};
        assert Keys(before) <= Keys(events) by {
          forall i | 0 <= i < |before| ensures before[i].key in Keys(events) { assert events[i] == before[i]; }
        }
        assert events[|before|].key == key;
      }
      coalescedEvents := map[];
      return Some(events);
    }
  }

  // --- What a buffer stands for -------------------------------------------------------------------

  /** The buffer records how `current` differs from `base`, key by key. */
  ghost predicate Represents(base: Store, buffer: map<string, Event>, current: Store) {
    forall k :: Tracks(base, buffer, current, k)
  }

  ghost predicate Tracks(base: Store, buffer: map<string, Event>, current: Store, k: string) {
    if k in buffer
    then buffer[k].key == k && buffer[k].prev == Lookup(base, k) && After(buffer[k]) == Lookup(current, k)
    else Lookup(base, k) == Lookup(current, k)
  }

  lemma {:induction false} CoalescedTracks(base: Store, buffer: map<string, Event>, current: Store, e: Event, k: string)
    requires Tracks(base, buffer, current, k) && e.prev == Lookup(current, e.key)
    ensures Tracks(base, Coalesced(buffer, e), Replayed(current, e), k)
  {
  }

  lemma {:induction false} CoalescedRepresents(base: Store, buffer: map<string, Event>, current: Store, e: Event)
    requires Represents(base, buffer, current) && e.prev == Lookup(current, e.key)
    ensures Represents(base, Coalesced(buffer, e), Replayed(current, e))
  {
    forall k ensures Tracks(base, Coalesced(buffer, e), Replayed(current, e), k) {
      assert Tracks(base, buffer, current, k);
      CoalescedTracks(base, buffer, current, e, k);
    }
  }

  /** Replaying events of different keys leaves each key as its own event says. */
  lemma {:induction false} ReplayAt(store: Store, events: seq<Event>, k: string)
    requires forall i, j | 0 <= i < j < |events| :: events[i].key != events[j].key
    ensures k !in Keys(events) ==> Lookup(Replay(store, events), k) == Lookup(store, k)
    ensures forall i | 0 <= i < |events| && events[i].key == k :: Lookup(Replay(store, events), k) == After(events[i])
    decreases |events|
  {
    if events != [] {
      var front, last := events[..|events| - 1], events[|events| - 1];
      ReplayAt(store, front, k);
      assert forall i | 0 <= i < |front| :: front[i] == events[i];
      assert k !in Keys(events) ==> k !in Keys(front) && last.key != k;
      if last.key == k {
        forall i | 0 <= i < |events| && events[i].key == k ensures i == |events| - 1 { }
      }
    }
  }

  /** Where the buffer tracks a key, replaying the drained events on the earlier store gives
      its current value. */
  lemma {:induction false} DrainedReplaysAt(base: Store, buffer: map<string, Event>, current: Store, events: seq<Event>, k: string)
    requires Tracks(base, buffer, current, k) && Lists(events, buffer)
    ensures Lookup(Replay(base, events), k) == Lookup(current, k)
    ensures forall i | 0 <= i < |events| && events[i].key == k :: events[i].prev == Lookup(base, k)
  {
    ReplayAt(base, events, k);
    if k in buffer {
      var i :| 0 <= i < |events| && events[i].key == k;
    }
  }

  /** Replaying the drained events, in whatever order they come, turns the state at the
      previous drain into the current one, and each drained event names the earlier fact. */
  lemma {:induction false} DrainedReplays(base: Store, buffer: map<string, Event>, current: Store, events: seq<Event>)
    requires Represents(base, buffer, current) && Lists(events, buffer)
    ensures Replay(base, events) == current
    ensures forall i | 0 <= i < |events| :: events[i].prev == Lookup(base, events[i].key)
  {
    forall k
      ensures Lookup(Replay(base, events), k) == Lookup(current, k)
      ensures forall i | 0 <= i < |events| && events[i].key == k :: events[i].prev == Lookup(base, k)
    {
      assert Tracks(base, buffer, current, k);
      DrainedReplaysAt(base, buffer, current, events, k);
    }
    SameMap(Replay(base, events), current);
  }

  /** The buffer after a whole log. */
  function CoalescedAll(events: seq<Event>): map<string, Event>
    decreases |events|
  {
    if events == [] then map[] else Coalesced(CoalescedAll(events[..|events| - 1]), events[|events| - 1])
  }

  /** Coalescing loses nothing: what is drained after any consistent log replays to the same
      state as the log itself. */
  lemma {:induction false} CoalescingEqualsLog(base: Store, log: seq<Event>, drained: seq<Event>)
    requires Consistent(base, log) && Lists(drained, CoalescedAll(log))
    ensures Replay(base, drained) == Replay(base, log)
    ensures forall i | 0 <= i < |drained| :: drained[i].prev == Lookup(base, drained[i].key)
  {
    LogRepresented(base, log);
    DrainedReplays(base, CoalescedAll(log), Replay(base, log), drained);
  }

  lemma {:induction false} LogRepresented(base: Store, log: seq<Event>)
    requires Consistent(base, log)
    ensures Represents(base, CoalescedAll(log), Replay(base, log))
    decreases |log|
  {
    if log != [] {
      var front := log[..|log| - 1];
      LogRepresented(base, front);
      CoalescedRepresents(base, CoalescedAll(front), Replay(base, front), log[|log| - 1]);
    }
  }

  // --- Runs ---------------------------------------------------------------------------------------

  /** The buffer beside the store it follows, up to the last event that the watch delivered or
      dropped: the store at the previous drain and now, the keys of the events dropped since
      that drain, a copy that a consumer keeps by replaying drains and by reading the store
      after a nil one, and the keys whose latest event since a nil drain was dropped. */
  datatype State = State(
    base: Store,
    current: Store,
    buffer: map<string, Event>,
    overflow: bool,
    missed: set<string>,
    copy: Store,
    stale: set<string>)

  datatype Step =
    | Deliver(event: Event)
    | Miss(event: Event)
    | Mark
    | Drain(drained: Option<seq<Event>>)

  /** The watch drops events at any time and reports an overflow at any time, or never. */
  ghost predicate Enabled(s: State, step: Step) {
    match step
    case Deliver(e) => e.prev == Lookup(s.current, e.key)
    case Miss(e) => e.prev == Lookup(s.current, e.key)
    case Mark => true
    case Drain(drained) =>
      (drained.None? <==> s.overflow) && (drained.Some? ==> Lists(drained.value, s.buffer))
  }

  function Apply(s: State, step: Step): State {
    match step
    case Deliver(e) =>
      s.(current := Replayed(s.current, e), buffer := Coalesced(s.buffer, e), stale := s.stale - {e.key})
    case Miss(e) =>
      s.(current := Replayed(s.current, e), missed := s.missed + {e.key}, stale := s.stale + {e.key})
    case Mark => s.(overflow := true)
    case Drain(None) => Fresh(s.current)
    case Drain(Some(events)) => Fresh(s.current).(copy := Replay(s.copy, events), stale := s.stale)
  }

  /** Nothing buffered, nothing missed, the copy up to date. */
  function Fresh(store: Store): State {
    State(store, store, map[], false, {}, store, {})
  }

  ghost predicate IsRun(run: seq<State>, steps: seq<Step>) {
    && |run| == |steps| + 1
    && run[0] == Fresh(run[0].base)
    && forall k | 0 <= k < |steps| :: Enabled(run[k], steps[k]) && run[k + 1] == Apply(run[k], steps[k])
  }

  /** The copy, once the buffered events are replayed on it, has the current value of the key. */
  ghost predicate Follows(s: State, k: string) {
    if k in s.buffer then After(s.buffer[k]) == Lookup(s.current, k) else Lookup(s.copy, k) == Lookup(s.current, k)
  }

  ghost predicate InvAt(s: State, k: string) {
    && (k !in s.missed ==> Tracks(s.base, s.buffer, s.current, k))
    && (k !in s.stale ==> Follows(s, k))
  }

  ghost predicate Inv(s: State) {
    forall k :: InvAt(s, k)
  }

  lemma {:induction false} StepKeepsAt(s: State, step: Step, k: string)
    requires InvAt(s, k) && Enabled(s, step)
    ensures InvAt(Apply(s, step), k)
  {
    match step
    case Deliver(e) =>
      if k !in s.missed { CoalescedTracks(s.base, s.buffer, s.current, e, k); }
    case Drain(Some(events)) =>
      ReplayAt(s.copy, events, k);
      if k in s.buffer {
        var i :| 0 <= i < |events| && events[i].key == k;
      }
    case _ =>
  }

  /** An overflow was reported after the last drain of the steps. */
  predicate MarkedSinceDrain(steps: seq<Step>)
    decreases |steps|
  {
    steps != [] &&
      var last := steps[|steps| - 1];
      last.Mark? || (!last.Drain? && MarkedSinceDrain(steps[..|steps| - 1]))
  }

  /** An event of the key was dropped after the last drain of the steps. */
  predicate DroppedSinceDrain(steps: seq<Step>, key: string)
    decreases |steps|
  {
    steps != [] &&
      var last := steps[|steps| - 1];
      (last.Miss? && last.event.key == key) || (!last.Drain? && DroppedSinceDrain(steps[..|steps| - 1], key))
  }

  /** The latest event of the key after the last nil drain of the steps was dropped. */
  predicate LatestDropped(steps: seq<Step>, key: string)
    decreases |steps|
  {
    steps != [] &&
      var last := steps[|steps| - 1];
      if last.Miss? && last.event.key == key then true
      else if (last.Deliver? && last.event.key == key) || last == Drain(None) then false
      else LatestDropped(steps[..|steps| - 1], key)
  }

  lemma {:induction false} RunKeeps(run: seq<State>, steps: seq<Step>, k: nat)
    requires IsRun(run, steps) && k < |run|
    ensures Inv(run[k]) && run[k].overflow == MarkedSinceDrain(steps[..k])
    ensures forall key :: key in run[k].missed <==> DroppedSinceDrain(steps[..k], key)
    ensures forall key :: key in run[k].stale <==> LatestDropped(steps[..k], key)
    decreases k
  {
    if k > 0 {
      assert steps[..k][..k - 1] == steps[..k - 1];
      RunKeeps(run, steps, k - 1);
      assert run[k - 1 + 1] == Apply(run[k - 1], steps[k - 1]);
      forall key ensures InvAt(run[k], key) {
        assert InvAt(run[k - 1], key);
        StepKeepsAt(run[k - 1], steps[k - 1], key);
      }
    }
  }

  /** In every run, whatever the watch drops and whenever it says so: a drain returns nil
      exactly when an overflow was marked since the one before. Otherwise its events replay
      every key of which no event was dropped since then to its current value, and name the
      fact it held then; if none was dropped at all, they replay the whole store. */
  lemma {:induction false} DrainsAreComplete(run: seq<State>, steps: seq<Step>, k: nat)
    requires IsRun(run, steps) && k < |steps| && steps[k].Drain?
    ensures steps[k].drained.None? <==> MarkedSinceDrain(steps[..k])
    ensures steps[k].drained.Some? ==>
        var s, events := run[k], steps[k].drained.value;
        && (forall key | !DroppedSinceDrain(steps[..k], key) :: Lookup(Replay(s.base, events), key) == Lookup(s.current, key))
        && (forall e | e in events && !DroppedSinceDrain(steps[..k], e.key) :: e.prev == Lookup(s.base, e.key))
        && ((forall key :: !DroppedSinceDrain(steps[..k], key)) ==> Replay(s.base, events) == s.current)
  {
    RunKeeps(run, steps, k);
    assert Enabled(run[k], steps[k]);
    if steps[k].drained.Some? {
      var s, events := run[k], steps[k].drained.value;
      forall key | key !in s.missed
        ensures Lookup(Replay(s.base, events), key) == Lookup(s.current, key)
        ensures forall i | 0 <= i < |events| && events[i].key == key :: events[i].prev == Lookup(s.base, key)
      {
        assert InvAt(s, key);
        DrainedReplaysAt(s.base, s.buffer, s.current, events, key);
      }
      if forall key :: !DroppedSinceDrain(steps[..k], key) { SameMap(Replay(s.base, events), s.current); }
    }
  }

  /** A consumer that replays the drains, and reads the store after a nil one, is right after
      every drain about every key except those whose latest event since the last nil drain was
      dropped; a later event of such a key, or a nil drain, puts it right again. */
  lemma {:induction false} CopyFollows(run: seq<State>, steps: seq<Step>, k: nat, key: string)
    requires IsRun(run, steps) && k < |steps| && steps[k].Drain? && !LatestDropped(steps[..k + 1], key)
    ensures Lookup(run[k + 1].copy, key) == Lookup(run[k + 1].current, key)
  {
    RunKeeps(run, steps, k + 1);
    assert run[k + 1] == Apply(run[k], steps[k]);
    assert InvAt(run[k + 1], key);
  }

  /** A loss before the drain, its overflow not yet marked: the drain is not nil and does not
      show the change. Marked in time, the same loss makes the drain nil. */
  lemma {:induction false} LossBeforeMark(key: string, fact: Fact)
    ensures var e := Event(Put, key, fact, None);
            var lost := Apply(Fresh(map[]), Miss(e));
            && Enabled(Fresh(map[]), Miss(e)) && Enabled(lost, Drain(Some([])))
            && Apply(lost, Drain(Some([]))).copy == map[] && lost.current == map[key := fact]
            && !Enabled(Apply(lost, Mark), Drain(Some([]))) && Enabled(Apply(lost, Mark), Drain(None))
  {
  }
}
