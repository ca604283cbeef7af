/** The watch multiplexer (api/watch_multiplexer.go): one store watch per shared
    watcher, fanned out to subscribers, stopped when the last one leaves.

    The code runs in many goroutines under two lock levels, so it is modelled as a
    state machine whose steps are the regions the code executes atomically. A run
    is any list of enabled steps from the empty multiplexer. */
module WatchMultiplexing {
  import opened Options

  datatype Event = Event(key: string, revision: int)

  const SUBSCRIBER_BUFFER := 64

  /** sharedPrefixWatcher. `log` is what its fan-out goroutine has taken off the
      store channel so far; `fanOut` holds the subscriber ids still to be offered
      the current event while the read lock is held. */
  datatype Watcher = Watcher(
    prefix: string,
    subscribers: map<nat, nat>,
    nextId: nat,
    cancelled: bool,
    log: seq<Event>,
    fanOut: Option<set<nat>>)

  /** A subscriber channel. It joined when its watcher's log had `joined` events and
      has been offered the events up to `offered`; of those sent, `buffered` are waiting in
      it and `received` have been taken out. */
  datatype Channel = Channel(
    joined: nat,
    offered: nat,
    sent: seq<Event>,
    buffered: nat,
    received: nat,
    dropped: nat,
    closed: bool)

  /** Where the goroutine started by one Subscribe call has got to. */
  datatype Phase = Live | Cancelled | Removed | Closed | Stopping | Stopped | Done

  datatype Subscription = Subscription(watcher: nat, id: nat, prefix: string, phase: Phase)

  /** Who holds the multiplexer mutex. */
  datatype Holder = Nobody | Subscriber(watcher: nat) | Cleanup(k: nat)

  /** Subscription k owns channel k. `panicked` is set where Go would panic: a send on,
      or a close of, a closed channel. */
  datatype State = State(
    shared: map<string, nat>,
    watchers: seq<Watcher>,
    subscriptions: seq<Subscription>,
    channels: seq<Channel>,
    mutex: Holder,
    panicked: bool)

  datatype Step =
    | BeginSubscribe(prefix: string, watchOk: bool)
    | FinishSubscribe
    | Cancel(k: nat)
    | RemoveSubscriber(k: nat)
    | CloseChannel(k: nat)
    | LockAndCheck(k: nat)
    | StopWatch(k: nat)
    | DeleteEntry(k: nat)
    | FanOutBegin(w: nat, event: Event)
    | FanOutSend(w: nat, id: nat)
    | FanOutEnd(w: nat)
    | Consume(k: nat)

  function Init(): State {
    State(map[], [], [], [], Nobody, false)
  }

  predicate InPhase(s: State, k: nat, phase: Phase) {
    k < |s.subscriptions| && k < |s.channels| && s.subscriptions[k].phase == phase
    && s.subscriptions[k].watcher < |s.watchers|
  }

  /** A step is enabled when its goroutine is at that point and the locks it takes
      are free: fan-out holds the watcher's lock for reading, adding and removing
      subscribers take it for writing. */
  predicate Enabled(s: State, step: Step) {
    match step
    case BeginSubscribe(_, _) => s.mutex.Nobody?
    case FinishSubscribe =>
      s.mutex.Subscriber? && s.mutex.watcher < |s.watchers| && s.watchers[s.mutex.watcher].fanOut.None?
    case Cancel(k) => InPhase(s, k, Live)
    case RemoveSubscriber(k) =>
      InPhase(s, k, Cancelled) && s.watchers[s.subscriptions[k].watcher].fanOut.None?
    case CloseChannel(k) => InPhase(s, k, Removed)
    case LockAndCheck(k) => InPhase(s, k, Closed) && s.mutex.Nobody?
    case StopWatch(k) => InPhase(s, k, Stopping)
    case DeleteEntry(k) => InPhase(s, k, Stopped)
    case FanOutBegin(w, _) => w < |s.watchers| && s.watchers[w].fanOut.None?
    case FanOutSend(w, id) =>
      w < |s.watchers| && s.watchers[w].fanOut.Some? && id in s.watchers[w].fanOut.value
      && id in s.watchers[w].subscribers && s.watchers[w].subscribers[id] < |s.channels|
      && s.watchers[w].log != []
    case FanOutEnd(w) => w < |s.watchers| && s.watchers[w].fanOut == Some({})
    case Consume(k) => k < |s.channels| && s.channels[k].buffered > 0
  }

  function WithPhase(s: State, k: nat, phase: Phase): State
    requires k < |s.subscriptions|
  {
    s.(subscriptions := s.subscriptions[k := s.subscriptions[k].(phase := phase)])
  }

  function NewWatcher(prefix: string): Watcher {
    Watcher(prefix, map[], 0, false, [], None)
  }

  /** A send in a select with a default case: into the buffer if it has room,
      otherwise the event is dropped for this subscriber. */
  function Offer(c: Channel, event: Event): Channel {
    if c.buffered < SUBSCRIBER_BUFFER then
      c.(offered := c.offered + 1, sent := c.sent + [event], buffered := c.buffered + 1)
    else
      c.(offered := c.offered + 1, dropped := c.dropped + 1)
  }

  function Apply(s: State, step: Step): State
    requires Enabled(s, step)
  {
    match step
    case BeginSubscribe(prefix, watchOk) =>
      if prefix in s.shared then
        s.(mutex := Subscriber(s.shared[prefix]))
      else if watchOk then
        s.(watchers := s.watchers + [NewWatcher(prefix)],
           shared := s.shared[prefix := |s.watchers|],
           mutex := Subscriber(|s.watchers|))
      else
        s
    case FinishSubscribe =>
      var w := s.mutex.watcher;
      var watcher := s.watchers[w];
      var id := watcher.nextId + 1;
      s.(watchers := s.watchers[w := watcher.(nextId := id, subscribers := watcher.subscribers[id := |s.subscriptions|])],
         subscriptions := s.subscriptions + [Subscription(w, id, watcher.prefix, Live)],
         channels := s.channels + [Channel(|watcher.log|, |watcher.log|, [], 0, 0, 0, false)],
         mutex := Nobody)
    case Cancel(k) => WithPhase(s, k, Cancelled)
    case RemoveSubscriber(k) =>
      var w := s.subscriptions[k].watcher;
      WithPhase(s, k, Removed).(
      watchers := s.watchers[w := s.watchers[w].(subscribers := s.watchers[w].subscribers - {s.subscriptions[k].id})])
    case CloseChannel(k) =>
      WithPhase(s, k, Closed).(
      channels := s.channels[k := s.channels[k].(closed := true)],
      panicked := s.panicked || s.channels[k].closed)
    case LockAndCheck(k) =>
      if |s.watchers[s.subscriptions[k].watcher].subscribers| == 0 then
        WithPhase(s, k, Stopping).(mutex := Cleanup(k))
      else
        WithPhase(s, k, Done)
    case StopWatch(k) =>
      var w := s.subscriptions[k].watcher;
      WithPhase(s, k, Stopped).(watchers := s.watchers[w := s.watchers[w].(cancelled := true)])
    case DeleteEntry(k) =>
      WithPhase(s, k, Done).(shared := s.shared - {s.subscriptions[k].prefix}, mutex := Nobody)
    case FanOutBegin(w, event) =>
      var watcher := s.watchers[w];
      s.(watchers := s.watchers[w := watcher.(log := watcher.log + [event], fanOut := Some(watcher.subscribers.Keys))])
    case FanOutSend(w, id) =>
      var watcher := s.watchers[w];
      var k := watcher.subscribers[id];
      var t := s.(watchers := s.watchers[w := watcher.(fanOut := Some(watcher.fanOut.value - {id}))]);
      if s.channels[k].closed then
        t.(panicked := true)
      else
        t.(channels := s.channels[k := Offer(s.channels[k], watcher.log[|watcher.log| - 1])])
    case FanOutEnd(w) =>
      s.(watchers := s.watchers[w := s.watchers[w].(fanOut := None)])
    case Consume(k) =>
      s.(channels := s.channels[k := s.channels[k].(buffered := s.channels[k].buffered - 1, received := s.channels[k].received + 1)])
  }

  /** The state after a run, or None when some step of it is not enabled. */
  function Run(s: State, steps: seq<Step>): Option<State>
    decreases |steps|
  {
    if steps == [] then Some(s)
    else if Enabled(s, steps[0]) then Run(Apply(s, steps[0]), steps[1..])
    else None
  }

  // --- The invariant --------------------------------------------------------

  predicate Registered(phase: Phase) {
    phase.Live? || phase.Cancelled?
  }

  predicate HoldsMutex(phase: Phase) {
    phase.Stopping? || phase.Stopped?
  }

  /** The cleanup of subscription k has yet to look at its watcher's subscriber count,
      or has seen it at zero and not yet stopped the watch. */
  predicate WillCheck(s: State, k: nat, w: nat) {
    k < |s.subscriptions| && s.subscriptions[k].watcher == w
    && (var phase := s.subscriptions[k].phase; phase.Removed? || phase.Closed? || phase.Stopping?)
  }

  predicate BeingOffered(watcher: Watcher, id: nat) {
    watcher.fanOut.Some? && id in watcher.fanOut.value
  }

  /** Channel c has been offered every event of its watcher since it joined, short of
      the one being fanned out, and holds them all unless its buffer filled up. */
  predicate Delivered(c: Channel, sub: Subscription, watcher: Watcher) {
    && c.joined <= c.offered <= |watcher.log|
    && |c.sent| + c.dropped == c.offered - c.joined
    && c.buffered + c.received == |c.sent| && c.buffered <= 64
    && (c.dropped == 0 ==> c.sent == watcher.log[c.joined..c.offered])
    && (Registered(sub.phase) ==> c.offered == |watcher.log| - if BeingOffered(watcher, sub.id) then 1 else 0)
  }

  /** Subscription k, its channel, its watcher and the mutex agree. */
  predicate SubscriptionOk(s: State, k: nat) {
    k < |s.subscriptions| && k < |s.channels| && s.subscriptions[k].watcher < |s.watchers|
    && var sub, watcher := s.subscriptions[k], s.watchers[s.subscriptions[k].watcher];
    && watcher.prefix == sub.prefix
    && sub.id <= watcher.nextId
    && (s.channels[k].closed <==> !Registered(sub.phase) && !sub.phase.Removed?)
    && (Registered(sub.phase) ==> sub.id in watcher.subscribers && watcher.subscribers[sub.id] == k)
    && (HoldsMutex(sub.phase) <==> s.mutex == Cleanup(k))
    && (sub.phase.Stopping? ==> watcher.subscribers == map[])
    && (sub.phase.Stopped? ==> watcher.cancelled)
    && Delivered(s.channels[k], sub, watcher)
  }

  /** A subscriber entry belongs to a registered subscription. */
  predicate EntryOk(s: State, w: nat, id: nat, k: nat) {
    && k < |s.subscriptions|
    && s.subscriptions[k].watcher == w && s.subscriptions[k].id == id
    && Registered(s.subscriptions[k].phase)
  }

  /** An open watch has a reason to be open: a subscriber, a Subscribe call about to add
      one, or a cleanup that will stop it if nobody is left. */
  ghost predicate Accounted(s: State, w: nat)
    requires w < |s.watchers|
  {
    || s.watchers[w].cancelled
    || s.watchers[w].subscribers != map[]
    || s.mutex == Subscriber(w)
    || exists k :: WillCheck(s, k, w)
  }

  /** Watcher w offers events to current subscribers only, and serves nobody once
      cancelled. */
  ghost predicate WatcherOk(s: State, w: nat)
    requires w < |s.watchers|
  {
    var watcher := s.watchers[w];
    && (forall id | id in watcher.subscribers :: EntryOk(s, w, id, watcher.subscribers[id]))
    && (watcher.fanOut.Some? ==> watcher.fanOut.value <= watcher.subscribers.Keys && watcher.log != [])
    && (watcher.cancelled ==> watcher.subscribers == map[])
  }

  /** A map entry names a watcher of its prefix. That watcher is open, unless the
      goroutine holding the mutex has just stopped it and is about to delete the entry. */
  predicate SharedOk(s: State, p: string)
    requires p in s.shared
  {
    && s.shared[p] < |s.watchers|
    && s.watchers[s.shared[p]].prefix == p
    && (s.watchers[s.shared[p]].cancelled ==>
          && s.mutex.Cleanup? && s.mutex.k < |s.subscriptions|
          && s.subscriptions[s.mutex.k].phase.Stopped?
          && s.subscriptions[s.mutex.k].watcher == s.shared[p])
  }

  predicate MutexOk(s: State) {
    match s.mutex
    case Nobody => true
    case Cleanup(k) => k < |s.subscriptions|
    case Subscriber(w) =>
      w < |s.watchers| && !s.watchers[w].cancelled && Lookup(s.shared, s.watchers[w].prefix) == Some(w)
  }

  /** The inductive invariant. */
  ghost predicate Inv(s: State) {
    && |s.channels| == |s.subscriptions|
    && !s.panicked
    && MutexOk(s)
    && (forall k | 0 <= k < |s.subscriptions| :: SubscriptionOk(s, k))
    && (forall w | 0 <= w < |s.watchers| :: WatcherOk(s, w))
    && (forall w | 0 <= w < |s.watchers| :: Accounted(s, w))
    && (forall p | p in s.shared :: SharedOk(s, p))
  }

  // --- Every step keeps the invariant ----------------------------------------

  /** A reason for watch w to be open carries over, unless it was the cleanup that
      the step took past its check. */
  lemma {:induction false} StillAccounted(s: State, t: State, w: nat)
    requires w < |s.watchers| && w < |t.watchers| && Accounted(s, w)
    requires s.watchers[w].cancelled ==> t.watchers[w].cancelled
    requires s.watchers[w].subscribers != map[] ==> Accounted(t, w)
    requires s.mutex == Subscriber(w) ==> Accounted(t, w)
    requires forall k | WillCheck(s, k, w) :: WillCheck(t, k, w) || Accounted(t, w)
    ensures Accounted(t, w)
  {
  }

  lemma {:induction false} CancelOrCloseKeeps(s: State, step: Step)
    requires Inv(s) && Enabled(s, step)
    requires step.Cancel? || step.CloseChannel?
    ensures Inv(Apply(s, step))
  {
    var t := Apply(s, step);
    assert SubscriptionOk(s, step.k);
    forall k | 0 <= k < |t.subscriptions| ensures SubscriptionOk(t, k) { assert SubscriptionOk(s, k); }
    forall w | 0 <= w < |t.watchers| ensures WatcherOk(t, w) && Accounted(t, w) {
      assert WatcherOk(s, w);
      StillAccounted(s, t, w);
    }
    forall p | p in t.shared ensures SharedOk(t, p) { assert SharedOk(s, p); }
  }

  lemma {:induction false} RemoveSubscriberKeeps(s: State, step: Step)
    requires Inv(s) && Enabled(s, step)
    requires step.RemoveSubscriber?
    ensures Inv(Apply(s, step))
  {
    var t := Apply(s, step);
    assert SubscriptionOk(s, step.k);
    forall k | 0 <= k < |t.subscriptions| ensures SubscriptionOk(t, k) { assert SubscriptionOk(s, k); }
    assert WillCheck(t, step.k, s.subscriptions[step.k].watcher);
    forall w | 0 <= w < |t.watchers| ensures WatcherOk(t, w) && Accounted(t, w) {
      assert WatcherOk(s, w);
      StillAccounted(s, t, w);
    }
    forall p | p in t.shared ensures SharedOk(t, p) { assert SharedOk(s, p); }
  }

  lemma {:induction false} LockAndCheckKeeps(s: State, step: Step)
    requires Inv(s) && Enabled(s, step)
    requires step.LockAndCheck?
    ensures Inv(Apply(s, step))
  {
    var t := Apply(s, step);
    assert SubscriptionOk(s, step.k);
    forall k | 0 <= k < |t.subscriptions| ensures SubscriptionOk(t, k) { assert SubscriptionOk(s, k); }
    forall w | 0 <= w < |t.watchers| ensures WatcherOk(t, w) && Accounted(t, w) {
      assert WatcherOk(s, w);
      if w == s.subscriptions[step.k].watcher {
        assert t.watchers[w].subscribers == map[] ==> WillCheck(t, step.k, w);
      } else {
        StillAccounted(s, t, w);
      }
    }
    forall p | p in t.shared ensures SharedOk(t, p) { assert SharedOk(s, p); }
  }

  lemma {:induction false} StopOrDeleteKeeps(s: State, step: Step)
    requires Inv(s) && Enabled(s, step)
    requires step.StopWatch? || step.DeleteEntry?
    ensures Inv(Apply(s, step))
  {
    var t := Apply(s, step);
    assert SubscriptionOk(s, step.k);
    forall k | 0 <= k < |t.subscriptions| ensures SubscriptionOk(t, k) { assert SubscriptionOk(s, k); }
    forall w | 0 <= w < |t.watchers| ensures WatcherOk(t, w) && Accounted(t, w) {
      assert WatcherOk(s, w);
      StillAccounted(s, t, w);
    }
    forall p | p in t.shared ensures SharedOk(t, p) { assert SharedOk(s, p); }
  }

  lemma {:induction false} BeginSubscribeKeeps(s: State, step: Step)
    requires Inv(s) && Enabled(s, step)
    requires step.BeginSubscribe?
    ensures Inv(Apply(s, step))
  {
    var t := Apply(s, step);
    forall k | 0 <= k < |t.subscriptions| ensures SubscriptionOk(t, k) { assert SubscriptionOk(s, k); }
    forall w | 0 <= w < |t.watchers| ensures WatcherOk(t, w) && Accounted(t, w) {
      if w < |s.watchers| {
        assert WatcherOk(s, w);
        StillAccounted(s, t, w);
      }
    }
    forall p | p in t.shared ensures SharedOk(t, p) { assert p in s.shared ==> SharedOk(s, p); }
  }

  lemma {:induction false} FinishSubscribeKeeps(s: State, step: Step)
    requires Inv(s) && Enabled(s, step)
    requires step.FinishSubscribe?
    ensures Inv(Apply(s, step))
  {
    var t := Apply(s, step);
    forall k | 0 <= k < |t.subscriptions| ensures SubscriptionOk(t, k) {
      if k < |s.subscriptions| { assert SubscriptionOk(s, k); }
    }
    assert s.watchers[s.mutex.watcher].nextId + 1 in t.watchers[s.mutex.watcher].subscribers;
    forall w | 0 <= w < |t.watchers| ensures WatcherOk(t, w) && Accounted(t, w) {
      assert WatcherOk(s, w);
      StillAccounted(s, t, w);
    }
    forall p | p in t.shared ensures SharedOk(t, p) { assert SharedOk(s, p); }
  }

  lemma {:induction false} FanOutKeeps(s: State, step: Step)
    requires Inv(s) && Enabled(s, step)
    requires step.FanOutBegin? || step.FanOutEnd?
    ensures Inv(Apply(s, step))
  {
    var t := Apply(s, step);
    forall k | 0 <= k < |t.subscriptions| ensures SubscriptionOk(t, k) { assert SubscriptionOk(s, k); }
    forall w | 0 <= w < |t.watchers| ensures WatcherOk(t, w) && Accounted(t, w) {
      assert WatcherOk(s, w);
      StillAccounted(s, t, w);
    }
    forall p | p in t.shared ensures SharedOk(t, p) { assert SharedOk(s, p); }
  }

  /** An offer leaves every subscription in order: the receiver has one event more, and the
      others are as they were. */
  lemma {:induction false} OfferKeepsSubscription(s: State, step: Step, k: nat)
    requires Inv(s) && Enabled(s, step) && step.FanOutSend? && k < |s.subscriptions|
    ensures SubscriptionOk(Apply(s, step), k)
  {
    assert WatcherOk(s, step.w) && SubscriptionOk(s, k);
    assert EntryOk(s, step.w, step.id, s.watchers[step.w].subscribers[step.id]);
    assert SubscriptionOk(s, s.watchers[step.w].subscribers[step.id]);
  }

  lemma {:induction false} FanOutSendKeeps(s: State, step: Step)
    requires Inv(s) && Enabled(s, step)
    requires step.FanOutSend?
    ensures Inv(Apply(s, step))
  {
    var t := Apply(s, step);
    assert WatcherOk(s, step.w);
    assert SubscriptionOk(s, s.watchers[step.w].subscribers[step.id]);
    forall k | 0 <= k < |t.subscriptions| ensures SubscriptionOk(t, k) { OfferKeepsSubscription(s, step, k); }
    forall w | 0 <= w < |t.watchers| ensures WatcherOk(t, w) && Accounted(t, w) {
      assert WatcherOk(s, w);
      StillAccounted(s, t, w);
    }
    forall p | p in t.shared ensures SharedOk(t, p) { assert SharedOk(s, p); }
  }

  lemma {:induction false} ConsumeKeeps(s: State, step: Step)
    requires Inv(s) && Enabled(s, step)
    requires step.Consume?
    ensures Inv(Apply(s, step))
  {
    var t := Apply(s, step);
    forall k | 0 <= k < |t.subscriptions| ensures SubscriptionOk(t, k) { assert SubscriptionOk(s, k); }
    forall w | 0 <= w < |t.watchers| ensures WatcherOk(t, w) && Accounted(t, w) {
      assert WatcherOk(s, w);
      StillAccounted(s, t, w);
    }
    forall p | p in t.shared ensures SharedOk(t, p) { assert SharedOk(s, p); }
  }

  lemma {:induction false} StepKeeps(s: State, step: Step)
    requires Inv(s) && Enabled(s, step)
    ensures Inv(Apply(s, step))
  {
    match step
    case BeginSubscribe(_, _) => BeginSubscribeKeeps(s, step);
    case FinishSubscribe => FinishSubscribeKeeps(s, step);
    case Cancel(_) => CancelOrCloseKeeps(s, step);
    case RemoveSubscriber(_) => RemoveSubscriberKeeps(s, step);
    case CloseChannel(_) => CancelOrCloseKeeps(s, step);
    case LockAndCheck(_) => LockAndCheckKeeps(s, step);
    case StopWatch(_) => StopOrDeleteKeeps(s, step);
    case DeleteEntry(_) => StopOrDeleteKeeps(s, step);
    case FanOutBegin(_, _) => FanOutKeeps(s, step);
    case FanOutSend(_, _) => FanOutSendKeeps(s, step);
    case FanOutEnd(_) => FanOutKeeps(s, step);
    case Consume(_) => ConsumeKeeps(s, step);
  }

  lemma {:induction false} RunKeeps(s: State, steps: seq<Step>)
    requires Inv(s) && Run(s, steps).Some?
    ensures Inv(Run(s, steps).value)
    decreases |steps|
  {
    if steps != [] {
      StepKeeps(s, steps[0]);
      RunKeeps(Apply(s, steps[0]), steps[1..]);
    }
  }

  // --- Main results over every run --------------------------------------------

  /** Safety: no goroutine panics, a watch with a subscriber is never cancelled, and no
      Subscribe call is about to add its subscriber to a cancelled watcher. */
  lemma {:induction false} SafeInEveryRun(steps: seq<Step>)
    requires Run(Init(), steps).Some?
    ensures var s := Run(Init(), steps).value;
            && !s.panicked
            && (forall w | 0 <= w < |s.watchers| && s.watchers[w].subscribers != map[] :: !s.watchers[w].cancelled)
            && (s.mutex.Subscriber? ==> s.mutex.watcher < |s.watchers| && !s.watchers[s.mutex.watcher].cancelled)
  {
    RunKeeps(Init(), steps);
    var s := Run(Init(), steps).value;
    forall w | 0 <= w < |s.watchers| && s.watchers[w].subscribers != map[] ensures !s.watchers[w].cancelled {
      assert WatcherOk(s, w);
    }
  }

  /** No leak: when the mutex is free and every cleanup has run to its end, every watch
      ever opened is cancelled and the map is empty. */
  lemma {:induction false} NoWatchLeaks(steps: seq<Step>)
    requires Run(Init(), steps).Some?
    requires var s := Run(Init(), steps).value;
             s.mutex.Nobody? && forall k | 0 <= k < |s.subscriptions| :: s.subscriptions[k].phase.Done?
    ensures var s := Run(Init(), steps).value;
            s.shared == map[] && forall w | 0 <= w < |s.watchers| :: s.watchers[w].cancelled
  {
    RunKeeps(Init(), steps);
    var s := Run(Init(), steps).value;
    forall w | 0 <= w < |s.watchers| ensures s.watchers[w].cancelled {
      assert WatcherOk(s, w) && Accounted(s, w);
    }
    assert forall p | p in s.shared :: SharedOk(s, p);
  }

  /** What would make Go panic is never enabled: a send on a closed channel, or a second
      close of one. */
  lemma {:induction false} ClosedIsLeftAlone(steps: seq<Step>, step: Step)
    requires Run(Init(), steps).Some? && Enabled(Run(Init(), steps).value, step)
    ensures var s := Run(Init(), steps).value;
            && (step.FanOutSend? ==> !s.channels[s.watchers[step.w].subscribers[step.id]].closed)
            && (step.CloseChannel? ==> !s.channels[step.k].closed)
  {
    RunKeeps(Init(), steps);
    var s := Run(Init(), steps).value;
    if step.FanOutSend? {
      assert WatcherOk(s, step.w);
      assert EntryOk(s, step.w, step.id, s.watchers[step.w].subscribers[step.id]);
      assert SubscriptionOk(s, s.watchers[step.w].subscribers[step.id]);
    }
    if step.CloseChannel? { assert SubscriptionOk(s, step.k); }
  }

  /** An offer reaches the one subscriber it is for: with fewer than 64 events waiting it is
      sent the watcher's latest event, otherwise the event is dropped for it. */
  lemma {:induction false} OfferMeans(s: State, step: Step)
    requires Inv(s) && Enabled(s, step) && step.FanOutSend?
    ensures var t, k := Apply(s, step), s.watchers[step.w].subscribers[step.id];
            var before, after, log := s.channels[k], t.channels[k], s.watchers[step.w].log;
            && |t.channels| == |s.channels| && (forall j | 0 <= j < |s.channels| && j != k :: t.channels[j] == s.channels[j])
            && (if before.buffered < 64
                then after.sent == before.sent + [log[|log| - 1]] && after.buffered == before.buffered + 1 && after.dropped == before.dropped
                else after.sent == before.sent && after.buffered == before.buffered && after.dropped == before.dropped + 1)
  {
    assert WatcherOk(s, step.w);
    assert EntryOk(s, step.w, step.id, s.watchers[step.w].subscribers[step.id]);
    assert SubscriptionOk(s, s.watchers[step.w].subscribers[step.id]);
  }

  /** The step offers an event to channel k while 64 events are waiting in it. */
  predicate OffersToFull(s: State, step: Step, k: nat) {
    && Enabled(s, step) && step.FanOutSend? && s.watchers[step.w].subscribers[step.id] == k
    && s.channels[k].buffered >= 64
  }

  /** Channel k had room at every offer of the run. */
  predicate NeverFull(s: State, steps: seq<Step>, k: nat)
    requires Run(s, steps).Some?
    decreases |steps|
  {
    steps == [] || (!OffersToFull(s, steps[0], k) && NeverFull(Apply(s, steps[0]), steps[1..], k))
  }

  function DroppedAt(s: State, k: nat): nat {
    if k < |s.channels| then s.channels[k].dropped else 0
  }

  lemma {:induction false} DropsOnlyWhenFull(s: State, step: Step, k: nat)
    requires Inv(s) && Enabled(s, step)
    ensures DroppedAt(Apply(s, step), k) == DroppedAt(s, k) + if OffersToFull(s, step, k) then 1 else 0
  {
    if step.FanOutSend? { OfferMeans(s, step); }
  }

  /** A channel has lost events exactly if it had no room at some offer. */
  lemma {:induction false} NoneDroppedIff(s: State, steps: seq<Step>, k: nat)
    requires Inv(s) && Run(s, steps).Some?
    ensures DroppedAt(s, k) <= DroppedAt(Run(s, steps).value, k)
    ensures DroppedAt(Run(s, steps).value, k) == DroppedAt(s, k) <==> NeverFull(s, steps, k)
    decreases |steps|
  {
    if steps != [] {
      DropsOnlyWhenFull(s, steps[0], k);
      StepKeeps(s, steps[0]);
      NoneDroppedIff(Apply(s, steps[0]), steps[1..], k);
    }
  }

  /** The events that the steps take off the store channel of watcher w, in order. */
  function Taken(steps: seq<Step>, w: nat): seq<Event>
    decreases |steps|
  {
    if steps == [] then []
    else
      var rest := Taken(steps[1..], w);
      if steps[0].FanOutBegin? && steps[0].w == w then [steps[0].event] + rest else rest
  }

  function LogAt(s: State, w: nat): seq<Event> {
    if w < |s.watchers| then s.watchers[w].log else []
  }

  lemma {:induction false} LogIsTaken(s: State, steps: seq<Step>, w: nat)
    requires Run(s, steps).Some?
    ensures LogAt(Run(s, steps).value, w) == LogAt(s, w) + Taken(steps, w)
    decreases |steps|
  {
    if steps != [] {
      LogStep(s, steps[0], w);
      LogIsTaken(Apply(s, steps[0]), steps[1..], w);
    }
  }

  lemma {:induction false} LogStep(s: State, step: Step, w: nat)
    requires Enabled(s, step)
    ensures LogAt(Apply(s, step), w) == LogAt(s, w) + if step.FanOutBegin? && step.w == w then [step.event] else []
  {
  }

  /** How many events the steps take out of channel k. */
  function Consumed(steps: seq<Step>, k: nat): nat
    decreases |steps|
  {
    if steps == [] then 0 else Consumed(steps[1..], k) + if steps[0] == Consume(k) then 1 else 0
  }

  function ReceivedAt(s: State, k: nat): nat {
    if k < |s.channels| then s.channels[k].received else 0
  }

  lemma {:induction false} ReceivedIsConsumed(s: State, steps: seq<Step>, k: nat)
    requires Run(s, steps).Some?
    ensures ReceivedAt(Run(s, steps).value, k) == ReceivedAt(s, k) + Consumed(steps, k)
    decreases |steps|
  {
    if steps != [] {
      ReceivedStep(s, steps[0], k);
      ReceivedIsConsumed(Apply(s, steps[0]), steps[1..], k);
    }
  }

  lemma {:induction false} ReceivedStep(s: State, step: Step, k: nat)
    requires Enabled(s, step)
    ensures ReceivedAt(Apply(s, step), k) == ReceivedAt(s, k) + if step == Consume(k) then 1 else 0
  {
  }

  /** Delivery: a registered subscriber that had room at every offer has been sent, in order
      and exactly once, every event taken off the store watch since it subscribed; what it has
      not taken out is waiting in its channel. */
  lemma {:induction false} DeliversEveryEvent(steps: seq<Step>, k: nat)
    requires Run(Init(), steps).Some? && NeverFull(Init(), steps, k)
    requires k < |Run(Init(), steps).value.subscriptions|
    ensures var s := Run(Init(), steps).value;
            && k < |s.channels|
            && var c, w, events := s.channels[k], s.subscriptions[k].watcher, Taken(steps, s.subscriptions[k].watcher);
            && w < |s.watchers|
            && (c.closed ==> !Registered(s.subscriptions[k].phase))
            && (Registered(s.subscriptions[k].phase) && s.watchers[w].fanOut.None? ==>
                  && c.joined <= |events| && c.sent == events[c.joined..]
                  && c.buffered == |c.sent| - Consumed(steps, k))
  {
    ReceivedIsConsumed(Init(), steps, k);
    RunKeeps(Init(), steps);
    NoneDroppedIff(Init(), steps, k);
    var s := Run(Init(), steps).value;
    assert SubscriptionOk(s, k);
    LogIsTaken(Init(), steps, s.subscriptions[k].watcher);
  }

  /** Steps that finish what a goroutine has begun: they need no new subscription, no
      new event and no cancellation. */
  predicate Finishing(step: Step) {
    !step.BeginSubscribe? && !step.Cancel? && !step.FanOutBegin? && !step.Consume?
  }

  /** Progress: while the mutex is held, or some cancelled subscription's cleanup is not
      done, a finishing step is enabled, so the cleanups are never deadlocked. */
  lemma {:induction false} CleanupNeverStuck(steps: seq<Step>)
    requires Run(Init(), steps).Some?
    requires var s := Run(Init(), steps).value;
             || !s.mutex.Nobody?
             || exists k :: 0 <= k < |s.subscriptions| && !s.subscriptions[k].phase.Live? && !s.subscriptions[k].phase.Done?
    ensures exists step :: Finishing(step) && Enabled(Run(Init(), steps).value, step)
  {
    RunKeeps(Init(), steps);
    var s := Run(Init(), steps).value;
    if s.mutex.Cleanup? {
      var k := s.mutex.k;
      assert SubscriptionOk(s, k);
      assert Enabled(s, StopWatch(k)) || Enabled(s, DeleteEntry(k));
    } else if s.mutex.Subscriber? {
      assert s.watchers[s.mutex.watcher].fanOut.None? ==> Enabled(s, FinishSubscribe);
      FanOutFinishes(s, s.mutex.watcher);
    } else {
      var k :| 0 <= k < |s.subscriptions| && !s.subscriptions[k].phase.Live? && !s.subscriptions[k].phase.Done?;
      assert SubscriptionOk(s, k);
      FanOutFinishes(s, s.subscriptions[k].watcher);
      assert
        || Enabled(s, RemoveSubscriber(k)) || Enabled(s, CloseChannel(k)) || Enabled(s, LockAndCheck(k))
        || s.watchers[s.subscriptions[k].watcher].fanOut.Some?;
    }
  }

  lemma {:induction false} FanOutFinishes(s: State, w: nat)
    requires Inv(s) && w < |s.watchers|
    ensures s.watchers[w].fanOut.Some? ==> exists step :: Finishing(step) && Enabled(s, step)
  {
    assert WatcherOk(s, w);
    if s.watchers[w].fanOut.Some? {
      if id :| id in s.watchers[w].fanOut.value {
        assert EntryOk(s, w, id, s.watchers[w].subscribers[id]);
        assert SubscriptionOk(s, s.watchers[w].subscribers[id]);
        assert Enabled(s, FanOutSend(w, id));
      } else {
        assert s.watchers[w].fanOut.value == {};
        assert Enabled(s, FanOutEnd(w));
      }
    }
  }

  // --- Finishing steps end ----------------------------------------------------------

  function Total(xs: seq<nat>): nat
    decreases |xs|
  {
    if xs == [] then 0 else Total(xs[..|xs| - 1]) + xs[|xs| - 1]
  }

  lemma {:induction false} TotalUpdate(xs: seq<nat>, k: nat, x: nat)
    requires k < |xs|
    ensures Total(xs[k := x]) == Total(xs) - xs[k] + x
    decreases |xs|
  {
    var shorter, ys := xs[..|xs| - 1], xs[k := x];
    if k == |xs| - 1 {
      assert ys[..|ys| - 1] == shorter;
    } else {
      assert ys[..|ys| - 1] == shorter[k := x];
      TotalUpdate(shorter, k, x);
    }
  }

  /** Steps a subscription has left to take on its own, once it is cancelled. */
  function PhaseLeft(phase: Phase): nat {
    match phase
    case Live => 0
    case Cancelled => 5
    case Removed => 4
    case Closed => 3
    case Stopping => 2
    case Stopped => 1
    case Done => 0
  }

  function FanOutLeft(watcher: Watcher): nat {
    if watcher.fanOut.None? then 0 else |watcher.fanOut.value| + 1
  }

  function PhasesLeft(subscriptions: seq<Subscription>): seq<nat> {
    seq(|subscriptions|, k requires 0 <= k < |subscriptions| => PhaseLeft(subscriptions[k].phase))
  }

  function FanOutsLeft(watchers: seq<Watcher>): seq<nat> {
    seq(|watchers|, w requires 0 <= w < |watchers| => FanOutLeft(watchers[w]))
  }

  /** How many finishing steps are left at most. */
  function StepsLeft(s: State): nat {
    Total(PhasesLeft(s.subscriptions)) + Total(FanOutsLeft(s.watchers)) + if s.mutex.Subscriber? then 1 else 0
  }

  lemma {:induction false} PhaseChange(subscriptions: seq<Subscription>, k: nat, sub: Subscription)
    requires k < |subscriptions|
    ensures Total(PhasesLeft(subscriptions[k := sub])) ==
            Total(PhasesLeft(subscriptions)) - PhaseLeft(subscriptions[k].phase) + PhaseLeft(sub.phase)
  {
    TotalUpdate(PhasesLeft(subscriptions), k, PhaseLeft(sub.phase));
    assert PhasesLeft(subscriptions[k := sub]) == PhasesLeft(subscriptions)[k := PhaseLeft(sub.phase)];
  }

  lemma {:induction false} FanOutChange(watchers: seq<Watcher>, w: nat, watcher: Watcher)
    requires w < |watchers|
    ensures Total(FanOutsLeft(watchers[w := watcher])) ==
            Total(FanOutsLeft(watchers)) - FanOutLeft(watchers[w]) + FanOutLeft(watcher)
  {
    TotalUpdate(FanOutsLeft(watchers), w, FanOutLeft(watcher));
    assert FanOutsLeft(watchers[w := watcher]) == FanOutsLeft(watchers)[w := FanOutLeft(watcher)];
  }

  /** Steps of a cleanup take the subscription on by one phase or more. */
  lemma {:induction false} CleanupStepEnds(s: State, step: Step)
    requires Enabled(s, step)
    requires step.RemoveSubscriber? || step.CloseChannel? || step.LockAndCheck? || step.StopWatch? || step.DeleteEntry?
    ensures Apply(s, step).mutex.Subscriber? ==> s.mutex.Subscriber?
    ensures Total(PhasesLeft(Apply(s, step).subscriptions)) < Total(PhasesLeft(s.subscriptions))
    ensures Total(FanOutsLeft(Apply(s, step).watchers)) == Total(FanOutsLeft(s.watchers))
  {
    var t := Apply(s, step);
    PhaseChange(s.subscriptions, step.k, t.subscriptions[step.k]);
    if step.RemoveSubscriber? || step.StopWatch? {
      var w := s.subscriptions[step.k].watcher;
      FanOutChange(s.watchers, w, t.watchers[w]);
    }
  }

  lemma {:induction false} FanOutStepEnds(s: State, step: Step)
    requires Enabled(s, step) && (step.FanOutSend? || step.FanOutEnd?)
    ensures StepsLeft(Apply(s, step)) < StepsLeft(s)
  {
    var t := Apply(s, step);
    FanOutChange(s.watchers, step.w, t.watchers[step.w]);
  }

  lemma {:induction false} SubscribeStepEnds(s: State)
    requires Enabled(s, FinishSubscribe)
    ensures StepsLeft(Apply(s, FinishSubscribe)) < StepsLeft(s)
  {
    var t, w := Apply(s, FinishSubscribe), s.mutex.watcher;
    FanOutChange(s.watchers, w, t.watchers[w]);
    assert PhasesLeft(t.subscriptions)[..|s.subscriptions|] == PhasesLeft(s.subscriptions);
  }

  /** Every finishing step leaves fewer to take. */
  lemma {:induction false} FinishingEnds(s: State, step: Step)
    requires Enabled(s, step) && Finishing(step)
    ensures StepsLeft(Apply(s, step)) < StepsLeft(s)
  {
    if step.FinishSubscribe? {
      SubscribeStepEnds(s);
    } else if step.FanOutSend? || step.FanOutEnd? {
      FanOutStepEnds(s, step);
    } else {
      CleanupStepEnds(s, step);
    }
  }

  /** Everyone has cancelled, and no Subscribe call is under way. */
  ghost predicate AllLeaving(s: State) {
    !s.mutex.Subscriber? && forall k | 0 <= k < |s.subscriptions| :: !s.subscriptions[k].phase.Live?
  }

  lemma {:induction false} StaysLeaving(s: State, step: Step)
    requires AllLeaving(s) && Enabled(s, step) && Finishing(step)
    ensures AllLeaving(Apply(s, step))
  {
  }

  /** A run of finishing steps is no longer than the steps left, and nobody comes back in it. */
  lemma {:induction false} FinishingRun(s: State, steps: seq<Step>)
    requires Run(s, steps).Some? && forall i | 0 <= i < |steps| :: Finishing(steps[i])
    ensures |steps| + StepsLeft(Run(s, steps).value) <= StepsLeft(s)
    ensures AllLeaving(s) ==> AllLeaving(Run(s, steps).value)
    decreases |steps|
  {
    if steps != [] {
      FinishingEnds(s, steps[0]);
      if AllLeaving(s) { StaysLeaving(s, steps[0]); }
      FinishingRun(Apply(s, steps[0]), steps[1..]);
    }
  }

  /** Once everyone has cancelled, finishing steps, however they are chosen, can be taken no
      more than a bounded number of times, and when none can be taken any more every watch
      ever opened is cancelled and the map is empty. */
  lemma {:induction false} LeavingCancelsEveryWatch(before: seq<Step>, steps: seq<Step>)
    requires Run(Init(), before).Some? && AllLeaving(Run(Init(), before).value)
    requires Run(Run(Init(), before).value, steps).Some? && forall i | 0 <= i < |steps| :: Finishing(steps[i])
    ensures var s := Run(Init(), before).value;
            var t := Run(s, steps).value;
            && |steps| <= StepsLeft(s)
            && ((forall step | Finishing(step) :: !Enabled(t, step)) ==>
                  t.shared == map[] && forall w | 0 <= w < |t.watchers| :: t.watchers[w].cancelled)
  {
    var s := Run(Init(), before).value;
    RunKeeps(Init(), before);
    FinishingRun(s, steps);
    RunConcat(Init(), before, steps);
    var t := Run(s, steps).value;
    if forall step | Finishing(step) :: !Enabled(t, step) {
      if !(t.mutex.Nobody? && forall k | 0 <= k < |t.subscriptions| :: t.subscriptions[k].phase.Done?) {
        CleanupNeverStuck(before + steps);
      }
      NoWatchLeaks(before + steps);
    }
  }

  lemma {:induction false} RunConcat(s: State, a: seq<Step>, b: seq<Step>)
    requires Run(s, a).Some?
    ensures Run(s, a + b) == Run(Run(s, a).value, b)
    decreases |a|
  {
    if a == [] {
      assert a + b == b;
    } else {
      assert (a + b)[0] == a[0] && (a + b)[1..] == a[1..] + b;
      RunConcat(Apply(s, a[0]), a[1..], b);
    }
  }

  // --- One watch per prefix: exactly when ---------------------------------------

  /** Every open watch is the one its prefix maps to, so a prefix has at most one. */
  ghost predicate Indexed(s: State) {
    forall w | 0 <= w < |s.watchers| && !s.watchers[w].cancelled :: Lookup(s.shared, s.watchers[w].prefix) == Some(w)
  }

  /** The cleanup of k is about to delete a map entry that is not its own watcher's. */
  predicate DeletesForeignEntry(s: State, step: Step) {
    step.DeleteEntry? && step.k < |s.subscriptions|
    && s.subscriptions[step.k].prefix in s.shared
    && s.shared[s.subscriptions[step.k].prefix] != s.subscriptions[step.k].watcher
  }

  /** A step keeps the open watches indexed if and only if it does not delete another
      watcher's entry. */
  lemma {:induction false} IndexedIffOwnEntry(s: State, step: Step)
    requires Inv(s) && Indexed(s) && Enabled(s, step)
    ensures Indexed(Apply(s, step)) <==> !DeletesForeignEntry(s, step)
  {
    var t := Apply(s, step);
    if DeletesForeignEntry(s, step) {
      var w := s.shared[s.subscriptions[step.k].prefix];
      assert SharedOk(s, s.subscriptions[step.k].prefix) && SubscriptionOk(s, step.k);
      assert w < |t.watchers| && !t.watchers[w].cancelled;
    } else {
      if step.DeleteEntry? { assert SubscriptionOk(s, step.k); }
      forall w | 0 <= w < |t.watchers| && !t.watchers[w].cancelled
        ensures Lookup(t.shared, t.watchers[w].prefix) == Some(w)
      {
        assert w < |s.watchers| ==> Lookup(s.shared, s.watchers[w].prefix) == Some(w);
      }
    }
  }

  /** A run in which no step deletes another watcher's entry. */
  predicate OwnEntriesOnly(s: State, steps: seq<Step>)
    requires Run(s, steps).Some?
    decreases |steps|
  {
    steps == [] || (!DeletesForeignEntry(s, steps[0]) && OwnEntriesOnly(Apply(s, steps[0]), steps[1..]))
  }

  lemma {:induction false} IndexedAlong(s: State, steps: seq<Step>)
    requires Inv(s) && Indexed(s) && Run(s, steps).Some? && OwnEntriesOnly(s, steps)
    ensures Indexed(Run(s, steps).value)
    decreases |steps|
  {
    if steps != [] {
      StepKeeps(s, steps[0]);
      IndexedIffOwnEntry(s, steps[0]);
      IndexedAlong(Apply(s, steps[0]), steps[1..]);
    }
  }

  /** At most one open watch per prefix in every run that deletes own entries only. */
  lemma {:induction false} OneWatchPerPrefix(steps: seq<Step>, v: nat, w: nat)
    requires Run(Init(), steps).Some? && OwnEntriesOnly(Init(), steps)
    requires var s := Run(Init(), steps).value;
             && v < |s.watchers| && w < |s.watchers| && s.watchers[v].prefix == s.watchers[w].prefix
             && !s.watchers[v].cancelled && !s.watchers[w].cancelled
    ensures v == w
  {
    IndexedAlong(Init(), steps);
  }

  ghost predicate AtMostOneOpen(s: State, p: string) {
    forall v, w | OpenOn(s, p, v) && OpenOn(s, p, w) :: v == w
  }

  predicate OpenOn(s: State, p: string, w: nat) {
    w < |s.watchers| && s.watchers[w].prefix == p && !s.watchers[w].cancelled
  }

  /** In every reachable state with the mutex free, the open watches are indexed if and only if
      no prefix has two of them, now or once the next Subscribe has looked the prefix up. */
  lemma {:induction false} IndexedIffOneWatch(steps: seq<Step>)
    requires Run(Init(), steps).Some? && Run(Init(), steps).value.mutex.Nobody?
    ensures var s := Run(Init(), steps).value;
            Indexed(s) <==> forall p :: AtMostOneOpen(s, p) && AtMostOneOpen(Apply(s, BeginSubscribe(p, true)), p)
  {
    RunKeeps(Init(), steps);
    var s := Run(Init(), steps).value;
    if Indexed(s) {
      forall p ensures AtMostOneOpen(s, p) && AtMostOneOpen(Apply(s, BeginSubscribe(p, true)), p) {
        IndexedIffOwnEntry(s, BeginSubscribe(p, true));
      }
    } else {
      var w :| 0 <= w < |s.watchers| && !s.watchers[w].cancelled && Lookup(s.shared, s.watchers[w].prefix) != Some(w);
      UnindexedMeansTwo(s, w);
    }
  }

  lemma {:induction false} UnindexedMeansTwo(s: State, w: nat)
    requires Inv(s) && s.mutex.Nobody? && w < |s.watchers| && !s.watchers[w].cancelled
    requires Lookup(s.shared, s.watchers[w].prefix) != Some(w)
    ensures var p := s.watchers[w].prefix;
            !AtMostOneOpen(s, p) || !AtMostOneOpen(Apply(s, BeginSubscribe(p, true)), p)
  {
    var p := s.watchers[w].prefix;
    if p in s.shared {
      assert SharedOk(s, p);
      assert OpenOn(s, p, w) && OpenOn(s, p, s.shared[p]);
    } else {
      var t := Apply(s, BeginSubscribe(p, true));
      assert OpenOn(t, p, w) && OpenOn(t, p, |s.watchers|);
    }
  }

  lemma {:induction false} RunAppend(s: State, steps: seq<Step>, step: Step)
    requires Run(s, steps).Some? && Enabled(Run(s, steps).value, step)
    ensures Run(s, steps + [step]) == Some(Apply(Run(s, steps).value, step))
    decreases |steps|
  {
    var all := steps + [step];
    if steps == [] {
      assert all[1..] == [];
      assert Run(Apply(s, step), []) == Some(Apply(s, step));
    } else {
      assert all[1..] == steps[1..] + [step];
      RunAppend(Apply(s, steps[0]), steps[1..], step);
    }
  }

  lemma {:induction false} Extend(steps: seq<Step>, s: State, step: Step) returns (longer: seq<Step>, t: State)
    requires Run(Init(), steps) == Some(s) && Enabled(s, step)
    ensures Run(Init(), longer) == Some(t) && t == Apply(s, step)
  {
    RunAppend(Init(), steps, step);
    longer, t := steps + [step], Apply(s, step);
  }

  lemma {:induction false} TwoSubscribe(p: string) returns (steps: seq<Step>, s: State)
    ensures Run(Init(), steps) == Some(s)
    ensures s.shared == map[p := 0] && s.mutex.Nobody? && |s.channels| == 2
    ensures s.watchers == [NewWatcher(p).(nextId := 2, subscribers := map[1 := 0, 2 := 1])]
    ensures s.subscriptions == [Subscription(0, 1, p, Live), Subscription(0, 2, p, Live)]
  {
    steps, s := [], Init();
    steps, s := Extend(steps, s, BeginSubscribe(p, true));
    steps, s := Extend(steps, s, FinishSubscribe);
    steps, s := Extend(steps, s, BeginSubscribe(p, true));
    steps, s := Extend(steps, s, FinishSubscribe);
    assert s.watchers[0].subscribers == map[1 := 0, 2 := 1];
  }

  /** Two subscribers of one watcher both leave before either takes the mutex. */
  lemma {:induction false} BothLeave(p: string) returns (steps: seq<Step>, s: State)
    ensures Run(Init(), steps) == Some(s)
    ensures s.shared == map[p := 0] && s.mutex.Nobody? && |s.watchers| == 1 && |s.subscriptions| == |s.channels| == 2
    ensures s.watchers[0] == NewWatcher(p).(nextId := 2)
    ensures s.subscriptions == [Subscription(0, 1, p, Closed), Subscription(0, 2, p, Closed)]
  {
    steps, s := TwoSubscribe(p);
    steps, s := Extend(steps, s, Cancel(0));
    steps, s := Extend(steps, s, Cancel(1));
    steps, s := Extend(steps, s, RemoveSubscriber(0));
    steps, s := Extend(steps, s, RemoveSubscriber(1));
    assert s.watchers[0].subscribers == map[];
    steps, s := Extend(steps, s, CloseChannel(0));
    steps, s := Extend(steps, s, CloseChannel(1));
  }

  /** The first cleanup stops the watch and deletes its entry. */
  lemma {:induction false} FirstWatchStops(p: string) returns (steps: seq<Step>, s: State)
    ensures Run(Init(), steps) == Some(s)
    ensures s.shared == map[] && s.mutex.Nobody? && |s.watchers| == 1 && |s.subscriptions| == |s.channels| == 2
    ensures s.watchers[0] == NewWatcher(p).(nextId := 2, cancelled := true)
    ensures s.subscriptions[1] == Subscription(0, 2, p, Closed)
  {
    steps, s := BothLeave(p);
    steps, s := Extend(steps, s, LockAndCheck(0));
    steps, s := Extend(steps, s, StopWatch(0));
    steps, s := Extend(steps, s, DeleteEntry(0));
  }

  /** A new subscriber then gets a new watcher. */
  lemma {:induction false} SecondWatchOpens(p: string) returns (steps: seq<Step>, s: State)
    ensures Run(Init(), steps) == Some(s)
    ensures s.shared == map[p := 1] && s.mutex.Nobody? && |s.watchers| == 2 && |s.subscriptions| == |s.channels| == 3
    ensures s.watchers[0].subscribers == map[] && s.watchers[1] == NewWatcher(p).(nextId := 1, subscribers := map[1 := 2])
    ensures s.subscriptions[1] == Subscription(0, 2, p, Closed)
  {
    steps, s := FirstWatchStops(p);
    steps, s := Extend(steps, s, BeginSubscribe(p, true));
    assert s.watchers[1] == NewWatcher(p) && s.shared == map[p := 1];
    steps, s := Extend(steps, s, FinishSubscribe);
    assert s.watchers[1].subscribers == map[1 := 2];
  }

  /** The condition is not idle: with the second cleanup delayed past a new Subscribe, it
      deletes the new watcher's entry and the next Subscribe opens a second watch. */
  lemma {:induction false} TwoWatchesOnOnePrefix(p: string) returns (steps: seq<Step>, s: State)
    ensures Run(Init(), steps) == Some(s)
    ensures |s.watchers| == 3 && s.watchers[1].prefix == s.watchers[2].prefix == p
    ensures !s.watchers[1].cancelled && !s.watchers[2].cancelled && s.watchers[1].subscribers != map[]
  {
    steps, s := SecondWatchOpens(p);
    assert 1 in s.watchers[1].subscribers;
    steps, s := Extend(steps, s, LockAndCheck(1));
    steps, s := Extend(steps, s, StopWatch(1));
    steps, s := Extend(steps, s, DeleteEntry(1));
    assert p !in s.shared;
    steps, s := Extend(steps, s, BeginSubscribe(p, true));
  }
}
