/** The cluster autoscaler (controllers/clusterscale.go): durable capacity requests
    proposed by Reconcile, carried out by a post-commit executor, under a node cap. */
module ClusterScaling {
  import opened Listings
  import opened Options

  /** A capacity request is keyed by the instance that needs room, or by the node to
      remove (the source's "remove-<node>" ids). */
  datatype RequestId = ScaleUp(instance: string) | Removal(nodeId: string)

  datatype RequestState = Pending | Launching | Ready | Failed | Removing

  /** The node id is absent until the provider has named a node. */
  datatype Request = Request(state: RequestState, node: Option<string>)

  type Requests = map<RequestId, Request>

  const DEFAULT_MAX_CLUSTER_NODES := 100

  datatype Config = Config(minNodes: int, maxNodes: int) {
    function Cap(): int {
      if maxNodes == 0 then DEFAULT_MAX_CLUSTER_NODES else maxNodes
    }
  }

  /** What one reconcile reads besides the requests: the alive auto-nodes, the other alive
      nodes, the idle alive auto-nodes and the unplaced instances that more nodes would
      help, the last two in sorted order. */
  datatype Facts = Facts(aliveAuto: set<string>, aliveOther: set<string>, idle: seq<string>, demand: seq<string>) {
    function Alive(): set<string> {
      aliveAuto + aliveOther
    }
  }

  /** An atomic group of store changes; all its keys belong to one request. */
  datatype Change = PutPending(instance: string) | PutRemoving(nodeId: string) | DeleteRequest(id: RequestId)

  function Target(change: Change): RequestId {
    match change
    case PutPending(instance) => ScaleUp(instance)
    case PutRemoving(nodeId) => Removal(nodeId)
    case DeleteRequest(id) => id
  }

  predicate InFlight(request: Request) {
    request.state.Pending? || request.state.Launching?
  }

  predicate Finished(request: Request) {
    request.state.Ready? || request.state.Failed?
  }

  function InFlightIds(requests: Requests): set<RequestId> {
    set id | id in requests && InFlight(requests[id])
  }

  // --- Reconcile ---------------------------------------------------------------------

  method CountInFlightCapacityRequests(requests: Requests) returns (count: nat)
    ensures count == |InFlightIds(requests)|
  {
    count := 0;
    var remaining := requests.Keys;
    ghost var counted: set<RequestId> := {};
    while remaining != {}
      invariant remaining <= requests.Keys
      invariant counted == set id | id in requests && id !in remaining && InFlight(requests[id])
      invariant count == |counted|
      decreases remaining
    {
      var id :| id in remaining;
      remaining := remaining - {id};
      if InFlight(requests[id]) {
        counted := counted + {id};
        count := count + 1;
      }
    }
    assert counted == InFlightIds(requests);
  }

  /** The first `maxNew` instances of the demand that no request covers yet. */
  function NewInstances(demand: seq<string>, requests: Requests, maxNew: int): seq<string>
    decreases |demand|
  {
    if demand == [] then []
    else
      var earlier, instance := NewInstances(demand[..|demand| - 1], requests, maxNew), demand[|demand| - 1];
      if |earlier| >= maxNew || ScaleUp(instance) in requests then earlier else earlier + [instance]
  }

  method BuildNewCapacityRequests(demand: seq<string>, requests: Requests, maxNew: int) returns (instances: seq<string>)
    ensures instances == NewInstances(demand, requests, maxNew)
  {
    instances := [];
    var created := 0;
    for i := 0 to |demand|
      invariant instances == NewInstances(demand[..i], requests, maxNew) && created == |instances|
    {
      assert demand[..i + 1][..i] == demand[..i];
      if created >= maxNew {
        StopsAtLimit(demand, requests, maxNew, i);
        return;
      }
      if ScaleUp(demand[i]) !in requests {
        instances := instances + [demand[i]];
        created := created + 1;
      }
    }
    assert demand[..|demand|] == demand;
  }

  lemma {:induction false} StopsAtLimit(demand: seq<string>, requests: Requests, maxNew: int, i: nat)
    requires i <= |demand| && |NewInstances(demand[..i], requests, maxNew)| >= maxNew
    ensures NewInstances(demand, requests, maxNew) == NewInstances(demand[..i], requests, maxNew)
    decreases |demand|
  {
    if i < |demand| {
      assert demand[..|demand| - 1][..i] == demand[..i];
      StopsAtLimit(demand[..|demand| - 1], requests, maxNew, i);
    } else {
      assert demand[..i] == demand;
    }
  }

  /** New requests are for distinct uncovered unplaced instances, within the limit, and
      stop short of it only when no uncovered instance is left. */
  lemma {:induction false} NewInstancesExact(demand: seq<string>, requests: Requests, maxNew: int)
    requires Distinct(demand)
    ensures var chosen := NewInstances(demand, requests, maxNew);
            && Distinct(chosen)
            && |chosen| <= (if maxNew < 0 then 0 else maxNew)
            && (forall x | x in chosen :: x in demand && ScaleUp(x) !in requests)
            && (|chosen| < maxNew ==> forall x | x in demand && ScaleUp(x) !in requests :: x in chosen)
    decreases |demand|
  {
    if demand != [] {
      NewInstancesExact(demand[..|demand| - 1], requests, maxNew);
    }
  }

  /** Unplaced instances without a request. */
  function Uncovered(demand: seq<string>, requests: Requests): seq<string>
    decreases |demand|
  {
    if demand == [] then []
    else
      var earlier, instance := Uncovered(demand[..|demand| - 1], requests), demand[|demand| - 1];
      if ScaleUp(instance) in requests then earlier else earlier + [instance]
  }

  /** They are the first uncovered ones: all of them, or as many as the limit allows. */
  lemma {:induction false} NewInstancesFirst(demand: seq<string>, requests: Requests, maxNew: int)
    ensures var uncovered := Uncovered(demand, requests);
            NewInstances(demand, requests, maxNew) ==
            uncovered[..if maxNew <= 0 then 0 else if maxNew < |uncovered| then maxNew else |uncovered|]
    decreases |demand|
  {
    if demand != [] { NewInstancesFirst(demand[..|demand| - 1], requests, maxNew); }
  }

  /** Idle nodes to remove, keeping at least minNodes alive; nodes whose removal is
      already under way are skipped. */
  function RemovalNodes(idle: seq<string>, underWay: set<string>, aliveCount: int, minNodes: int): seq<string>
    decreases |idle|
  {
    if idle == [] || minNodes <= 0 then []
    else
      var earlier, node := RemovalNodes(idle[..|idle| - 1], underWay, aliveCount, minNodes), idle[|idle| - 1];
      if aliveCount - |earlier| <= minNodes || node in underWay then earlier else earlier + [node]
  }

  function UnderWay(requests: Requests): set<string> {
    set id | id in requests && requests[id].state.Removing? && requests[id].node.Some? :: requests[id].node.value
  }

  method EmitScaleDownRequests(idle: seq<string>, underWay: set<string>, aliveNodes: int, minNodes: int)
    returns (nodes: seq<string>)
    ensures nodes == RemovalNodes(idle, underWay, aliveNodes, minNodes)
  {
    nodes := [];
    if minNodes <= 0 {
      return;
    }
    var aliveCount := aliveNodes;
    for i := 0 to |idle|
      invariant nodes == RemovalNodes(idle[..i], underWay, aliveNodes, minNodes) && aliveCount == aliveNodes - |nodes|
    {
      assert idle[..i + 1][..i] == idle[..i];
      if aliveCount <= minNodes {
        StopsAtFloor(idle, underWay, aliveNodes, minNodes, i);
        return;
      }
      if idle[i] !in underWay {
        nodes := nodes + [idle[i]];
        aliveCount := aliveCount - 1;
      }
    }
    assert idle[..|idle|] == idle;
  }

  lemma {:induction false} StopsAtFloor(idle: seq<string>, underWay: set<string>, aliveCount: int, minNodes: int, i: nat)
    requires i <= |idle| && aliveCount - |RemovalNodes(idle[..i], underWay, aliveCount, minNodes)| <= minNodes
    ensures RemovalNodes(idle, underWay, aliveCount, minNodes) == RemovalNodes(idle[..i], underWay, aliveCount, minNodes)
    decreases |idle|
  {
    if i < |idle| {
      assert idle[..|idle| - 1][..i] == idle[..i];
      StopsAtFloor(idle[..|idle| - 1], underWay, aliveCount, minNodes, i);
    } else {
      assert idle[..i] == idle;
    }
  }

  /** Idle nodes whose removal is not under way yet. */
  function Eligible(idle: seq<string>, underWay: set<string>): seq<string>
    decreases |idle|
  {
    if idle == [] then []
    else
      var earlier, node := Eligible(idle[..|idle| - 1], underWay), idle[|idle| - 1];
      if node in underWay then earlier else earlier + [node]
  }

  lemma {:induction false} EligibleExact(idle: seq<string>, underWay: set<string>)
    requires Distinct(idle)
    ensures Distinct(Eligible(idle, underWay))
    ensures forall n :: n in Eligible(idle, underWay) <==> n in idle && n !in underWay
    decreases |idle|
  {
    if idle != [] {
      EligibleExact(idle[..|idle| - 1], underWay);
    }
  }

  /** How many of the eligible nodes go: all of them, or as many as are above the minimum. */
  function Quota(eligible: nat, aliveCount: int, minNodes: int): (q: nat)
    ensures q <= eligible
  {
    if minNodes <= 0 || aliveCount <= minNodes then 0
    else if eligible < aliveCount - minNodes then eligible
    else aliveCount - minNodes
  }

  /** One reconcile removes the first eligible nodes, stopping only at the minimum or when
      none is left. */
  lemma {:induction false} RemovalExact(idle: seq<string>, underWay: set<string>, aliveCount: int, minNodes: int)
    ensures var eligible := Eligible(idle, underWay);
            RemovalNodes(idle, underWay, aliveCount, minNodes) == eligible[..Quota(|eligible|, aliveCount, minNodes)]
    decreases |idle|
  {
    if idle != [] {
      RemovalExact(idle[..|idle| - 1], underWay, aliveCount, minNodes);
    }
  }

  /** One reconcile removes idle nodes only, each once, none whose removal is under way, and
      leaves minNodes of the nodes it counts, the ones under removal among them. */
  lemma {:induction false} RemovalKeepsCount(idle: seq<string>, underWay: set<string>, aliveCount: int, minNodes: int)
    requires Distinct(idle)
    ensures var nodes := RemovalNodes(idle, underWay, aliveCount, minNodes);
            && (nodes != [] ==> minNodes > 0 && aliveCount - |nodes| >= minNodes)
            && Distinct(nodes)
            && (forall n | n in nodes :: n in idle && n !in underWay)
  {
    RemovalExact(idle, underWay, aliveCount, minNodes);
    EligibleExact(idle, underWay);
  }

  // --- The floor --------------------------------------------------------------------------

  function SetOf(nodes: seq<string>): set<string> {
    set n | n in nodes
  }

  lemma {:induction false} SetOfSize(nodes: seq<string>)
    requires Distinct(nodes)
    ensures |SetOf(nodes)| == |nodes|
    decreases |nodes|
  {
    if nodes != [] {
      var shorter, last := nodes[..|nodes| - 1], nodes[|nodes| - 1];
      SetOfSize(shorter);
      assert nodes == shorter + [last] && last !in shorter;
      assert SetOf(nodes) == SetOf(shorter) + {last};
    }
  }

  /** What a reconcile chooses among alive nodes of which some are doomed already. */
  function Chosen(alive: set<string>, idle: seq<string>, underWay: set<string>, minNodes: int): set<string> {
    SetOf(RemovalNodes(idle, underWay, |alive|, minNodes))
  }

  /** The eligible nodes that go, in listing order. */
  function FirstEligible(alive: set<string>, idle: seq<string>, underWay: set<string>, minNodes: int): set<string> {
    var eligible := Eligible(idle, underWay);
    SetOf(eligible[..Quota(|eligible|, |alive|, minNodes)])
  }

  lemma {:induction false} ChosenAreFirst(alive: set<string>, idle: seq<string>, underWay: set<string>, minNodes: int)
    ensures Chosen(alive, idle, underWay, minNodes) == FirstEligible(alive, idle, underWay, minNodes)
  {
    RemovalExact(idle, underWay, |alive|, minNodes);
  }

  /** Room for the removals: every node that is doomed already is among the eligible ones that
      go, or the doomed and all eligible nodes together are within what the cluster has above
      the minimum. */
  predicate RoomToRemove(alive: set<string>, idle: seq<string>, underWay: set<string>, doomed: set<string>, minNodes: int) {
    && |alive| >= minNodes
    && (|| alive * doomed <= FirstEligible(alive, idle, underWay, minNodes)
        || |alive * doomed| + |SetOf(Eligible(idle, underWay)) - doomed| <= |alive| - minNodes)
  }

  lemma {:induction false} LeftOver(alive: set<string>, doomed: set<string>, chosen: set<string>)
    requires chosen <= alive
    ensures |alive - doomed - chosen| == |alive| - |alive * doomed + chosen|
    ensures |alive * doomed + chosen| == |alive * doomed| + |chosen - doomed|
    ensures !(alive * doomed <= chosen) ==> |alive * doomed + chosen| > |chosen|
    ensures alive * doomed <= chosen ==> |alive * doomed + chosen| == |chosen|
  {
    assert alive == (alive - doomed - chosen) + (alive * doomed + chosen);
    assert alive * doomed + chosen == alive * doomed + (chosen - doomed);
    if n :| n in alive * doomed && n !in chosen {
      SubsetSize(chosen + {n}, alive * doomed + chosen);
    } else {
      assert alive * doomed + chosen == chosen;
    }
  }

  lemma {:induction false} SubsetSize<T>(a: set<T>, b: set<T>)
    requires a <= b
    ensures |a| <= |b|
  {
    assert b == a + (b - a);
  }

  lemma {:induction false} DifferenceSize<T>(a: set<T>, b: set<T>)
    ensures |a - b| == |a| - |b * a|
  {
    assert a == (a - b) + b * a;
  }

  /** The nodes neither doomed before nor chosen now are at least minNodes if and only if
      there was room. */
  lemma {:induction false} FloorIffRoom(alive: set<string>, idle: seq<string>, underWay: set<string>, doomed: set<string>, minNodes: int)
    requires Distinct(idle) && minNodes > 0 && forall n | n in idle :: n in alive
    ensures |alive - doomed - Chosen(alive, idle, underWay, minNodes)| >= minNodes <==>
            RoomToRemove(alive, idle, underWay, doomed, minNodes)
  {
    var eligible, chosen := Eligible(idle, underWay), Chosen(alive, idle, underWay, minNodes);
    var removed := RemovalNodes(idle, underWay, |alive|, minNodes);
    RemovalExact(idle, underWay, |alive|, minNodes);
    ChosenAreFirst(alive, idle, underWay, minNodes);
    RemovalKeepsCount(idle, underWay, |alive|, minNodes);
    EligibleExact(idle, underWay);
    SetOfSize(removed);
    SetOfSize(eligible);
    LeftOver(alive, doomed, chosen);
    if |removed| == |eligible| {
      assert eligible[..|eligible|] == eligible && chosen == SetOf(eligible);
    } else {
      SubsetSize(SetOf(eligible), alive * doomed + (SetOf(eligible) - doomed));
    }
  }

  /** In terms of what one reconcile reads: when it is done, the alive nodes that are not
      under removal are at least minNodes if and only if the cluster had that many alive and
      either no alive node was under removal before, or the nodes under removal and the
      eligible ones together are within what it had above the minimum. */
  lemma {:induction false} FloorAfterReconcile(requests: Requests, facts: Facts, cfg: Config)
    requires ValidFacts(facts) && cfg.minNodes > 0
    ensures var alive, underWay := facts.Alive(), UnderWay(requests);
            |alive - underWay - Chosen(alive, facts.idle, underWay, cfg.minNodes)| >= cfg.minNodes <==>
            && |alive| >= cfg.minNodes
            && (alive !! underWay || |alive * underWay| + |Eligible(facts.idle, underWay)| <= |alive| - cfg.minNodes)
  {
    var alive, underWay := facts.Alive(), UnderWay(requests);
    FloorIffRoom(alive, facts.idle, underWay, underWay, cfg.minNodes);
    FirstNotUnderWay(alive, facts.idle, underWay, cfg.minNodes);
  }

  lemma {:induction false} FirstNotUnderWay(alive: set<string>, idle: seq<string>, underWay: set<string>, minNodes: int)
    requires Distinct(idle)
    ensures alive * underWay <= FirstEligible(alive, idle, underWay, minNodes) <==> alive !! underWay
    ensures |SetOf(Eligible(idle, underWay)) - underWay| == |Eligible(idle, underWay)|
  {
    EligibleExact(idle, underWay);
    SetOfSize(Eligible(idle, underWay));
    assert SetOf(Eligible(idle, underWay)) - underWay == SetOf(Eligible(idle, underWay));
    assert FirstEligible(alive, idle, underWay, minNodes) !! underWay;
  }

  /** Three nodes alive, a minimum of two, one removal under way: a second one is chosen, and
      one node is left when both are done. */
  lemma {:induction false} SecondRemovalBreaksFloor(a: string, b: string, c: string)
    requires a != b && b != c && a != c
    ensures var requests := map[Removal(a) := Request(Removing, Some(a))];
            var facts := Facts({a, b}, {c}, [a, b], []);
            && RemovalNodes(facts.idle, UnderWay(requests), |facts.Alive()|, 2) == [b]
            && |facts.Alive() - UnderWay(requests) - {b}| == 1
  {
    var requests := map[Removal(a) := Request(Removing, Some(a))];
    var facts := Facts({a, b}, {c}, [a, b], []);
    assert facts.Alive() == {a, b, c};
    assert Removal(a) in requests && UnderWay(requests) == {a};
    assert [a, b][..1] == [a] && [a][..0] == [];
    assert Eligible([a], {a}) == [];
    RemovalExact(facts.idle, {a}, 3, 2);
    assert facts.Alive() - {a} - {b} == {c};
  }

  function FinishedIds(ids: seq<RequestId>, requests: Requests): seq<RequestId>
    decreases |ids|
  {
    if ids == [] then []
    else
      var earlier, id := FinishedIds(ids[..|ids| - 1], requests), ids[|ids| - 1];
      if id in requests && Finished(requests[id]) then earlier + [id] else earlier
  }

  method CleanupReadyCapacityRequests(ids: seq<RequestId>, requests: Requests) returns (finished: seq<RequestId>)
    ensures finished == FinishedIds(ids, requests)
  {
    finished := [];
    for i := 0 to |ids|
      invariant finished == FinishedIds(ids[..i], requests)
    {
      assert ids[..i + 1][..i] == ids[..i];
      if ids[i] in requests && Finished(requests[ids[i]]) {
        finished := finished + [ids[i]];
      }
    }
    assert ids[..|ids|] == ids;
  }

  lemma {:induction false} FinishedIdsExact(ids: seq<RequestId>, requests: Requests)
    requires Distinct(ids)
    ensures var finished := FinishedIds(ids, requests);
            && Distinct(finished)
            && (forall id :: id in finished <==> id in ids && id in requests && (requests[id].state.Ready? || requests[id].state.Failed?))
    decreases |ids|
  {
    if ids != [] {
      FinishedIdsExact(ids[..|ids| - 1], requests);
    }
  }

  function NewSlots(requests: Requests, facts: Facts, cfg: Config): int {
    cfg.Cap() - (|facts.aliveAuto| + |InFlightIds(requests)|)
  }

  function PutsPending(instances: seq<string>): (changes: seq<Change>)
    ensures |changes| == |instances|
    ensures forall i | 0 <= i < |instances| :: changes[i] == PutPending(instances[i])
  {
    seq(|instances|, i requires 0 <= i < |instances| => PutPending(instances[i]))
  }

  function PutsRemoving(nodes: seq<string>): (changes: seq<Change>)
    ensures |changes| == |nodes|
    ensures forall i | 0 <= i < |nodes| :: changes[i] == PutRemoving(nodes[i])
  {
    seq(|nodes|, i requires 0 <= i < |nodes| => PutRemoving(nodes[i]))
  }

  function Deletes(ids: seq<RequestId>): (changes: seq<Change>)
    ensures |changes| == |ids|
    ensures forall i | 0 <= i < |ids| :: changes[i] == DeleteRequest(ids[i])
  {
    seq(|ids|, i requires 0 <= i < |ids| => DeleteRequest(ids[i]))
  }

  /** The change groups one reconcile proposes. */
  function Batch(ids: seq<RequestId>, requests: Requests, facts: Facts, cfg: Config): seq<Change> {
    var created := NewInstances(facts.demand, requests, NewSlots(requests, facts, cfg));
    var removed := RemovalNodes(facts.idle, UnderWay(requests), |facts.Alive()|, cfg.minNodes);
    var finished := FinishedIds(ids, requests);
    PutsPending(created) + PutsRemoving(removed) + Deletes(finished)
  }

  method Reconcile(ids: seq<RequestId>, requests: Requests, facts: Facts, cfg: Config) returns (changes: seq<Change>)
    ensures changes == Batch(ids, requests, facts, cfg)
  {
    var maxNodes := cfg.maxNodes;
    if maxNodes == 0 {
      maxNodes := DEFAULT_MAX_CLUSTER_NODES;
    }
    var inFlightCount := CountInFlightCapacityRequests(requests);
    var created := BuildNewCapacityRequests(facts.demand, requests, maxNodes - (|facts.aliveAuto| + inFlightCount));
    var removed := EmitScaleDownRequests(facts.idle, UnderWay(requests), |facts.Alive()|, cfg.minNodes);
    var finished := CleanupReadyCapacityRequests(ids, requests);
    changes := PutsPending(created) + PutsRemoving(removed) + Deletes(finished);
  }

  ghost predicate ValidFacts(facts: Facts) {
    Distinct(facts.demand) && Distinct(facts.idle) && forall n | n in facts.idle :: n in facts.aliveAuto
  }

  /** What the batch is meant to hold. */
  predicate Proposes(requests: Requests, facts: Facts, cfg: Config, change: Change) {
    match change
    case PutPending(x) => x in NewInstances(facts.demand, requests, NewSlots(requests, facts, cfg))
    case PutRemoving(n) => n in RemovalNodes(facts.idle, UnderWay(requests), |facts.Alive()|, cfg.minNodes)
    case DeleteRequest(done) => done in requests && Finished(requests[done])
  }

  lemma {:induction false} BatchExact(ids: seq<RequestId>, requests: Requests, facts: Facts, cfg: Config, change: Change)
    requires Lists(ids, requests.Keys) && ValidFacts(facts)
    ensures change in Batch(ids, requests, facts, cfg) <==> Proposes(requests, facts, cfg, change)
  {
    FinishedIdsExact(ids, requests);
    var created := NewInstances(facts.demand, requests, NewSlots(requests, facts, cfg));
    var removed := RemovalNodes(facts.idle, UnderWay(requests), |facts.Alive()|, cfg.minNodes);
    PutsContain(created, removed, FinishedIds(ids, requests), change);
  }

  lemma {:induction false} PutsContain(created: seq<string>, removed: seq<string>, finished: seq<RequestId>, change: Change)
    ensures change in PutsPending(created) + PutsRemoving(removed) + Deletes(finished) <==>
            || (change.PutPending? && change.instance in created)
            || (change.PutRemoving? && change.nodeId in removed)
            || (change.DeleteRequest? && change.id in finished)
  {
    var puts, removals, deletes := PutsPending(created), PutsRemoving(removed), Deletes(finished);
    if change.PutPending? && change.instance in created {
      var i :| 0 <= i < |created| && created[i] == change.instance;
      assert puts[i] == change;
    }
    if change.PutRemoving? && change.nodeId in removed {
      var i :| 0 <= i < |removed| && removed[i] == change.nodeId;
      assert removals[i] == change;
    }
    if change.DeleteRequest? && change.id in finished {
      var i :| 0 <= i < |finished| && finished[i] == change.id;
      assert deletes[i] == change;
    }
  }

  /** How many new requests a reconcile may propose: the maximum, 100 if none is set, less the
      alive auto-nodes and the requests that are pending or launching. */
  lemma {:induction false} SlotsMeant(requests: Requests, facts: Facts, cfg: Config)
    ensures NewSlots(requests, facts, cfg) ==
            (if cfg.maxNodes == 0 then 100 else cfg.maxNodes) - |facts.aliveAuto| -
            |set id | id in requests && (requests[id].state.Pending? || requests[id].state.Launching?)|
  {
    assert InFlightIds(requests) == set id | id in requests && (requests[id].state.Pending? || requests[id].state.Launching?);
  }

  // --- Committing a batch ------------------------------------------------------------

  /** Two groups touch the same request, and so the same store keys. */
  ghost predicate HasDuplicate(batch: seq<Change>) {
    exists i, j :: 0 <= i < j < |batch| && Target(batch[i]) == Target(batch[j])
  }

  function ApplyChange(requests: Requests, change: Change): Requests {
    match change
    case PutPending(x) => requests[ScaleUp(x) := Request(Pending, None)]
    case PutRemoving(n) => requests[Removal(n) := Request(Removing, Some(n))]
    case DeleteRequest(done) => requests - {done}
  }

  /** The groups selected for the transaction, applied in order. The runner keeps whole
      groups and may leave some for the next cycle. */
  function Applied(requests: Requests, batch: seq<Change>, kept: set<RequestId>): Requests
    decreases |batch|
  {
    if batch == [] then requests
    else
      var earlier, change := Applied(requests, batch[..|batch| - 1], kept), batch[|batch| - 1];
      if Target(change) in kept then ApplyChange(earlier, change) else earlier
  }

  /** The runner rejects a batch that writes one key twice. */
  ghost function Committed(requests: Requests, batch: seq<Change>, kept: set<RequestId>): Requests {
    if HasDuplicate(batch) then requests else Applied(requests, batch, kept)
  }

  /** No reconcile both puts and deletes a scale-up request. */
  lemma {:induction false} ScaleUpPutsAndDeletesDisjoint(ids: seq<RequestId>, requests: Requests, facts: Facts, cfg: Config, x: string)
    requires Lists(ids, requests.Keys) && ValidFacts(facts)
    ensures !(PutPending(x) in Batch(ids, requests, facts, cfg) && DeleteRequest(ScaleUp(x)) in Batch(ids, requests, facts, cfg))
  {
    BatchExact(ids, requests, facts, cfg, PutPending(x));
    BatchExact(ids, requests, facts, cfg, DeleteRequest(ScaleUp(x)));
    NewInstancesExact(facts.demand, requests, NewSlots(requests, facts, cfg));
  }

  /** An idle node chosen for removal still has a finished removal request. */
  ghost predicate RemovalCollides(requests: Requests, facts: Facts, cfg: Config) {
    exists n :: n in RemovalNodes(facts.idle, UnderWay(requests), |facts.Alive()|, cfg.minNodes)
                && Removal(n) in requests && Finished(requests[Removal(n)])
  }

  /** A batch writes one key twice, and is rejected whole, exactly when it removes a node
      whose earlier removal request has finished and is being cleaned up. */
  lemma {:induction false} RejectedIffRemovalCollides(ids: seq<RequestId>, requests: Requests, facts: Facts, cfg: Config)
    requires Lists(ids, requests.Keys) && ValidFacts(facts)
    ensures HasDuplicate(Batch(ids, requests, facts, cfg)) <==> RemovalCollides(requests, facts, cfg)
  {
    var created := NewInstances(facts.demand, requests, NewSlots(requests, facts, cfg));
    var removed := RemovalNodes(facts.idle, UnderWay(requests), |facts.Alive()|, cfg.minNodes);
    var finished := FinishedIds(ids, requests);
    var batch := Batch(ids, requests, facts, cfg);
    NewInstancesExact(facts.demand, requests, NewSlots(requests, facts, cfg));
    RemovalKeepsCount(facts.idle, UnderWay(requests), |facts.Alive()|, cfg.minNodes);
    FinishedIdsExact(ids, requests);
    if RemovalCollides(requests, facts, cfg) {
      var n :| n in removed && Removal(n) in requests && Finished(requests[Removal(n)]);
      SharedTarget(created, removed, finished, n);
    } else {
      forall i, j | 0 <= i < j < |batch| ensures Target(batch[i]) != Target(batch[j]) {
        DistinctTargets(created, removed, finished, i, j);
      }
    }
  }

  lemma {:induction false} SharedTarget(created: seq<string>, removed: seq<string>, finished: seq<RequestId>, n: string)
    requires n in removed && Removal(n) in finished
    ensures HasDuplicate(PutsPending(created) + PutsRemoving(removed) + Deletes(finished))
  {
    var batch := PutsPending(created) + PutsRemoving(removed) + Deletes(finished);
    var i :| 0 <= i < |removed| && removed[i] == n;
    var j :| 0 <= j < |finished| && finished[j] == Removal(n);
    assert Target(batch[|created| + i]) == Target(batch[|created| + |removed| + j]);
  }

  lemma {:induction false} DistinctTargets(created: seq<string>, removed: seq<string>, finished: seq<RequestId>, i: nat, j: nat)
    requires Distinct(created) && Distinct(removed) && Distinct(finished)
    requires forall x | x in created :: ScaleUp(x) !in finished
    requires forall n | n in removed :: Removal(n) !in finished
    requires i < j < |created| + |removed| + |finished|
    ensures var batch := PutsPending(created) + PutsRemoving(removed) + Deletes(finished);
            Target(batch[i]) != Target(batch[j])
  {
    var batch := PutsPending(created) + PutsRemoving(removed) + Deletes(finished);
    forall k | 0 <= k < |batch|
      ensures Target(batch[k]) ==
              if k < |created| then ScaleUp(created[k])
              else if k < |created| + |removed| then Removal(removed[k - |created|])
              else finished[k - |created| - |removed|]
    {}
    if i < |created| && j >= |created| + |removed| { assert created[i] in created; }
    if |created| <= i < |created| + |removed| && j >= |created| + |removed| { assert removed[i - |created|] in removed; }
  }

  // --- The post-commit executor ---------------------------------------------------------

  /** The provider's answer to a request for a node: an error, or a node id (possibly
      empty). For a removal only success or error matters. */
  datatype Reply = ProviderError | Accepted(node: Option<string>)

  /** transitionCapacityRequest: an empty node id leaves the recorded one in place. */
  function Transition(request: Request, state: RequestState, node: Option<string>): Request {
    Request(state, if node.Some? then node else request.node)
  }

  /** What one post-commit pass does to one request. */
  function Executed(request: Request, reply: Reply, alive: set<string>): Request {
    match request.state
    case Pending =>
      if reply.ProviderError? then Transition(request, Failed, None) else Transition(request, Launching, reply.node)
    case Launching =>
      if request.node.Some? && request.node.value in alive then Transition(request, Ready, request.node) else request
    case Removing =>
      if request.node.None? || reply.ProviderError? then Transition(request, Failed, request.node)
      else Transition(request, Ready, request.node)
    case _ => request
  }

  /** The executor over the stored requests. */
  class CapacityExecutor {
    var requests: Requests

    constructor (requests: Requests)
      ensures this.requests == requests
    {
      this.requests := requests;
    }

    method TransitionCapacityRequest(id: RequestId, state: RequestState, node: Option<string>)
      requires id in requests
      modifies this
      ensures requests == old(requests)[id := Transition(old(requests)[id], state, node)]
    {
      var request := requests[id].(state := state);
      if node.Some? {
        request := request.(node := node);
      }
      requests := requests[id := request];
    }

    method ExecutePostCommitOperations(ids: seq<RequestId>, replies: map<RequestId, Reply>, alive: set<string>)
      requires Lists(ids, requests.Keys) && requests.Keys <= replies.Keys
      modifies this
      ensures requests == map id | id in old(requests) :: Executed(old(requests)[id], replies[id], alive)
    {
      var snapshot := requests;
      for i := 0 to |ids|
        invariant requests.Keys == snapshot.Keys
        invariant forall k | 0 <= k < i :: requests[ids[k]] == Executed(snapshot[ids[k]], replies[ids[k]], alive)
        invariant forall k | i <= k < |ids| :: requests[ids[k]] == snapshot[ids[k]]
      {
        var id := ids[i];
        var request, reply := snapshot[id], replies[id];
        match request.state
        case Pending =>
          if reply.ProviderError? {
            TransitionCapacityRequest(id, Failed, None);
          } else {
            TransitionCapacityRequest(id, Launching, reply.node);
          }
        case Launching =>
          if request.node.Some? && request.node.value in alive {
            TransitionCapacityRequest(id, Ready, request.node);
          }
        case Removing =>
          if request.node.None? {
            TransitionCapacityRequest(id, Failed, None);
          } else if reply.ProviderError? {
            TransitionCapacityRequest(id, Failed, request.node);
          } else {
            TransitionCapacityRequest(id, Ready, request.node);
          }
        case _ =>
      }
      forall id | id in snapshot ensures requests[id] == Executed(snapshot[id], replies[id], alive) {
        var k :| 0 <= k < |ids| && ids[k] == id;
      }
    }
  }

  // --- Runs ------------------------------------------------------------------------------

  datatype Nodes = Nodes(auto: set<string>, other: set<string>)

  /** The requests, the alive auto-nodes and other nodes, the nodes the provider has agreed to
      remove while they still show as alive, and the nodes a reconcile has read while it has
      not committed. */
  datatype World = World(
    requests: Requests,
    alive: set<string>,
    others: set<string>,
    removed: set<string>,
    scan: Option<Nodes>)

  datatype Step =
    | Scan
    | Commit(ids: seq<RequestId>, facts: Facts, kept: set<RequestId>)
    | Execute(id: RequestId, reply: Reply)
    | NodeUp(node: string)
    | NodeDown(node: string)
    | OtherUp(node: string)
    | OtherDown(node: string)

  ghost predicate LaunchingOn(requests: Requests, id: RequestId, node: string) {
    id in requests && requests[id].state.Launching? && requests[id].node == Some(node)
  }

  /** The controller scans, commits and executes one after the other; nodes come and go
      at any time. An auto-node comes alive only while a launching request names it. */
  ghost predicate Enabled(w: World, step: Step) {
    match step
    case Scan => w.scan.None?
    case Commit(ids, facts, _) =>
      w.scan == Some(Nodes(facts.aliveAuto, facts.aliveOther)) && Lists(ids, w.requests.Keys) && ValidFacts(facts)
    case Execute(id, _) => w.scan.None? && id in w.requests
    case NodeUp(node) => node !in w.alive + w.others && exists id :: LaunchingOn(w.requests, id, node)
    case NodeDown(node) => node in w.alive
    case OtherUp(node) => node !in w.alive + w.others
    case OtherDown(node) => node in w.others
  }

  ghost function Apply(cfg: Config, w: World, step: Step): World
    requires Enabled(w, step)
  {
    match step
    case Scan => w.(scan := Some(Nodes(w.alive, w.others)))
    case Commit(ids, facts, kept) =>
      w.(requests := Committed(w.requests, Batch(ids, w.requests, facts, cfg), kept), scan := None)
    case Execute(id, reply) =>
      var request := w.requests[id];
      w.(requests := w.requests[id := Executed(request, reply, w.alive)],
         removed := if request.state.Removing? && request.node.Some? && reply.Accepted? then w.removed + {request.node.value} else w.removed)
    case NodeUp(node) => w.(alive := w.alive + {node}, removed := w.removed - {node})
    case NodeDown(node) => w.(alive := w.alive - {node})
    case OtherUp(node) => w.(others := w.others + {node}, removed := w.removed - {node})
    case OtherDown(node) => w.(others := w.others - {node})
  }

  ghost function Run(cfg: Config, w: World, steps: seq<Step>): Option<World>
    decreases |steps|
  {
    if steps == [] then Some(w)
    else if Enabled(w, steps[0]) then Run(cfg, Apply(cfg, w, steps[0]), steps[1..])
    else None
  }

  /** A request still owed a node: pending, or launching with its node not yet alive. */
  predicate Owed(request: Request, alive: set<string>) {
    || request.state.Pending?
    || (request.state.Launching? && (request.node.None? || request.node.value !in alive))
  }

  function OwedIds(requests: Requests, alive: set<string>): set<RequestId> {
    set id | id in requests && Owed(requests[id], alive)
  }

  /** Nodes there are plus nodes on order. */
  function Load(w: World): int {
    |w.alive| + |OwedIds(w.requests, w.alive)|
  }

  /** A pending request names no node, and a removal under way names its own. */
  ghost predicate RequestsOk(requests: Requests) {
    forall id | id in requests ::
      && (requests[id].state.Pending? ==> requests[id].node.None?)
      && (if id.ScaleUp? then !requests[id].state.Removing? else !InFlight(requests[id]))
      && (requests[id].state.Removing? ==> requests[id].node == Some(id.nodeId))
  }

  ghost predicate Inv(w: World) {
    && RequestsOk(w.requests)
    && w.alive !! w.others
    && (w.scan.Some? ==> forall node | node in w.alive - w.scan.value.auto :: exists id :: LaunchingOn(w.requests, id, node))
  }

  /** What a commit does to each single request. */
  lemma {:induction false} AppliedShape(requests: Requests, batch: seq<Change>, kept: set<RequestId>, id: RequestId)
    ensures var after := Applied(requests, batch, kept);
            || Lookup(after, id) == Lookup(requests, id)
            || (id.ScaleUp? && PutPending(id.instance) in batch && Lookup(after, id) == Some(Request(Pending, None)))
            || (id.Removal? && PutRemoving(id.nodeId) in batch && Lookup(after, id) == Some(Request(Removing, Some(id.nodeId))))
            || (DeleteRequest(id) in batch && id !in after)
    decreases |batch|
  {
    if batch != [] {
      AppliedShape(requests, batch[..|batch| - 1], kept, id);
      assert batch[|batch| - 1] in batch;
    }
  }

  lemma {:induction false} CommittedShape(cfg: Config, w: World, step: Step, id: RequestId)
    requires Enabled(w, step) && step.Commit?
    ensures var after := Apply(cfg, w, step).requests;
            || Lookup(after, id) == Lookup(w.requests, id)
            || (id.ScaleUp? && id !in w.requests && Lookup(after, id) == Some(Request(Pending, None))
                && id.instance in NewInstances(step.facts.demand, w.requests, NewSlots(w.requests, step.facts, cfg)))
            || (id.Removal? && Lookup(after, id) == Some(Request(Removing, Some(id.nodeId)))
                && id.nodeId in RemovalNodes(step.facts.idle, UnderWay(w.requests), |step.facts.Alive()|, cfg.minNodes))
            || (id in w.requests && Finished(w.requests[id]) && id !in after)
  {
    AppliedShape(w.requests, Batch(step.ids, w.requests, step.facts, cfg), step.kept, id);
    if id.ScaleUp? {
      BatchExact(step.ids, w.requests, step.facts, cfg, PutPending(id.instance));
    } else {
      BatchExact(step.ids, w.requests, step.facts, cfg, PutRemoving(id.nodeId));
    }
    BatchExact(step.ids, w.requests, step.facts, cfg, DeleteRequest(id));
    NewInstancesExact(step.facts.demand, w.requests, NewSlots(w.requests, step.facts, cfg));
  }

  // --- Lifecycle ---------------------------------------------------------------------------

  /** What a step makes of a request for capacity: a commit may create it; executing it makes
      it launching on the node the provider names, or failed if the provider refuses, and then
      ready once that node is alive; a commit may delete it when ready or failed. */
  predicate LifecycleStep(w: World, step: Step, x: string, before: Option<Request>, after: Option<Request>) {
    var executed := step.Execute? && step.id == ScaleUp(x);
    match before
    case None => after.None? || (step.Commit? && after == Some(Request(Pending, None)))
    case Some(Request(Pending, _)) =>
      after == if !executed then before
               else if step.reply.Accepted? then Some(Request(Launching, step.reply.node))
               else Some(Request(Failed, None))
    case Some(Request(Launching, node)) =>
      after == if executed && node.Some? && node.value in w.alive then Some(Request(Ready, node)) else before
    case Some(Request(_, _)) => after == before || (step.Commit? && after.None?)
  }

  /** Every step of every run moves a scale-up request only along pending, launching, ready or
      pending, failed, and then deletes it, each for the stated cause. */
  lemma {:induction false} ScaleUpLifecycle(cfg: Config, w: World, step: Step, x: string)
    requires Inv(w) && Enabled(w, step)
    ensures LifecycleStep(w, step, x, Lookup(w.requests, ScaleUp(x)), Lookup(Apply(cfg, w, step).requests, ScaleUp(x)))
  {
    if step.Commit? {
      CommittedShape(cfg, w, step, ScaleUp(x));
    }
  }

  /** Executing a removal makes it ready if and only if it names a node and the provider
      removes it, failed otherwise; executing any request changes no other. */
  lemma {:induction false} ExecutedRemoval(cfg: Config, w: World, step: Step)
    requires Enabled(w, step) && step.Execute?
    ensures var t := Apply(cfg, w, step);
            && t.requests.Keys == w.requests.Keys
            && (forall other | other in w.requests && other != step.id :: t.requests[other] == w.requests[other])
            && (w.requests[step.id].state.Removing? ==>
                  t.requests[step.id] ==
                  Request(if w.requests[step.id].node.Some? && step.reply.Accepted? then Ready else Failed, w.requests[step.id].node))
            && (w.requests[step.id].state.Ready? || w.requests[step.id].state.Failed? ==> t.requests[step.id] == w.requests[step.id])
  {
  }

  // --- The invariant -------------------------------------------------------------------------

  lemma {:induction false} CommitRequestsOk(cfg: Config, w: World, step: Step)
    requires Inv(w) && Enabled(w, step) && step.Commit?
    ensures RequestsOk(Apply(cfg, w, step).requests)
  {
    var after := Apply(cfg, w, step).requests;
    forall id | id in after
      ensures (after[id].state.Pending? ==> after[id].node.None?)
              && (if id.ScaleUp? then !after[id].state.Removing? else !InFlight(after[id]))
              && (after[id].state.Removing? ==> after[id].node == Some(id.nodeId))
    {
      CommittedShape(cfg, w, step, id);
    }
  }

  lemma {:induction false} StepKeeps(cfg: Config, w: World, step: Step)
    requires Inv(w) && Enabled(w, step)
    ensures Inv(Apply(cfg, w, step))
  {
    match step
    case Commit(_, _, _) => CommitRequestsOk(cfg, w, step);
    case NodeUp(up) =>
      if w.scan.Some? {
        forall node | node in w.alive + {up} - w.scan.value.auto ensures exists id :: LaunchingOn(w.requests, id, node) {
          assert node == up || node in w.alive - w.scan.value.auto;
        }
      }
    case NodeDown(down) =>
      if w.scan.Some? {
        forall node | node in w.alive - {down} - w.scan.value.auto ensures exists id :: LaunchingOn(w.requests, id, node) {
          assert node in w.alive - w.scan.value.auto;
        }
      }
    case _ =>
  }

  // --- The node cap ----------------------------------------------------------------------------

  lemma {:induction false} ImageSize(ids: set<RequestId>, requests: Requests, nodes: set<string>)
    requires ids <= requests.Keys
    requires forall node | node in nodes :: exists id :: id in ids && requests[id].node == Some(node)
    ensures |nodes| <= |ids|
    decreases ids
  {
    if nodes != {} {
      var node :| node in nodes;
      var id :| id in ids && requests[id].node == Some(node);
      forall other | other in nodes - {node} ensures exists k :: k in ids - {id} && requests[k].node == Some(other) {
        var k :| k in ids && requests[k].node == Some(other);
        assert k in ids - {id};
      }
      ImageSize(ids - {id}, requests, nodes - {node});
    }
  }

  ghost predicate Named(requests: Requests, node: string) {
    exists id :: LaunchingOn(requests, id, node)
  }

  /** Alive auto-nodes that no launching request names. */
  ghost function Unnamed(w: World): set<string> {
    set node | node in w.alive && !Named(w.requests, node)
  }

  /** What the cap is about: nodes that no request accounts for, and requests in flight. */
  ghost function Committal(w: World): int {
    |Unnamed(w)| + |InFlightIds(w.requests)|
  }

  /** It is never less than the nodes there are plus the nodes on order, also when the
      provider names one node for several requests. */
  lemma {:induction false} LoadWithinCommittal(w: World)
    ensures Load(w) <= Committal(w)
  {
    var owed, inFlight := OwedIds(w.requests, w.alive), InFlightIds(w.requests);
    var named := w.alive - Unnamed(w);
    forall node | node in named ensures exists id :: id in inFlight - owed && w.requests[id].node == Some(node) {
      var id :| LaunchingOn(w.requests, id, node);
      assert id in inFlight - owed;
    }
    ImageSize(inFlight - owed, w.requests, named);
    assert w.alive == Unnamed(w) + named;
    assert inFlight == owed + (inFlight - owed);
  }

  /** What the code counts, although it counts a launching request with an alive node
      twice and may have read the nodes before some came alive, is never less. */
  lemma {:induction false} CountedAtLeastCommittal(w: World)
    requires Inv(w) && w.scan.Some?
    ensures Committal(w) <= |w.scan.value.auto| + |InFlightIds(w.requests)|
  {
    assert forall node | node in w.alive - w.scan.value.auto :: Named(w.requests, node);
    assert Unnamed(w) <= w.scan.value.auto;
    SubsetSize(Unnamed(w), w.scan.value.auto);
  }

  lemma {:induction false} CommitKeepsNamed(cfg: Config, w: World, step: Step, node: string)
    requires Inv(w) && Enabled(w, step) && step.Commit?
    ensures Named(Apply(cfg, w, step).requests, node) <==> Named(w.requests, node)
  {
    var t := Apply(cfg, w, step);
    if id :| LaunchingOn(w.requests, id, node) {
      CommittedShape(cfg, w, step, id);
      assert LaunchingOn(t.requests, id, node);
    }
    if id :| LaunchingOn(t.requests, id, node) {
      CommittedShape(cfg, w, step, id);
      assert LaunchingOn(w.requests, id, node);
    }
  }

  lemma {:induction false} CommitKeepsCap(cfg: Config, w: World, step: Step)
    requires Inv(w) && Enabled(w, step) && step.Commit?
    ensures Committal(Apply(cfg, w, step)) <= Committal(w) || Committal(Apply(cfg, w, step)) <= cfg.Cap()
  {
    var t := Apply(cfg, w, step);
    var slots := NewSlots(w.requests, step.facts, cfg);
    var chosen := NewInstances(step.facts.demand, w.requests, slots);
    NewInstancesExact(step.facts.demand, w.requests, slots);
    var created := set x | x in chosen :: ScaleUp(x);
    CreatedSize(chosen);
    forall id | id in InFlightIds(t.requests) ensures id in InFlightIds(w.requests) + created {
      CommittedShape(cfg, w, step, id);
    }
    SubsetSize(InFlightIds(t.requests), InFlightIds(w.requests) + created);
    forall node ensures Named(t.requests, node) <==> Named(w.requests, node) { CommitKeepsNamed(cfg, w, step, node); }
    assert Unnamed(t) == Unnamed(w);
    CountedAtLeastCommittal(w);
  }

  lemma {:induction false} CreatedSize(chosen: seq<string>)
    ensures |set x | x in chosen :: ScaleUp(x)| <= |chosen|
    decreases |chosen|
  {
    if chosen != [] {
      var shorter, last := chosen[..|chosen| - 1], chosen[|chosen| - 1];
      CreatedSize(shorter);
      var all, some := set x | x in chosen :: ScaleUp(x), set x | x in shorter :: ScaleUp(x);
      assert all <= some + {ScaleUp(last)} by {
        forall id | id in all ensures id in some + {ScaleUp(last)} {
          var x :| x in chosen && id == ScaleUp(x);
          assert x in shorter || x == last;
        }
      }
      SubsetSize(all, some + {ScaleUp(last)});
    }
  }

  lemma {:induction false} NodeStepKeepsCommittal(cfg: Config, w: World, step: Step)
    requires Enabled(w, step) && !step.Commit? && !step.Execute?
    ensures Committal(Apply(cfg, w, step)) <= Committal(w)
  {
    var t := Apply(cfg, w, step);
    assert Unnamed(t) <= Unnamed(w);
    SubsetSize(Unnamed(t), Unnamed(w));
  }

  /** Only the node of a request that has become ready may lose the request that names it. */
  lemma {:induction false} ExecuteKeepsNamed(cfg: Config, w: World, step: Step, node: string)
    requires Enabled(w, step) && step.Execute? && Named(w.requests, node)
    ensures || Named(Apply(cfg, w, step).requests, node)
            || (w.requests[step.id].node == Some(node) && InFlight(w.requests[step.id])
                && !InFlight(Apply(cfg, w, step).requests[step.id]))
  {
    var t := Apply(cfg, w, step);
    var id :| LaunchingOn(w.requests, id, node);
    if id != step.id || t.requests[id].state.Launching? { assert LaunchingOn(t.requests, id, node); }
  }

  lemma {:induction false} ExecuteKeepsCommittal(cfg: Config, w: World, step: Step)
    requires Enabled(w, step) && step.Execute?
    ensures Committal(Apply(cfg, w, step)) <= Committal(w)
  {
    var t, before := Apply(cfg, w, step), w.requests[step.id];
    var done := InFlight(before) && !InFlight(t.requests[step.id]);
    var extra := if done && before.node.Some? then {before.node.value} else {};
    forall node | node in Unnamed(t) ensures node in Unnamed(w) + extra {
      if Named(w.requests, node) { ExecuteKeepsNamed(cfg, w, step, node); }
    }
    SubsetSize(Unnamed(t), Unnamed(w) + extra);
    ExecuteInFlight(cfg, w, step);
  }

  lemma {:induction false} ExecuteInFlight(cfg: Config, w: World, step: Step)
    requires Enabled(w, step) && step.Execute?
    ensures var t := Apply(cfg, w, step);
            InFlightIds(t.requests) ==
            if InFlight(w.requests[step.id]) && !InFlight(t.requests[step.id]) then InFlightIds(w.requests) - {step.id}
            else InFlightIds(w.requests)
  {
  }

  /** Once the committal is within the cap, every run of reconciles, post-commit operations
      and node changes keeps it there, and with it the nodes there are plus those on order. */
  lemma {:induction false} CapKeptInEveryRun(cfg: Config, w: World, steps: seq<Step>)
    requires Inv(w) && Run(cfg, w, steps).Some? && Committal(w) <= if cfg.maxNodes == 0 then 100 else cfg.maxNodes
    ensures var t := Run(cfg, w, steps).value;
            Inv(t) && Load(t) <= Committal(t) <= if cfg.maxNodes == 0 then 100 else cfg.maxNodes
    decreases |steps|
  {
    if steps == [] {
      LoadWithinCommittal(w);
    } else {
      var step := steps[0];
      StepKeeps(cfg, w, step);
      match step {
        case Commit(_, _, _) => CommitKeepsCap(cfg, w, step);
        case Execute(_, _) => ExecuteKeepsCommittal(cfg, w, step);
        case _ => NodeStepKeepsCommittal(cfg, w, step);
      }
      CapKeptInEveryRun(cfg, Apply(cfg, w, step), steps[1..]);
    }
  }

  /** Launching requests name different nodes. */
  ghost predicate NamesDiffer(requests: Requests) {
    forall id, other, node | LaunchingOn(requests, id, node) && LaunchingOn(requests, other, node) :: id == other
  }

  /** Where launching requests name different nodes, the committal is just the load. */
  lemma {:induction false} CommittalIsLoad(w: World)
    requires NamesDiffer(w.requests)
    ensures Committal(w) == Load(w)
  {
    LoadWithinCommittal(w);
    var arrived := InFlightIds(w.requests) - OwedIds(w.requests, w.alive);
    forall id | id in arrived ensures ArrivedAt(w, id) { Arrived(w, id); }
    NodesOfSize(arrived, w.requests, w.alive - Unnamed(w));
    CommittalSplits(w, arrived);
  }

  lemma {:induction false} CommittalSplits(w: World, arrived: set<RequestId>)
    requires arrived == InFlightIds(w.requests) - OwedIds(w.requests, w.alive)
    ensures Committal(w) == |w.alive| - |w.alive - Unnamed(w)| + |OwedIds(w.requests, w.alive)| + |arrived|
  {
    assert w.alive == Unnamed(w) + (w.alive - Unnamed(w));
    assert InFlightIds(w.requests) == OwedIds(w.requests, w.alive) + arrived;
  }

  /** The request is launching and its node is alive. */
  ghost predicate ArrivedAt(w: World, id: RequestId) {
    && id in w.requests && w.requests[id].state.Launching? && w.requests[id].node.Some?
    && w.requests[id].node.value in w.alive - Unnamed(w)
  }

  lemma {:induction false} Arrived(w: World, id: RequestId)
    requires id in InFlightIds(w.requests) - OwedIds(w.requests, w.alive)
    ensures ArrivedAt(w, id)
  {
    assert LaunchingOn(w.requests, id, w.requests[id].node.value);
  }

  lemma {:induction false} NodesOfSize(ids: set<RequestId>, requests: Requests, nodes: set<string>)
    requires ids <= requests.Keys && NamesDiffer(requests)
    requires forall id | id in ids :: requests[id].state.Launching? && requests[id].node.Some? && requests[id].node.value in nodes
    ensures |ids| <= |nodes|
    decreases ids
  {
    if ids != {} {
      var id :| id in ids;
      var node := requests[id].node.value;
      forall other | other in ids - {id} ensures requests[other].node.value in nodes - {node} {
        if requests[other].node.value == node {
          assert LaunchingOn(requests, id, node) && LaunchingOn(requests, other, node);
        }
      }
      NodesOfSize(ids - {id}, requests, nodes - {node});
      assert nodes == (nodes - {node}) + {node};
    }
  }

  /** So from a world whose launching requests name different nodes, once the nodes there are
      plus those on order are within the cap, they stay within it in every run, whatever
      nodes the provider names later. */
  lemma {:induction false} LoadKeptInEveryRun(cfg: Config, w: World, steps: seq<Step>)
    requires Inv(w) && NamesDiffer(w.requests) && Run(cfg, w, steps).Some?
    requires Load(w) <= if cfg.maxNodes == 0 then 100 else cfg.maxNodes
    ensures Load(Run(cfg, w, steps).value) <= if cfg.maxNodes == 0 then 100 else cfg.maxNodes
  {
    CommittalIsLoad(w);
    CapKeptInEveryRun(cfg, w, steps);
  }

  // --- The floor over runs ------------------------------------------------------------------------

  /** Nodes on their way out: a removal is under way, or the provider has agreed to one. */
  function Doomed(w: World): set<string> {
    UnderWay(w.requests) + w.removed
  }

  /** Alive nodes that stay. */
  function Serving(w: World): set<string> {
    w.alive + w.others - Doomed(w)
  }

  lemma {:induction false} UnderWayIs(requests: Requests, n: string)
    requires RequestsOk(requests)
    ensures n in UnderWay(requests) <==> Removal(n) in requests && requests[Removal(n)].state.Removing?
  {
    if Removal(n) in requests && requests[Removal(n)].state.Removing? {
      assert requests[Removal(n)].node.Some?;
    }
  }

  /** What a kept change leaves of its request. */
  function ResultOf(change: Change): Option<Request> {
    match change
    case PutPending(_) => Some(Request(Pending, None))
    case PutRemoving(n) => Some(Request(Removing, Some(n)))
    case DeleteRequest(_) => None
  }

  /** Without duplicates a kept change has its effect, and one that is not kept leaves the
      request as it was. */
  lemma {:induction false} ChangeApplied(requests: Requests, batch: seq<Change>, kept: set<RequestId>, i: nat)
    requires !HasDuplicate(batch) && i < |batch| && Target(batch[i]) in kept
    ensures Lookup(Applied(requests, batch, kept), Target(batch[i])) == ResultOf(batch[i])
    decreases |batch|
  {
    var shorter, last := batch[..|batch| - 1], batch[|batch| - 1];
    if i < |batch| - 1 {
      assert !HasDuplicate(shorter);
      ChangeApplied(requests, shorter, kept, i);
      assert Target(batch[i]) != Target(last);
    }
  }

  lemma {:induction false} NotKeptUntouched(requests: Requests, batch: seq<Change>, kept: set<RequestId>, id: RequestId)
    requires id !in kept
    ensures Lookup(Applied(requests, batch, kept), id) == Lookup(requests, id)
    decreases |batch|
  {
    if batch != [] { NotKeptUntouched(requests, batch[..|batch| - 1], kept, id); }
  }

  /** The removals a commit puts: none if the batch is rejected, otherwise those of the first
      eligible nodes that the runner keeps. */
  ghost function Removals(cfg: Config, w: World, step: Step): set<string>
    requires step.Commit?
  {
    if RemovalCollides(w.requests, step.facts, cfg) then {}
    else
      set n | n in FirstEligible(step.facts.Alive(), step.facts.idle, UnderWay(w.requests), cfg.minNodes) && Removal(n) in step.kept
  }

  /** A commit dooms exactly the nodes whose removal it puts. */
  lemma {:induction false} CommitDooms(cfg: Config, w: World, step: Step, n: string)
    requires Inv(w) && Enabled(w, step) && step.Commit?
    ensures n in UnderWay(Apply(cfg, w, step).requests) <==> n in UnderWay(w.requests) || n in Removals(cfg, w, step)
  {
    var batch, after := Batch(step.ids, w.requests, step.facts, cfg), Apply(cfg, w, step).requests;
    CommitRequestsOk(cfg, w, step);
    UnderWayIs(w.requests, n);
    UnderWayIs(after, n);
    CommittedShape(cfg, w, step, Removal(n));
    RejectedIffRemovalCollides(step.ids, w.requests, step.facts, cfg);
    ChosenAreFirst(step.facts.Alive(), step.facts.idle, UnderWay(w.requests), cfg.minNodes);
    if !HasDuplicate(batch) {
      if Removal(n) !in step.kept {
        NotKeptUntouched(w.requests, batch, step.kept, Removal(n));
      } else if n in Removals(cfg, w, step) {
        BatchExact(step.ids, w.requests, step.facts, cfg, PutRemoving(n));
        var i :| 0 <= i < |batch| && batch[i] == PutRemoving(n);
        ChangeApplied(w.requests, batch, step.kept, i);
      }
    }
  }

  /** What a commit makes of each request, when the batch is not rejected: new and chosen ones
      are put, ready and failed ones deleted, as far as the runner keeps them; all others
      stay. */
  lemma {:induction false} CommitMeans(cfg: Config, w: World, step: Step, id: RequestId)
    requires Inv(w) && Enabled(w, step) && step.Commit? && !RemovalCollides(w.requests, step.facts, cfg)
    ensures Lookup(Apply(cfg, w, step).requests, id) ==
            if id !in step.kept then Lookup(w.requests, id)
            else if id.ScaleUp? && id.instance in NewInstances(step.facts.demand, w.requests, NewSlots(w.requests, step.facts, cfg))
            then Some(Request(Pending, None))
            else if id.Removal? && id.nodeId in RemovalNodes(step.facts.idle, UnderWay(w.requests), |step.facts.Alive()|, cfg.minNodes)
            then Some(Request(Removing, Some(id.nodeId)))
            else if id in w.requests && (w.requests[id].state.Ready? || w.requests[id].state.Failed?) then None
            else Lookup(w.requests, id)
  {
    var batch := Batch(step.ids, w.requests, step.facts, cfg);
    RejectedIffRemovalCollides(step.ids, w.requests, step.facts, cfg);
    if id !in step.kept {
      NotKeptUntouched(w.requests, batch, step.kept, id);
    } else {
      var put := if id.ScaleUp? then PutPending(id.instance) else PutRemoving(id.nodeId);
      BatchExact(step.ids, w.requests, step.facts, cfg, put);
      BatchExact(step.ids, w.requests, step.facts, cfg, DeleteRequest(id));
      if i :| 0 <= i < |batch| && Target(batch[i]) == id {
        ChangeApplied(w.requests, batch, step.kept, i);
      } else {
        forall change | change in batch ensures Target(change) != id {}
        NotTargetedUntouched(w.requests, batch, step.kept, id);
      }
    }
  }

  lemma {:induction false} NotTargetedUntouched(requests: Requests, batch: seq<Change>, kept: set<RequestId>, id: RequestId)
    requires forall change | change in batch :: Target(change) != id
    ensures Lookup(Applied(requests, batch, kept), id) == Lookup(requests, id)
    decreases |batch|
  {
    if batch != [] {
      assert batch[|batch| - 1] in batch;
      NotTargetedUntouched(requests, batch[..|batch| - 1], kept, id);
    }
  }

  lemma {:induction false} CommitServing(cfg: Config, w: World, step: Step)
    requires Inv(w) && Enabled(w, step) && step.Commit?
    ensures Serving(Apply(cfg, w, step)) == Serving(w) - Removals(cfg, w, step)
  {
    var t := Apply(cfg, w, step);
    forall n ensures n in UnderWay(t.requests) <==> n in UnderWay(w.requests) || n in Removals(cfg, w, step) {
      CommitDooms(cfg, w, step, n);
    }
  }

  lemma {:induction false} OtherStepsServing(cfg: Config, w: World, step: Step)
    requires Inv(w) && Enabled(w, step) && !step.Commit?
    ensures step.NodeDown? || step.OtherDown? ==> Serving(Apply(cfg, w, step)) == Serving(w) - {step.node}
    ensures !step.NodeDown? && !step.OtherDown? ==> Serving(w) <= Serving(Apply(cfg, w, step))
  {
    if step.Execute? {
      StepKeeps(cfg, w, step);
      var t := Apply(cfg, w, step);
      forall n | n in Doomed(t) ensures n in Doomed(w) {
        UnderWayIs(w.requests, n);
        UnderWayIs(t.requests, n);
      }
    }
  }

  /** When a step leaves minNodes serving: a commit that puts removals of no more serving nodes
      than can be spared, the loss of a node that was doomed anyway or can be spared, and every
      other step. */
  ghost predicate KeepsFloor(cfg: Config, w: World, step: Step) {
    match step
    case Commit(_, _, _) => |Removals(cfg, w, step) * Serving(w)| <= |Serving(w)| - cfg.minNodes
    case NodeDown(node) => node in Doomed(w) || |Serving(w)| > cfg.minNodes
    case OtherDown(node) => node in Doomed(w) || |Serving(w)| > cfg.minNodes
    case _ => true
  }

  /** With minNodes serving, any step, also a commit of part of a batch or over nodes that have
      changed since the scan, leaves minNodes serving if and only if the condition holds. */
  lemma {:induction false} StepKeepsFloorIff(cfg: Config, w: World, step: Step)
    requires Inv(w) && Enabled(w, step) && |Serving(w)| >= cfg.minNodes
    ensures |Serving(Apply(cfg, w, step))| >= cfg.minNodes <==> KeepsFloor(cfg, w, step)
  {
    if step.Commit? {
      CommitServing(cfg, w, step);
      DifferenceSize(Serving(w), Removals(cfg, w, step));
    } else {
      OtherStepsServing(cfg, w, step);
      if step.NodeDown? || step.OtherDown? {
        DifferenceSize(Serving(w), {step.node});
      } else {
        SubsetSize(Serving(w), Serving(Apply(cfg, w, step)));
      }
    }
  }

  /** All of the batch is kept and none of it rejected. */
  ghost predicate Whole(cfg: Config, w: World, step: Step)
    requires step.Commit?
  {
    && !RemovalCollides(w.requests, step.facts, cfg)
    && forall n | n in FirstEligible(step.facts.Alive(), step.facts.idle, UnderWay(w.requests), cfg.minNodes) :: Removal(n) in step.kept
  }

  /** For a whole commit the condition in terms of the nodes the reconcile has read: they leave
      minNodes, after taking off those lost since then and adding those gained, as far as they
      would have been or are serving. */
  lemma {:induction false} FloorAfterWholeCommit(cfg: Config, w: World, step: Step)
    requires Inv(w) && Enabled(w, step) && step.Commit? && Whole(cfg, w, step)
    ensures var alive, nodes := step.facts.Alive(), w.alive + w.others;
            var kept := alive - Doomed(w) - FirstEligible(alive, step.facts.idle, UnderWay(w.requests), cfg.minNodes);
            |Serving(Apply(cfg, w, step))| == |kept| - |kept - nodes| + |nodes - alive - Doomed(w)|
  {
    CommitServing(cfg, w, step);
    var alive, nodes := step.facts.Alive(), w.alive + w.others;
    var chosen := FirstEligible(alive, step.facts.idle, UnderWay(w.requests), cfg.minNodes);
    var kept := alive - Doomed(w) - chosen;
    ChosenAreFirst(alive, step.facts.idle, UnderWay(w.requests), cfg.minNodes);
    RemovalKeepsCount(step.facts.idle, UnderWay(w.requests), |alive|, cfg.minNodes);
    assert Removals(cfg, w, step) == chosen <= alive;
    assert Serving(Apply(cfg, w, step)) == (kept - (kept - nodes)) + (nodes - alive - Doomed(w));
    assert kept == (kept - (kept - nodes)) + (kept - nodes);
  }

  /** And over the nodes as they are, it is that there was room. */
  lemma {:induction false} FloorIffRoomInRun(cfg: Config, w: World, step: Step)
    requires Inv(w) && Enabled(w, step) && step.Commit? && Whole(cfg, w, step)
    requires step.facts.Alive() == w.alive + w.others && cfg.minNodes > 0
    ensures |Serving(Apply(cfg, w, step))| >= cfg.minNodes <==>
            RoomToRemove(step.facts.Alive(), step.facts.idle, UnderWay(w.requests), Doomed(w), cfg.minNodes)
  {
    FloorAfterWholeCommit(cfg, w, step);
    ChosenAreFirst(step.facts.Alive(), step.facts.idle, UnderWay(w.requests), cfg.minNodes);
    FloorIffRoom(step.facts.Alive(), step.facts.idle, UnderWay(w.requests), Doomed(w), cfg.minNodes);
    var alive := step.facts.Alive();
    assert alive - alive - Doomed(w) == {};
  }

  /** Every step of the run meets the condition. */
  ghost predicate FloorSafe(cfg: Config, w: World, steps: seq<Step>)
    requires Run(cfg, w, steps).Some?
    decreases |steps|
  {
    steps != [] ==> KeepsFloor(cfg, w, steps[0]) && FloorSafe(cfg, Apply(cfg, w, steps[0]), steps[1..])
  }

  /** Such runs, with stale reads and partial commits, keep minNodes serving throughout. */
  lemma {:induction false} FloorKeptInEveryRun(cfg: Config, w: World, steps: seq<Step>)
    requires Inv(w) && Run(cfg, w, steps).Some? && FloorSafe(cfg, w, steps) && |Serving(w)| >= cfg.minNodes
    ensures |Serving(Run(cfg, w, steps).value)| >= cfg.minNodes
    decreases |steps|
  {
    if steps != [] {
      StepKeeps(cfg, w, steps[0]);
      StepKeepsFloorIff(cfg, w, steps[0]);
      FloorKeptInEveryRun(cfg, Apply(cfg, w, steps[0]), steps[1..]);
    }
  }

  // --- When the autoscaler is wedged ------------------------------------------------------------

  /** A node among the first idle ones, as many as are above the minimum, is chosen. */
  lemma {:induction false} EarlyIdleChosen(idle: seq<string>, underWay: set<string>, aliveCount: int, minNodes: int, p: nat)
    requires p < |idle| && idle[p] !in underWay && minNodes > 0 && p < aliveCount - minNodes
    ensures idle[p] in RemovalNodes(idle, underWay, aliveCount, minNodes)
    decreases |idle|
  {
    var shorter := idle[..|idle| - 1];
    if p < |shorter| {
      EarlyIdleChosen(shorter, underWay, aliveCount, minNodes, p);
    } else {
      FewRemovals(shorter, underWay, aliveCount, minNodes);
    }
  }

  lemma {:induction false} FewRemovals(idle: seq<string>, underWay: set<string>, aliveCount: int, minNodes: int)
    ensures |RemovalNodes(idle, underWay, aliveCount, minNodes)| <= |idle|
    decreases |idle|
  {
    if idle != [] { FewRemovals(idle[..|idle| - 1], underWay, aliveCount, minNodes); }
  }

  /** The facts a reconcile reads show the node idle, with no more idle nodes up to it than
      the cluster has alive above the minimum. */
  ghost predicate StaysRemovable(facts: Facts, cfg: Config, node: string) {
    cfg.minNodes > 0 && exists p :: 0 <= p < |facts.idle| && facts.idle[p] == node && p < |facts.Alive()| - cfg.minNodes
  }

  ghost predicate FinishedRemoval(requests: Requests, node: string) {
    Removal(node) in requests && Finished(requests[Removal(node)])
  }

  lemma {:induction false} StaysRemovableCollides(requests: Requests, facts: Facts, cfg: Config, node: string)
    requires RequestsOk(requests) && FinishedRemoval(requests, node) && StaysRemovable(facts, cfg, node)
    ensures RemovalCollides(requests, facts, cfg)
  {
    var p :| 0 <= p < |facts.idle| && facts.idle[p] == node && p < |facts.Alive()| - cfg.minNodes;
    UnderWayIs(requests, node);
    EarlyIdleChosen(facts.idle, UnderWay(requests), |facts.Alive()|, cfg.minNodes, p);
  }

  /** One finished removal of a node that stays idle wedges the autoscaler: however nodes come
      and go and whatever is executed, no request is created or deleted again. */
  lemma {:induction false} CollisionWedges(cfg: Config, w: World, steps: seq<Step>, node: string)
    requires Inv(w) && Run(cfg, w, steps).Some? && FinishedRemoval(w.requests, node)
    requires forall i | 0 <= i < |steps| && steps[i].Commit? :: StaysRemovable(steps[i].facts, cfg, node)
    ensures var t := Run(cfg, w, steps).value;
            t.requests.Keys == w.requests.Keys && t.requests[Removal(node)] == w.requests[Removal(node)]
    decreases |steps|
  {
    if steps != [] {
      var step := steps[0];
      if step.Commit? {
        StaysRemovableCollides(w.requests, step.facts, cfg, node);
        RejectedIffRemovalCollides(step.ids, w.requests, step.facts, cfg);
      }
      StepKeeps(cfg, w, step);
      CollisionWedges(cfg, Apply(cfg, w, step), steps[1..], node);
    }
  }

  /** A failed removal of a node that stays alive and idle is enough. */
  lemma {:induction false} FailedRemovalCollides(node: string, other: string)
    requires node != other
    ensures RemovalCollides(map[Removal(node) := Request(Failed, Some(node))], Facts({node}, {other}, [node], []), Config(1, 10))
  {
    var facts := Facts({node}, {other}, [node], []);
    assert facts.Alive() == {node, other} && facts.idle[0] == node;
    assert StaysRemovable(facts, Config(1, 10), node);
    StaysRemovableCollides(map[Removal(node) := Request(Failed, Some(node))], facts, Config(1, 10), node);
  }
}
