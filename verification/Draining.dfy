/** Node draining (controllers/drain.go): one eviction per service and draining node per
    cycle, under disruption budgets counted over the whole cluster. */
module Draining {
  import opened Listings

  /** At most one field is set; a budget that sets none allows everything. */
  datatype Budget = Budget(minAvailable: int, maxUnavailable: int)

  /** What a cycle reads: draining nodes, placements, effective instance states, service
      membership, budgets, desired counts, and the eviction and drain-complete markers. */
  datatype Facts = Facts(
    draining: set<string>,
    placement: map<string, string>,
    states: map<string, string>,
    services: map<string, string>,
    budgets: map<string, Budget>,
    desired: map<string, int>,
    evicted: set<string>,
    complete: set<string>)

  function ServiceOf(f: Facts, instance: string): string {
    if instance in f.services then f.services[instance] else ""
  }

  predicate IsActive(f: Facts, instance: string) {
    instance in f.states && (f.states[instance] == "running" || f.states[instance] == "pending" || f.states[instance] == "starting")
  }

  /** Active and not marked for eviction. */
  predicate Standing(f: Facts, instance: string) {
    IsActive(f, instance) && instance !in f.evicted
  }

  /** All instances of a service, cluster-wide, that are running, pending or starting and not
      marked for eviction. */
  function StandingOf(f: Facts, service: string): set<string> {
    set i | i in f.states && f.states[i] in {"running", "pending", "starting"} && i !in f.evicted
            && (if i in f.services then f.services[i] else "") == service
  }

  function CountOf(counts: map<string, int>, service: string): int {
    if service in counts then counts[service] else 0
  }

  /** canEvictUnderDisruptionBudget, with `active` the current count. */
  predicate CanEvict(f: Facts, service: string, active: int) {
    if service !in f.budgets then true
    else
      var budget := f.budgets[service];
      if budget.minAvailable > 0 then active - 1 >= budget.minAvailable
      else if budget.maxUnavailable > 0 then
        var desired := CountOf(f.desired, service);
        desired == 0 || desired - active + 1 <= budget.maxUnavailable
      else true
  }

  /** What a service's budget promises when `active` instances are left. */
  predicate Respects(f: Facts, service: string, active: int) {
    service in f.budgets ==>
      var budget := f.budgets[service];
      if budget.minAvailable > 0 then active >= budget.minAvailable
      else budget.maxUnavailable > 0 && CountOf(f.desired, service) != 0 ==>
             CountOf(f.desired, service) - active <= budget.maxUnavailable
  }

  // --- Counting ---------------------------------------------------------------------------

  /** How many of the listed instances are standing members of the service. */
  function StandingIn(f: Facts, ids: seq<string>, service: string): nat
    decreases |ids|
  {
    if ids == [] then 0
    else
      var id := ids[|ids| - 1];
      StandingIn(f, ids[..|ids| - 1], service) + if Standing(f, id) && ServiceOf(f, id) == service then 1 else 0
  }

  method CountGlobalActiveInstancesByService(f: Facts, ids: seq<string>) returns (counts: map<string, int>)
    ensures "" !in counts
    ensures forall s | s != "" :: CountOf(counts, s) == StandingIn(f, ids, s)
  {
    counts := map[];
    for k := 0 to |ids|
      invariant "" !in counts
      invariant forall s | s != "" :: CountOf(counts, s) == StandingIn(f, ids[..k], s)
    {
      var id := ids[k];
      assert ids[..k + 1][..k] == ids[..k];
      if id in f.evicted {
        continue;
      }
      if IsActive(f, id) {
        var service := ServiceOf(f, id);
        if service != "" {
          counts := counts[service := CountOf(counts, service) + 1];
        }
      }
    }
    assert ids[..|ids|] == ids;
  }

  predicate StandingFor(f: Facts, service: string, instance: string) {
    Standing(f, instance) && ServiceOf(f, instance) == service
  }

  function Among(f: Facts, ids: seq<string>, service: string): set<string> {
    set i | i in ids && StandingFor(f, service, i)
  }

  /** Counting through the list is counting the set. */
  lemma {:induction false} StandingInSize(f: Facts, ids: seq<string>, service: string)
    requires Distinct(ids)
    ensures StandingIn(f, ids, service) == |Among(f, ids, service)|
    decreases |ids|
  {
    if ids != [] {
      StandingInSize(f, ids[..|ids| - 1], service);
      AmongStep(f, ids, ids[..|ids| - 1], ids[|ids| - 1], service);
    }
  }

  lemma {:induction false} AmongStep(f: Facts, ids: seq<string>, shorter: seq<string>, id: string, service: string)
    requires ids == shorter + [id] && Distinct(ids)
    ensures |Among(f, ids, service)| == |Among(f, shorter, service)| + if StandingFor(f, service, id) then 1 else 0
  {
    ListedOrLast(ids, shorter, id);
    var some := Among(f, shorter, service);
    assert id !in some;
    assert Among(f, ids, service) == if StandingFor(f, service, id) then some + {id} else some;
  }

  lemma {:induction false} ListedOrLast(ids: seq<string>, shorter: seq<string>, id: string)
    requires ids == shorter + [id] && Distinct(ids)
    ensures forall i :: i in ids <==> i in shorter || i == id
    ensures id !in shorter
  {
    assert ids[|shorter|] == id;
    assert forall k | 0 <= k < |shorter| :: shorter[k] == ids[k] && ids[k] != ids[|shorter|];
  }

  // --- One node -----------------------------------------------------------------------------

  predicate OnNode(f: Facts, node: string, instance: string) {
    instance in f.placement && f.placement[instance] == node && Standing(f, instance)
  }

  /** The node's standing instances of one service, in list order. */
  function GroupOf(f: Facts, node: string, ids: seq<string>, service: string): seq<string>
    decreases |ids|
  {
    if ids == [] then []
    else
      var earlier, id := GroupOf(f, node, ids[..|ids| - 1], service), ids[|ids| - 1];
      if OnNode(f, node, id) && ServiceOf(f, id) == service then earlier + [id] else earlier
  }

  lemma {:induction false} GroupMembers(f: Facts, node: string, ids: seq<string>, service: string, instance: string)
    ensures instance in GroupOf(f, node, ids, service) <==>
            instance in ids && OnNode(f, node, instance) && ServiceOf(f, instance) == service
    decreases |ids|
  {
    if ids != [] {
      GroupMembers(f, node, ids[..|ids| - 1], service, instance);
      assert ids == ids[..|ids| - 1] + [ids[|ids| - 1]];
    }
  }

  /** How many of the listed instances stand on the node. */
  function TotalOn(f: Facts, node: string, ids: seq<string>): nat
    decreases |ids|
  {
    if ids == [] then 0
    else TotalOn(f, node, ids[..|ids| - 1]) + if OnNode(f, node, ids[|ids| - 1]) then 1 else 0
  }

  lemma {:induction false} NoneOnNode(f: Facts, node: string, ids: seq<string>)
    ensures TotalOn(f, node, ids) == 0 <==> forall i | i in ids :: !OnNode(f, node, i)
    decreases |ids|
  {
    if ids != [] {
      NoneOnNode(f, node, ids[..|ids| - 1]);
      assert ids == ids[..|ids| - 1] + [ids[|ids| - 1]];
    }
  }

  method GroupByService(node: string, ids: seq<string>, f: Facts) returns (byService: map<string, seq<string>>, total: nat)
    requires forall i | i in ids :: i in f.placement
    ensures total == TotalOn(f, node, ids)
    ensures forall s :: s in byService <==> GroupOf(f, node, ids, s) != []
    ensures forall s | s in byService :: byService[s] == GroupOf(f, node, ids, s)
  {
    byService, total := map[], 0;
    for k := 0 to |ids|
      invariant total == TotalOn(f, node, ids[..k])
      invariant forall s :: s in byService <==> GroupOf(f, node, ids[..k], s) != []
      invariant forall s | s in byService :: byService[s] == GroupOf(f, node, ids[..k], s)
    {
      var id := ids[k];
      assert ids[..k + 1][..k] == ids[..k];
      if f.placement[id] != node || id in f.evicted || !IsActive(f, id) {
        continue;
      }
      total := total + 1;
      var service := ServiceOf(f, id);
      var group := if service in byService then byService[service] else [];
      byService := byService[service := group + [id]];
    }
    assert ids[..|ids|] == ids;
  }

  /** The evictions of one node in one cycle, by service: at most one instance each, the
      first of the service's group, if the budget allows it at the current count. */
  type Evictions = map<string, string>

  ghost predicate EvictsFrom(f: Facts, node: string, ids: seq<string>, counts: map<string, int>, evictions: Evictions) {
    && (forall s :: s in evictions <==> GroupOf(f, node, ids, s) != [] && CanEvict(f, s, CountOf(counts, s)))
    && (forall s | s in evictions :: evictions[s] == GroupOf(f, node, ids, s)[0])
  }

  /** The counts after taking one off for every eviction. */
  ghost predicate CountsAfter(before: map<string, int>, evictions: Evictions, after: map<string, int>) {
    forall s :: CountOf(after, s) == CountOf(before, s) - if s in evictions then 1 else 0
  }

  method EvictInstancesFromNode(node: string, ids: seq<string>, f: Facts, globalCounts: map<string, int>)
    returns (evictions: Evictions, totalActive: nat, counts: map<string, int>)
    requires forall i | i in ids :: i in f.placement
    ensures EvictsFrom(f, node, ids, globalCounts, evictions)
    ensures totalActive == TotalOn(f, node, ids)
    ensures CountsAfter(globalCounts, evictions, counts)
  {
    var byService: map<string, seq<string>>;
    byService, totalActive := GroupByService(node, ids, f);
    evictions, counts := map[], globalCounts;
    var remaining := byService.Keys;
    while remaining != {}
      invariant remaining <= byService.Keys
      invariant forall s :: s in evictions <==> s in byService && s !in remaining && CanEvict(f, s, CountOf(globalCounts, s))
      invariant forall s | s in evictions :: evictions[s] == byService[s][0]
      invariant CountsAfter(globalCounts, evictions, counts)
      decreases remaining
    {
      var service :| service in remaining;
      remaining := remaining - {service};
      if !CanEvict(f, service, CountOf(counts, service)) {
        continue;
      }
      evictions := evictions[service := byService[service][0]];
      counts := counts[service := CountOf(counts, service) - 1];
    }
  }

  // --- One cycle ------------------------------------------------------------------------------

  /** The listings a cycle works through: draining nodes, placed instances and instances
      with a state. */
  datatype Listing = Listing(nodes: seq<string>, placed: seq<string>, stated: seq<string>)

  ghost predicate ListsFacts(f: Facts, l: Listing) {
    Lists(l.nodes, f.draining) && Lists(l.placed, f.placement.Keys) && Lists(l.stated, f.states.Keys)
  }

  /** How many of the nodes evict an instance of the service. */
  function Taken(evictions: seq<Evictions>, service: string): nat
    decreases |evictions|
  {
    if evictions == [] then 0
    else Taken(evictions[..|evictions| - 1], service) + if service in evictions[|evictions| - 1] then 1 else 0
  }

  /** The count the cycle starts from; instances without a service are not counted. */
  function InitialCount(f: Facts, l: Listing, service: string): int {
    if service == "" then 0 else StandingIn(f, l.stated, service)
  }

  /** Node k evicts the first of each service's group if the budget allows it after the
      evictions of the nodes before it. */
  ghost predicate PlanAt(f: Facts, l: Listing, evictions: seq<Evictions>, k: nat)
    requires k < |l.nodes| && k < |evictions|
  {
    && (forall s :: s in evictions[k] <==>
          GroupOf(f, l.nodes[k], l.placed, s) != [] && CanEvict(f, s, InitialCount(f, l, s) - Taken(evictions[..k], s)))
    && (forall s | s in evictions[k] :: evictions[k][s] == GroupOf(f, l.nodes[k], l.placed, s)[0])
  }

  ghost predicate IsPlan(f: Facts, l: Listing, evictions: seq<Evictions>) {
    |evictions| == |l.nodes| && forall k | 0 <= k < |l.nodes| :: PlanAt(f, l, evictions, k)
  }

  /** The plan for the first nodes, with the running counts. */
  ghost predicate PlanSoFar(f: Facts, l: Listing, evictions: seq<Evictions>, counts: map<string, int>) {
    && |evictions| <= |l.nodes|
    && (forall s :: CountOf(counts, s) == InitialCount(f, l, s) - Taken(evictions, s))
    && (forall j | 0 <= j < |evictions| :: PlanAt(f, l, evictions, j))
  }

  lemma {:induction false} PlanGrows(f: Facts, l: Listing, evictions: seq<Evictions>, counts: map<string, int>,
                                     next: Evictions, after: map<string, int>)
    requires PlanSoFar(f, l, evictions, counts) && |evictions| < |l.nodes|
    requires EvictsFrom(f, l.nodes[|evictions|], l.placed, counts, next) && CountsAfter(counts, next, after)
    ensures PlanSoFar(f, l, evictions + [next], after)
  {
    var longer := evictions + [next];
    assert longer[..|evictions|] == evictions;
    forall j | 0 <= j < |longer| ensures PlanAt(f, l, longer, j) {
      if j < |evictions| {
        assert PlanAt(f, l, evictions, j) && longer[..j] == evictions[..j];
      }
    }
  }

  function CompletedNodes(f: Facts, nodes: seq<string>, placed: seq<string>): set<string> {
    set n | n in nodes && TotalOn(f, n, placed) == 0 && n !in f.complete
  }

  method Reconcile(f: Facts, l: Listing) returns (evictions: seq<Evictions>, completed: set<string>)
    requires ListsFacts(f, l)
    ensures IsPlan(f, l, evictions)
    ensures completed == CompletedNodes(f, l.nodes, l.placed)
  {
    var counts := CountGlobalActiveInstancesByService(f, l.stated);
    evictions, completed := [], {};
    for k := 0 to |l.nodes|
      invariant |evictions| == k
      invariant PlanSoFar(f, l, evictions, counts)
      invariant completed == CompletedNodes(f, l.nodes[..k], l.placed)
    {
      var node := l.nodes[k];
      assert l.nodes[..k + 1] == l.nodes[..k] + [node];
      var nodeEvictions, activeCount, after := EvictInstancesFromNode(node, l.placed, f, counts);
      PlanGrows(f, l, evictions, counts, nodeEvictions, after);
      evictions, counts := evictions + [nodeEvictions], after;
      if activeCount == 0 && node !in f.complete {
        completed := completed + {node};
      }
    }
    assert l.nodes[..|l.nodes|] == l.nodes;
  }

  // --- What a cycle guarantees ---------------------------------------------------------------

  /** Every eviction is of a standing instance of that service on that draining node. */
  lemma {:induction false} EvictsStanding(f: Facts, l: Listing, evictions: seq<Evictions>, k: nat, s: string)
    requires IsPlan(f, l, evictions) && k < |evictions| && s in evictions[k]
    ensures OnNode(f, l.nodes[k], evictions[k][s]) && ServiceOf(f, evictions[k][s]) == s
  {
    assert PlanAt(f, l, evictions, k);
    GroupMembers(f, l.nodes[k], l.placed, s, evictions[k][s]);
  }

  /** No instance is evicted twice in one cycle. */
  /** Of several standing instances of the service on the node, the first listed one goes. */
  lemma {:induction false} EvictsFirstListed(f: Facts, l: Listing, evictions: seq<Evictions>, k: nat, s: string, p: nat)
    requires ListsFacts(f, l) && IsPlan(f, l, evictions) && k < |evictions| && s in evictions[k]
    requires p < |l.placed| && OnNode(f, l.nodes[k], l.placed[p]) && ServiceOf(f, l.placed[p]) == s
    ensures exists q :: 0 <= q <= p && l.placed[q] == evictions[k][s]
  {
    assert PlanAt(f, l, evictions, k);
    GroupHead(f, l.nodes[k], l.placed, s, p);
  }

  lemma {:induction false} GroupHead(f: Facts, node: string, ids: seq<string>, service: string, p: nat)
    requires p < |ids| && OnNode(f, node, ids[p]) && ServiceOf(f, ids[p]) == service
    requires forall i | i in ids :: i in f.placement
    ensures GroupOf(f, node, ids, service) != [] && exists q :: 0 <= q <= p && ids[q] == GroupOf(f, node, ids, service)[0]
    decreases |ids|
  {
    var shorter := ids[..|ids| - 1];
    if p < |shorter| {
      GroupHead(f, node, shorter, service, p);
      var q :| 0 <= q <= p && shorter[q] == GroupOf(f, node, shorter, service)[0];
      assert ids[q] == shorter[q];
    } else if GroupOf(f, node, shorter, service) != [] {
      GroupMembers(f, node, shorter, service, GroupOf(f, node, shorter, service)[0]);
      var q :| 0 <= q < |shorter| && shorter[q] == GroupOf(f, node, shorter, service)[0];
      assert ids[q] == shorter[q];
    }
  }

  lemma {:induction false} NoInstanceTwice(f: Facts, l: Listing, evictions: seq<Evictions>, j: nat, s: string, k: nat, u: string)
    requires ListsFacts(f, l) && IsPlan(f, l, evictions)
    requires j < |evictions| && k < |evictions| && s in evictions[j] && u in evictions[k]
    requires evictions[j][s] == evictions[k][u]
    ensures j == k && s == u
  {
    EvictsStanding(f, l, evictions, j, s);
    EvictsStanding(f, l, evictions, k, u);
  }

  /** The instances a cycle marks. */
  function Marked(evictions: seq<Evictions>): set<string>
    decreases |evictions|
  {
    if evictions == [] then {}
    else Marked(evictions[..|evictions| - 1]) + evictions[|evictions| - 1].Values
  }

  function WithMarks(f: Facts, marks: set<string>): Facts {
    f.(evicted := f.evicted + marks)
  }

  /** Marking instances of other services does not change a service's count; marking one
      of its own listed standing instances takes one off. */
  lemma {:induction false} MarksCounted(f: Facts, marks: set<string>, ids: seq<string>, s: string, x: string)
    requires Distinct(ids)
    requires forall i | i in marks && ServiceOf(f, i) == s :: i == x
    requires x in marks && Standing(f, x) && ServiceOf(f, x) == s
    ensures StandingIn(WithMarks(f, marks), ids, s) == StandingIn(f, ids, s) - if x in ids then 1 else 0
    decreases |ids|
  {
    if ids != [] {
      MarksCounted(f, marks, ids[..|ids| - 1], s, x);
      assert ids == ids[..|ids| - 1] + [ids[|ids| - 1]];
    }
  }

  lemma {:induction false} OthersMarked(f: Facts, marks: set<string>, ids: seq<string>, s: string)
    requires forall i | i in marks :: ServiceOf(f, i) != s
    ensures StandingIn(WithMarks(f, marks), ids, s) == StandingIn(f, ids, s)
    decreases |ids|
  {
    if ids != [] {
      OthersMarked(f, marks, ids[..|ids| - 1], s);
    }
  }

  lemma {:induction false} MarkedFrom(evictions: seq<Evictions>, i: string) returns (k: nat, s: string)
    requires i in Marked(evictions)
    ensures k < |evictions| && s in evictions[k] && evictions[k][s] == i
    decreases |evictions|
  {
    var last := evictions[|evictions| - 1];
    if i in last.Values {
      k := |evictions| - 1;
      s :| s in last && last[s] == i;
    } else {
      k, s := MarkedFrom(evictions[..|evictions| - 1], i);
    }
  }

  /** What the marks of node k find: its instances are untouched by the nodes before. */
  lemma {:induction false} NotYetMarked(f: Facts, l: Listing, evictions: seq<Evictions>, k: nat, i: string)
    requires ListsFacts(f, l) && IsPlan(f, l, evictions) && k < |evictions| && i in evictions[k].Values
    ensures i !in Marked(evictions[..k]) && Standing(f, i)
  {
    var s :| s in evictions[k] && evictions[k][s] == i;
    EvictsStanding(f, l, evictions, k, s);
    if i in Marked(evictions[..k]) {
      var j, u := MarkedFrom(evictions[..k], i);
      NoInstanceTwice(f, l, evictions, j, u, k, s);
    }
  }

  /** The marks of the first k nodes take off exactly the evictions counted. */
  lemma {:induction false} MarksTakeCounted(f: Facts, l: Listing, evictions: seq<Evictions>, k: nat, s: string)
    requires ListsFacts(f, l) && IsPlan(f, l, evictions) && k <= |evictions|
    ensures StandingIn(WithMarks(f, Marked(evictions[..k])), l.stated, s) == StandingIn(f, l.stated, s) - Taken(evictions[..k], s)
    decreases k
  {
    if k == 0 {
      assert evictions[..0] == [] && f.evicted + {} == f.evicted;
    } else {
      MarksTakeCounted(f, l, evictions, k - 1, s);
      assert evictions[..k][..k - 1] == evictions[..k - 1];
      var g, marks := WithMarks(f, Marked(evictions[..k - 1])), evictions[k - 1].Values;
      assert WithMarks(g, marks).evicted == WithMarks(f, Marked(evictions[..k])).evicted;
      NodeMarks(f, l, evictions, k - 1, g, s);
    }
  }

  lemma {:induction false} NodeMarks(f: Facts, l: Listing, evictions: seq<Evictions>, k: nat, g: Facts, s: string)
    requires ListsFacts(f, l) && IsPlan(f, l, evictions) && k < |evictions| && g == WithMarks(f, Marked(evictions[..k]))
    ensures StandingIn(WithMarks(g, evictions[k].Values), l.stated, s) ==
            StandingIn(g, l.stated, s) - if s in evictions[k] then 1 else 0
  {
    forall i | i in evictions[k].Values ensures exists u :: u in evictions[k] && evictions[k][u] == i && ServiceOf(f, i) == u {
      var u :| u in evictions[k] && evictions[k][u] == i;
      EvictsStanding(f, l, evictions, k, u);
    }
    if s in evictions[k] {
      var x := evictions[k][s];
      EvictsStanding(f, l, evictions, k, s);
      NotYetMarked(f, l, evictions, k, x);
      MarksCounted(g, evictions[k].Values, l.stated, s, x);
    } else {
      OthersMarked(g, evictions[k].Values, l.stated, s);
    }
  }

  lemma {:induction false} StandingOfSize(f: Facts, ids: seq<string>, s: string)
    requires Lists(ids, f.states.Keys)
    ensures |StandingOf(f, s)| == StandingIn(f, ids, s)
  {
    StandingInSize(f, ids, s);
    assert StandingOf(f, s) == Among(f, ids, s);
  }

  /** What a budget asks for: its minimum of instances left, or else no more than its maximum
      missing from the desired number; without either, or without a desired number, nothing. */
  lemma {:induction false} RespectsMeans(f: Facts, s: string, left: int)
    ensures Respects(f, s, left) <==>
            (s in f.budgets ==>
               var budget, desired := f.budgets[s], if s in f.desired then f.desired[s] else 0;
               || (budget.minAvailable > 0 && left >= budget.minAvailable)
               || (budget.minAvailable <= 0 && budget.maxUnavailable > 0 && (desired == 0 || desired - left <= budget.maxUnavailable))
               || (budget.minAvailable <= 0 && budget.maxUnavailable <= 0))
  {
  }

  /** The last eviction of a service leaves a count its budget allows. */
  lemma {:induction false} LastEvictionRespects(f: Facts, l: Listing, evictions: seq<Evictions>, k: nat, s: string)
    requires IsPlan(f, l, evictions) && k <= |evictions| && Taken(evictions[..k], s) > 0
    ensures Respects(f, s, InitialCount(f, l, s) - Taken(evictions[..k], s))
    decreases k
  {
    assert evictions[..k][..k - 1] == evictions[..k - 1];
    if s in evictions[k - 1] {
      assert PlanAt(f, l, evictions, k - 1);
    } else {
      LastEvictionRespects(f, l, evictions, k - 1, s);
    }
  }

  /** In one cycle over any number of draining nodes: a service that loses any instance
      still has, after all the cycle's evictions, the number of standing instances its
      budget asks for, and it loses at most one instance per draining node. */
  lemma {:induction false} BudgetRespected(f: Facts, l: Listing, evictions: seq<Evictions>, s: string)
    requires ListsFacts(f, l) && IsPlan(f, l, evictions) && s != ""
    ensures var left := |StandingOf(WithMarks(f, Marked(evictions)), s)|;
            && left == |StandingOf(f, s)| - Taken(evictions, s)
            && (Taken(evictions, s) > 0 && s in f.budgets ==>
                  var budget, desired := f.budgets[s], if s in f.desired then f.desired[s] else 0;
                  && (budget.minAvailable > 0 ==> left >= budget.minAvailable)
                  && (budget.minAvailable <= 0 && budget.maxUnavailable > 0 && desired != 0 ==> desired - left <= budget.maxUnavailable))
  {
    assert evictions[..|evictions|] == evictions;
    MarksTakeCounted(f, l, evictions, |evictions|, s);
    StandingOfSize(f, l.stated, s);
    StandingOfSize(WithMarks(f, Marked(evictions)), l.stated, s);
    if Taken(evictions, s) > 0 {
      LastEvictionRespects(f, l, evictions, |evictions|, s);
    }
  }

  /** And no eviction the budgets permit is held back: a draining node loses an instance of a
      service exactly when it has a standing one and the budget holds with one less of those
      that the nodes before it have left standing. */
  lemma {:induction false} EvictedIffBudgetLeft(f: Facts, l: Listing, evictions: seq<Evictions>, k: nat, s: string)
    requires ListsFacts(f, l) && IsPlan(f, l, evictions) && k < |evictions| && s != ""
    ensures s in evictions[k] <==>
            && (exists i :: OnNode(f, l.nodes[k], i) && ServiceOf(f, i) == s)
            && Respects(f, s, |StandingOf(WithMarks(f, Marked(evictions[..k])), s)| - 1)
  {
    MarksTakeCounted(f, l, evictions, k, s);
    StandingOfSize(WithMarks(f, Marked(evictions[..k])), l.stated, s);
    assert PlanAt(f, l, evictions, k);
    var group := GroupOf(f, l.nodes[k], l.placed, s);
    if group != [] {
      GroupMembers(f, l.nodes[k], l.placed, s, group[0]);
    }
    forall i | OnNode(f, l.nodes[k], i) && ServiceOf(f, i) == s ensures group != [] {
      GroupMembers(f, l.nodes[k], l.placed, s, i);
    }
  }

  // --- Repeated cycles ----------------------------------------------------------------------------

  /** A standing instance on a draining node. */
  predicate Waits(f: Facts, i: string) {
    i in f.placement && f.placement[i] in f.draining && Standing(f, i)
  }

  /** How many of the listed instances wait. */
  function Waiting(f: Facts, ids: seq<string>): nat
    decreases |ids|
  {
    if ids == [] then 0
    else
      var id := ids[|ids| - 1];
      Waiting(f, ids[..|ids| - 1]) + if Waits(f, id) then 1 else 0
  }

  lemma {:induction false} MarksWaitLess(f: Facts, marks: set<string>, ids: seq<string>, x: string)
    requires x in marks && Waits(f, x)
    ensures Waiting(WithMarks(f, marks), ids) <= Waiting(f, ids) - if x in ids then 1 else 0
    decreases |ids|
  {
    if ids != [] {
      MarksWaitLess(f, marks, ids[..|ids| - 1], x);
      assert ids == ids[..|ids| - 1] + [ids[|ids| - 1]];
    }
  }

  lemma {:induction false} FindWaiting(f: Facts, ids: seq<string>) returns (x: string)
    requires Waiting(f, ids) > 0
    ensures x in ids && Waits(f, x)
    decreases |ids|
  {
    var id := ids[|ids| - 1];
    if Waits(f, id) {
      x := id;
    } else {
      x := FindWaiting(f, ids[..|ids| - 1]);
    }
  }

  lemma {:induction false} MarkedHas(evictions: seq<Evictions>, k: nat, s: string)
    requires k < |evictions| && s in evictions[k]
    ensures evictions[k][s] in Marked(evictions)
    decreases |evictions|
  {
    if k < |evictions| - 1 {
      MarkedHas(evictions[..|evictions| - 1], k, s);
    }
  }

  /** One that its service's budget lets go now. */
  predicate Evictable(f: Facts, l: Listing, i: string) {
    Waits(f, i) && CanEvict(f, ServiceOf(f, i), InitialCount(f, l, ServiceOf(f, i)))
  }

  /** That is, with one instance less its service still has what its budget asks for. */
  lemma {:induction false} EvictableMeans(f: Facts, l: Listing, i: string)
    requires ListsFacts(f, l) && ServiceOf(f, i) != ""
    ensures Evictable(f, l, i) <==> Waits(f, i) && Respects(f, ServiceOf(f, i), |StandingOf(f, ServiceOf(f, i))| - 1)
  {
    StandingOfSize(f, l.stated, ServiceOf(f, i));
  }

  /** What a cycle evicts on any node could have been evicted first. */
  lemma {:induction false} EvictedWasEvictable(f: Facts, l: Listing, evictions: seq<Evictions>, k: nat, s: string)
    requires ListsFacts(f, l) && IsPlan(f, l, evictions) && k < |evictions| && s in evictions[k]
    ensures Evictable(f, l, evictions[k][s])
  {
    assert PlanAt(f, l, evictions, k);
    EvictsStanding(f, l, evictions, k, s);
  }

  /** While an instance is evictable some node evicts one of its service. */
  lemma {:induction false} EvictableMakesEviction(f: Facts, l: Listing, evictions: seq<Evictions>, i: string) returns (k: nat)
    requires ListsFacts(f, l) && IsPlan(f, l, evictions) && Evictable(f, l, i)
    ensures k < |evictions| && ServiceOf(f, i) in evictions[k]
  {
    var s := ServiceOf(f, i);
    k :| 0 <= k < |l.nodes| && l.nodes[k] == f.placement[i];
    if Taken(evictions[..k], s) > 0 {
      k := TakenSomewhere(evictions[..k], s);
    } else {
      GroupMembers(f, l.nodes[k], l.placed, s, i);
      assert PlanAt(f, l, evictions, k);
    }
  }

  lemma {:induction false} TakenSomewhere(evictions: seq<Evictions>, s: string) returns (k: nat)
    requires Taken(evictions, s) > 0
    ensures k < |evictions| && s in evictions[k]
    decreases |evictions|
  {
    if s in evictions[|evictions| - 1] {
      k := |evictions| - 1;
    } else {
      k := TakenSomewhere(evictions[..|evictions| - 1], s);
    }
  }

  ghost predicate SomeEvictable(f: Facts, l: Listing) {
    exists i :: Evictable(f, l, i)
  }

  lemma {:induction false} NothingEvicted(f: Facts, l: Listing, evictions: seq<Evictions>)
    requires ListsFacts(f, l) && IsPlan(f, l, evictions) && !SomeEvictable(f, l)
    ensures Marked(evictions) == {}
  {
    if i :| i in Marked(evictions) {
      var k, s := MarkedFrom(evictions, i);
      EvictedWasEvictable(f, l, evictions, k, s);
    }
  }

  /** With any budgets, a cycle leaves fewer standing instances on draining nodes if and only if
      one of them is evictable. */
  lemma {:induction false} ProgressIffEvictable(f: Facts, l: Listing, evictions: seq<Evictions>)
    requires ListsFacts(f, l) && IsPlan(f, l, evictions)
    ensures Waiting(WithMarks(f, Marked(evictions)), l.placed) <= Waiting(f, l.placed)
    ensures Waiting(WithMarks(f, Marked(evictions)), l.placed) < Waiting(f, l.placed) <==> SomeEvictable(f, l)
  {
    if i :| Evictable(f, l, i) {
      var k := EvictableMakesEviction(f, l, evictions, i);
      var s := ServiceOf(f, i);
      EvictedWasEvictable(f, l, evictions, k, s);
      MarkedHas(evictions, k, s);
      MarksWaitLess(f, Marked(evictions), l.placed, evictions[k][s]);
    } else {
      NothingEvicted(f, l, evictions);
      assert f.evicted + {} == f.evicted;
    }
  }

  /** Without budgets every cycle that finds a standing instance on a draining node leaves
      fewer of them. */
  lemma {:induction false} CycleMakesProgress(f: Facts, l: Listing, evictions: seq<Evictions>)
    requires ListsFacts(f, l) && IsPlan(f, l, evictions) && f.budgets == map[] && Waiting(f, l.placed) > 0
    ensures Waiting(WithMarks(f, Marked(evictions)), l.placed) < Waiting(f, l.placed)
  {
    var i := FindWaiting(f, l.placed);
    assert Evictable(f, l, i);
    ProgressIffEvictable(f, l, evictions);
  }

  /** The facts after a cycle has committed its markers. */
  function AfterCycle(f: Facts, l: Listing, evictions: seq<Evictions>): Facts {
    WithMarks(f, Marked(evictions)).(complete := f.complete + CompletedNodes(f, l.nodes, l.placed))
  }

  /** Successive cycles over facts that nothing else changes. */
  ghost predicate IsRun(l: Listing, run: seq<Facts>) {
    forall k | 0 <= k < |run| - 1 :: CycleBetween(l, run[k], run[k + 1])
  }

  ghost predicate CycleBetween(l: Listing, f: Facts, g: Facts) {
    exists evictions :: IsPlan(f, l, evictions) && g == AfterCycle(f, l, evictions)
  }

  lemma {:induction false} CycleKeepsFacts(l: Listing, f: Facts, g: Facts)
    requires ListsFacts(f, l) && CycleBetween(l, f, g)
    ensures g == f.(evicted := g.evicted, complete := g.complete) && f.complete <= g.complete
    ensures ListsFacts(g, l)
    ensures f.budgets == map[] ==> Waiting(g, l.placed) <= if Waiting(f, l.placed) > 0 then Waiting(f, l.placed) - 1 else 0
  {
    var evictions :| IsPlan(f, l, evictions) && g == AfterCycle(f, l, evictions);
    SameWaiting(WithMarks(f, Marked(evictions)), g, l.placed);
    if f.budgets == map[] && Waiting(f, l.placed) > 0 {
      CycleMakesProgress(f, l, evictions);
    }
    if Waiting(f, l.placed) == 0 {
      StaysEmpty(f, Marked(evictions), l.placed);
    }
  }

  lemma {:induction false} SameWaiting(f: Facts, g: Facts, ids: seq<string>)
    requires g == f.(complete := g.complete)
    ensures Waiting(g, ids) == Waiting(f, ids)
    decreases |ids|
  {
    if ids != [] { SameWaiting(f, g, ids[..|ids| - 1]); }
  }

  lemma {:induction false} StaysEmpty(f: Facts, marks: set<string>, ids: seq<string>)
    requires Waiting(f, ids) == 0
    ensures Waiting(WithMarks(f, marks), ids) == 0
    decreases |ids|
  {
    if ids != [] { StaysEmpty(f, marks, ids[..|ids| - 1]); }
  }

  /** Without budgets, k cycles leave at most Waiting - k standing instances on draining
      nodes, and nothing else about the facts changes. */
  lemma {:induction false} RunDrains(l: Listing, run: seq<Facts>, k: nat)
    requires k < |run| && IsRun(l, run) && ListsFacts(run[0], l) && run[0].budgets == map[]
    ensures ListsFacts(run[k], l) && run[k].budgets == map[] && run[k].draining == run[0].draining
    ensures Waiting(run[k], l.placed) <= if Waiting(run[0], l.placed) > k then Waiting(run[0], l.placed) - k else 0
    decreases k
  {
    if k > 0 {
      RunDrains(l, run, k - 1);
      assert CycleBetween(l, run[k - 1], run[k - 1 + 1]);
      CycleKeepsFacts(l, run[k - 1], run[k]);
    }
  }

  /** A cycle without evictable instances changes no instance. */
  lemma {:induction false} StaysBlocked(l: Listing, f: Facts, g: Facts)
    requires ListsFacts(f, l) && CycleBetween(l, f, g) && !SomeEvictable(f, l)
    ensures g == f.(complete := g.complete) && !SomeEvictable(g, l)
  {
    var evictions :| IsPlan(f, l, evictions) && g == AfterCycle(f, l, evictions);
    NothingEvicted(f, l, evictions);
    assert f.evicted + {} == f.evicted;
    forall i ensures !Evictable(g, l, i) {
      SameCount(f, g, l.stated, ServiceOf(f, i));
      assert !Evictable(f, l, i);
    }
  }

  lemma {:induction false} SameCount(f: Facts, g: Facts, ids: seq<string>, s: string)
    requires g == f.(complete := g.complete)
    ensures StandingIn(g, ids, s) == StandingIn(f, ids, s)
    decreases |ids|
  {
    if ids != [] { SameCount(f, g, ids[..|ids| - 1], s); }
  }

  /** With any budgets and facts that nothing else changes, after as many cycles as there were
      standing instances on draining nodes exactly the blocked ones are left: none of them is
      evictable, and no later cycle evicts anything. */
  lemma {:induction false} DrainEndsBlocked(l: Listing, run: seq<Facts>, k: nat)
    requires k < |run| && IsRun(l, run) && ListsFacts(run[0], l)
    ensures ListsFacts(run[k], l)
    ensures SomeEvictable(run[k], l) ==> Waiting(run[k], l.placed) + k <= Waiting(run[0], l.placed) && Waiting(run[k], l.placed) > 0
    ensures k >= Waiting(run[0], l.placed) ==> !SomeEvictable(run[k], l)
    decreases k
  {
    if k > 0 {
      DrainEndsBlocked(l, run, k - 1);
      var f, g := run[k - 1], run[k];
      assert CycleBetween(l, run[k - 1], run[k - 1 + 1]);
      CycleKeepsFacts(l, f, g);
      if SomeEvictable(f, l) {
        var evictions :| IsPlan(f, l, evictions) && g == AfterCycle(f, l, evictions);
        ProgressIffEvictable(f, l, evictions);
        SameWaiting(WithMarks(f, Marked(evictions)), g, l.placed);
      } else {
        StaysBlocked(l, f, g);
      }
    }
    if i :| Evictable(run[k], l, i) { SomeoneWaits(run[k], l.placed, i); }
  }

  lemma {:induction false} SomeoneWaits(f: Facts, ids: seq<string>, i: string)
    requires i in ids && Waits(f, i)
    ensures Waiting(f, ids) > 0
    decreases |ids|
  {
    if ids[|ids| - 1] != i { SomeoneWaits(f, ids[..|ids| - 1], i); }
  }

  lemma {:induction false} NobodyWaits(f: Facts, ids: seq<string>, node: string)
    requires Waiting(f, ids) == 0 && node in f.draining
    ensures TotalOn(f, node, ids) == 0
    decreases |ids|
  {
    if ids != [] { NobodyWaits(f, ids[..|ids| - 1], node); }
  }

  /** A cycle writes drain-complete for exactly the unmarked draining nodes on which it saw
      no standing instance. */
  lemma {:induction false} CompletesExactly(f: Facts, l: Listing, node: string)
    requires ListsFacts(f, l)
    ensures node in CompletedNodes(f, l.nodes, l.placed) <==>
            && node in f.draining && node !in f.complete
            && forall i | i in f.placement && f.placement[i] == node ::
                 i in f.evicted || i !in f.states || f.states[i] !in {"running", "pending", "starting"}
  {
    NoneOnNode(f, node, l.placed);
    assert forall i | i in f.placement && f.placement[i] == node :: OnNode(f, node, i) <==>
             !(i in f.evicted || i !in f.states || f.states[i] !in {"running", "pending", "starting"});
  }

  /** Without budgets and with facts that nothing else changes: after as many cycles as
      there were standing instances, none is left on a draining node, one more cycle has
      marked every draining node complete, and no node is marked again. */
  lemma {:induction false} DrainCompletes(l: Listing, run: seq<Facts>, k: nat)
    requires run != [] && IsRun(l, run) && ListsFacts(run[0], l) && run[0].budgets == map[]
    requires Waiting(run[0], l.placed) < k < |run|
    ensures Waiting(run[k], l.placed) == 0
    ensures run[0].draining <= run[k].complete
    ensures CompletedNodes(run[k], l.nodes, l.placed) == {}
  {
    RunDrains(l, run, k - 1);
    RunDrains(l, run, k);
    assert CycleBetween(l, run[k - 1], run[k - 1 + 1]);
    var evictions :| IsPlan(run[k - 1], l, evictions) && run[k] == AfterCycle(run[k - 1], l, evictions);
    forall node | node in run[0].draining ensures node in run[k].complete {
      NobodyWaits(run[k - 1], l.placed, node);
    }
  }
}
