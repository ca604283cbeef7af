/** The cloud route controller (controllers/cloud_routes.go): Reconcile logs intended
    route changes in the store, the post-commit executor carries them out against the
    cloud provider. Routes, intents and observations are keyed by destination CIDR. */
module CloudRouting {
  import opened Options

  datatype Route = Route(node: string, instance: string)

  /** A stored pending operation. Corrupt stands for one that cannot be decoded or is of
      an unknown kind: the executor reports it and leaves it. */
  datatype Operation = Ensure(node: string, instance: string) | Delete | Corrupt

  type Routes = map<string, Route>

  datatype State = State(observed: map<string, string>, pending: map<string, Operation>, provider: Routes)

  /** Everything the controller keeps about one CIDR. */
  datatype Cell = Cell(observed: Option<string>, pending: Option<Operation>, provider: Option<Route>)

  function At(s: State, cidr: string): Cell {
    Cell(Lookup(s.observed, cidr), Lookup(s.pending, cidr), Lookup(s.provider, cidr))
  }

  // --- Desired routes ------------------------------------------------------------------

  /** Node facts: assigned subnets, cloud instances and the alive nodes. */
  datatype NodeFacts = NodeFacts(subnets: map<string, string>, instances: map<string, string>, alive: set<string>)

  /** An alive node with a subnet and a cloud instance gets a route. */
  predicate Routable(facts: NodeFacts, node: string) {
    node in facts.subnets && node in facts.alive && node in facts.instances && facts.instances[node] != ""
  }

  /** Every routable node's subnet has a route, to some routable node of that subnet. */
  ghost predicate IsDesired(facts: NodeFacts, desired: Routes) {
    && (forall node | Routable(facts, node) :: facts.subnets[node] in desired)
    && (forall cidr | cidr in desired ::
          && Routable(facts, desired[cidr].node)
          && facts.subnets[desired[cidr].node] == cidr
          && desired[cidr].instance == facts.instances[desired[cidr].node])
  }

  ghost predicate DistinctSubnets(facts: NodeFacts) {
    forall m, n | Routable(facts, m) && Routable(facts, n) && facts.subnets[m] == facts.subnets[n] :: m == n
  }

  /** With distinct subnets the desired routes do not depend on iteration order. */
  lemma {:induction false} DesiredUnique(facts: NodeFacts, a: Routes, b: Routes)
    requires DistinctSubnets(facts) && IsDesired(facts, a) && IsDesired(facts, b)
    ensures a == b
  {
    forall cidr | cidr in a ensures cidr in b && a[cidr] == b[cidr] {
      assert Routable(facts, a[cidr].node);
    }
    forall cidr | cidr in b ensures cidr in a {
      assert Routable(facts, b[cidr].node);
    }
  }

  method BuildDesiredRouteMap(facts: NodeFacts) returns (desired: Routes)
    ensures IsDesired(facts, desired)
    ensures forall node | node in facts.subnets && node in facts.alive && node in facts.instances && facts.instances[node] != "" ::
              facts.subnets[node] in desired
    ensures forall cidr | cidr in desired :: desired[cidr].node in facts.alive && desired[cidr].instance != ""
  {
    desired := map[];
    var remaining := facts.subnets.Keys;
    while remaining != {}
      invariant remaining <= facts.subnets.Keys
      invariant forall node | Routable(facts, node) && node !in remaining :: facts.subnets[node] in desired
      invariant forall cidr | cidr in desired ::
                  && Routable(facts, desired[cidr].node)
                  && facts.subnets[desired[cidr].node] == cidr
                  && desired[cidr].instance == facts.instances[desired[cidr].node]
      decreases remaining
    {
      var node :| node in remaining;
      remaining := remaining - {node};
      if node !in facts.alive {
        continue;
      }
      var instance := if node in facts.instances then facts.instances[node] else "";
      if instance == "" {
        continue;
      }
      desired := desired[facts.subnets[node] := Route(node, instance)];
    }
  }

  // --- One CIDR ---------------------------------------------------------------------------

  /** Reconcile, seen at one CIDR whose desired route is `want`. */
  function ReconcileCell(cell: Cell, want: Option<Route>): Cell {
    if want.Some? then
      if cell.observed == Some(want.value.node) then cell
      else cell.(pending := Some(Ensure(want.value.node, want.value.instance)))
    else if cell.observed.Some? then cell.(pending := Some(Delete))
    else if cell.pending.Some? && cell.pending.value.Ensure? then cell.(pending := None)
    else cell
  }

  /** The executor, seen at one CIDR; `ok` says whether the provider call succeeds. */
  function ExecuteCell(cell: Cell, alive: set<string>, ok: bool): Cell {
    match cell.pending
    case Some(Ensure(node, instance)) =>
      if node !in alive then cell.(pending := None)
      else if ok then Cell(Some(node), None, Some(Route(node, instance)))
      else cell
    case Some(Delete) => if ok then Cell(None, None, None) else cell
    case _ => cell
  }

  // --- All CIDRs ----------------------------------------------------------------------------

  function Reconciled(s: State, desired: Routes): State {
    s.(pending :=
    map cidr |
      cidr in desired.Keys + s.observed.Keys + s.pending.Keys && ReconcileCell(At(s, cidr), Lookup(desired, cidr)).pending.Some?
      :: ReconcileCell(At(s, cidr), Lookup(desired, cidr)).pending.value)
  }

  function Executed(s: State, alive: set<string>, failing: set<string>): State {
    var cidrs := s.observed.Keys + s.pending.Keys + s.provider.Keys;
    State(
      map cidr | cidr in cidrs && ExecuteCell(At(s, cidr), alive, cidr !in failing).observed.Some?
        :: ExecuteCell(At(s, cidr), alive, cidr !in failing).observed.value,
      map cidr | cidr in cidrs && ExecuteCell(At(s, cidr), alive, cidr !in failing).pending.Some?
        :: ExecuteCell(At(s, cidr), alive, cidr !in failing).pending.value,
      map cidr | cidr in cidrs && ExecuteCell(At(s, cidr), alive, cidr !in failing).provider.Some?
        :: ExecuteCell(At(s, cidr), alive, cidr !in failing).provider.value)
  }

  lemma {:induction false} ReconciledAt(s: State, desired: Routes, cidr: string)
    ensures At(Reconciled(s, desired), cidr) == ReconcileCell(At(s, cidr), Lookup(desired, cidr))
  {
  }

  lemma {:induction false} ExecutedAt(s: State, alive: set<string>, failing: set<string>, cidr: string)
    ensures At(Executed(s, alive, failing), cidr) == ExecuteCell(At(s, cidr), alive, cidr !in failing)
  {
  }

  lemma {:induction false} SameState(a: State, b: State)
    requires forall cidr :: At(a, cidr) == At(b, cidr)
    ensures a == b
  {
    forall k ensures Lookup(a.observed, k) == Lookup(b.observed, k) { assert At(a, k) == At(b, k); }
    forall k ensures Lookup(a.pending, k) == Lookup(b.pending, k) { assert At(a, k) == At(b, k); }
    forall k ensures Lookup(a.provider, k) == Lookup(b.provider, k) { assert At(a, k) == At(b, k); }
    SameMap(a.observed, b.observed);
    SameMap(a.pending, b.pending);
    SameMap(a.provider, b.provider);
  }

  /** The changes one reconcile proposes: pending operations to put and to delete. */
  datatype Changes = Changes(puts: map<string, Operation>, deletes: set<string>)

  function EnsurePuts(desired: Routes, existing: map<string, string>): map<string, Operation> {
    map cidr | cidr in desired && Lookup(existing, cidr) != Some(desired[cidr].node)
      :: Ensure(desired[cidr].node, desired[cidr].instance)
  }

  function DeletePuts(desired: Routes, existing: map<string, string>): map<string, Operation> {
    map cidr | cidr in existing && cidr !in desired :: Delete
  }

  function StaleEnsures(pending: map<string, Operation>, desired: Routes, existing: map<string, string>): set<string> {
    set cidr | cidr in pending && pending[cidr].Ensure? && cidr !in desired && cidr !in existing
  }

  /** Everything one reconcile proposes. */
  function Proposal(s: State, desired: Routes): Changes {
    Changes(EnsurePuts(desired, s.observed) + DeletePuts(desired, s.observed), StaleEnsures(s.pending, desired, s.observed))
  }

  method BuildEnsureRouteChanges(desired: Routes, existing: map<string, string>) returns (puts: map<string, Operation>)
    ensures puts == EnsurePuts(desired, existing)
  {
    puts := map[];
    var remaining := desired.Keys;
    while remaining != {}
      invariant remaining <= desired.Keys
      invariant puts == map cidr | cidr in desired && cidr !in remaining && Lookup(existing, cidr) != Some(desired[cidr].node)
                          :: Ensure(desired[cidr].node, desired[cidr].instance)
      decreases remaining
    {
      var cidr :| cidr in remaining;
      remaining := remaining - {cidr};
      if cidr in existing && existing[cidr] == desired[cidr].node {
        continue;
      }
      puts := puts[cidr := Ensure(desired[cidr].node, desired[cidr].instance)];
    }
  }

  method BuildDeleteRouteChanges(desired: Routes, existing: map<string, string>) returns (puts: map<string, Operation>)
    ensures puts == DeletePuts(desired, existing)
  {
    puts := map[];
    var remaining := existing.Keys;
    while remaining != {}
      invariant remaining <= existing.Keys
      invariant puts == map cidr | cidr in existing && cidr !in remaining && cidr !in desired :: Delete
      decreases remaining
    {
      var cidr :| cidr in remaining;
      remaining := remaining - {cidr};
      if cidr !in desired {
        puts := puts[cidr := Delete];
      }
    }
  }

  method BuildCleanupStaleRouteChanges(pending: map<string, Operation>, desired: Routes, existing: map<string, string>)
    returns (deletes: set<string>)
    ensures deletes == StaleEnsures(pending, desired, existing)
  {
    deletes := {};
    var remaining := pending.Keys;
    while remaining != {}
      invariant remaining <= pending.Keys
      invariant deletes == set cidr | cidr in pending && cidr !in remaining && pending[cidr].Ensure?
                                      && cidr !in desired && cidr !in existing
      decreases remaining
    {
      var cidr :| cidr in remaining;
      remaining := remaining - {cidr};
      if pending[cidr].Ensure? && cidr !in desired {
        if cidr in existing {
          continue;
        }
        deletes := deletes + {cidr};
      }
    }
  }

  method Reconcile(s: State, desired: Routes) returns (changes: Changes)
    ensures changes == Proposal(s, desired)
  {
    var toEnsure := BuildEnsureRouteChanges(desired, s.observed);
    var toDelete := BuildDeleteRouteChanges(desired, s.observed);
    var deletes := BuildCleanupStaleRouteChanges(s.pending, desired, s.observed);
    changes := Changes(toEnsure + toDelete, deletes);
  }

  /** A proposal touches no key twice, and committing it takes the state where the
      cell-by-cell description says. */
  lemma {:induction false} ProposalCommits(s: State, desired: Routes)
    ensures var changes := Proposal(s, desired);
            && changes.puts.Keys !! changes.deletes
            && s.(pending := s.pending + changes.puts - changes.deletes) == Reconciled(s, desired)
  {
    var changes := Proposal(s, desired);
    var pending := s.pending + changes.puts - changes.deletes;
    forall cidr ensures Lookup(pending, cidr) == Lookup(Reconciled(s, desired).pending, cidr) {
      ReconciledAt(s, desired, cidr);
    }
    SameMap(pending, Reconciled(s, desired).pending);
  }

  /** The CIDR already shows its desired node, or is neither desired nor observed: Reconcile
      leaves its pending operation alone, unless that is a stale ensure. */
  predicate Settled(cell: Cell, want: Option<Route>) {
    if want.Some? then cell.observed == Some(want.value.node) else cell.observed.None?
  }

  /** Nothing to propose at a CIDR: its desired node is observed, or it is neither desired nor
      observed and no ensure is pending for it. */
  predicate Quiet(cell: Cell, want: Option<Route>) {
    Settled(cell, want) && (want.None? ==> cell.pending.None? || !cell.pending.value.Ensure?)
  }

  /** A proposal is empty if and only if there is nothing to propose at any CIDR. */
  lemma {:induction false} NothingProposedIff(s: State, desired: Routes)
    ensures Proposal(s, desired) == Changes(map[], {}) <==> forall cidr :: Quiet(At(s, cidr), Lookup(desired, cidr))
  {
    var changes := Proposal(s, desired);
    forall cidr ensures Quiet(At(s, cidr), Lookup(desired, cidr)) <==> cidr !in changes.puts && cidr !in changes.deletes {}
    if forall cidr :: Quiet(At(s, cidr), Lookup(desired, cidr)) {
      assert forall cidr :: cidr !in changes.puts && cidr !in changes.deletes;
      assert changes.puts == map[] && changes.deletes == {};
    }
  }

  /** The store and the cloud provider, updated in place by the executor. */
  class RouteExecutor {
    var state: State

    constructor (state: State)
      ensures this.state == state
    {
      this.state := state;
    }

    method ExecutePostCommitOperations(alive: set<string>, failing: set<string>)
      modifies this
      ensures state == Executed(old(state), alive, failing)
    {
      var pendingFacts := state.pending;
      var remaining := pendingFacts.Keys;
      while remaining != {}
        invariant remaining <= pendingFacts.Keys
        invariant forall cidr ::
                    At(state, cidr) ==
                    if cidr in remaining then At(old(state), cidr)
                    else ExecuteCell(At(old(state), cidr), alive, cidr !in failing)
        decreases remaining
      {
        var cidr :| cidr in remaining;
        ghost var before := state;
        match pendingFacts[cidr] {
          case Ensure(node, instance) =>
            if node !in alive {
              state := state.(pending := state.pending - {cidr});
            } else if cidr !in failing {
              state := State(state.observed[cidr := node], state.pending - {cidr}, state.provider[cidr := Route(node, instance)]);
            }
          case Delete =>
            if cidr !in failing {
              state := State(state.observed - {cidr}, state.pending - {cidr}, state.provider - {cidr});
            }
          case Corrupt =>
        }
        assert At(before, cidr) == At(old(state), cidr);
        assert forall other | other != cidr :: At(state, other) == At(before, other);
        remaining := remaining - {cidr};
      }
      forall cidr ensures At(state, cidr) == At(Executed(old(state), alive, failing), cidr) {
        ExecutedAt(old(state), alive, failing, cidr);
      }
      SameState(state, Executed(old(state), alive, failing));
    }
  }

  // --- Agreement: the provider has what the store has observed -----------------------------

  predicate AgreeCell(cell: Cell) {
    match (cell.observed, cell.provider)
    case (None, None) => true
    case (Some(node), Some(route)) => node == route.node
    case _ => false
  }

  ghost predicate Agree(s: State) {
    forall cidr :: AgreeCell(At(s, cidr))
  }

  /** One reconcile with its post-commit pass, under the node facts and provider failures
      of the moment. */
  datatype Cycle = Cycle(desired: Routes, alive: set<string>, failing: set<string>)

  function AfterCycle(s: State, cycle: Cycle): State {
    Executed(Reconciled(s, cycle.desired), cycle.alive, cycle.failing)
  }

  function AfterCycles(s: State, cycles: seq<Cycle>): State
    decreases |cycles|
  {
    if cycles == [] then s else AfterCycles(AfterCycle(s, cycles[0]), cycles[1..])
  }

  function CycleCell(cell: Cell, want: Option<Route>, alive: set<string>, ok: bool): Cell {
    ExecuteCell(ReconcileCell(cell, want), alive, ok)
  }

  lemma {:induction false} AfterCycleAt(s: State, cycle: Cycle, cidr: string)
    ensures At(AfterCycle(s, cycle), cidr) ==
            CycleCell(At(s, cidr), Lookup(cycle.desired, cidr), cycle.alive, cidr !in cycle.failing)
  {
    ReconciledAt(s, cycle.desired, cidr);
    ExecutedAt(Reconciled(s, cycle.desired), cycle.alive, cycle.failing, cidr);
  }

  lemma {:induction false} AgreeCellKept(cell: Cell, want: Option<Route>, alive: set<string>, ok: bool)
    requires AgreeCell(cell)
    ensures AgreeCell(CycleCell(cell, want, alive, ok))
  {
  }

  lemma {:induction false} CycleAgrees(s: State, cycle: Cycle, cidr: string)
    requires AgreeCell(At(s, cidr))
    ensures AgreeCell(At(AfterCycle(s, cycle), cidr))
  {
    AfterCycleAt(s, cycle, cidr);
    AgreeCellKept(At(s, cidr), Lookup(cycle.desired, cidr), cycle.alive, cidr !in cycle.failing);
  }

  /** Whatever the node facts and the provider failures, every run of cycles keeps the
      provider's routes in agreement with the observed ones. */
  lemma {:induction false} AgreementKept(s: State, cycles: seq<Cycle>)
    requires Agree(s)
    ensures Agree(AfterCycles(s, cycles))
    decreases |cycles|
  {
    if cycles != [] {
      forall cidr ensures AgreeCell(At(AfterCycle(s, cycles[0]), cidr)) {
        assert AgreeCell(At(s, cidr));
        CycleAgrees(s, cycles[0], cidr);
      }
      AgreementKept(AfterCycle(s, cycles[0]), cycles[1..]);
    }
  }

  // --- Provider calls that fail -----------------------------------------------------------

  /** What the executor makes of each CIDR: it drops an ensure whose node is not alive, leaves
      everything else that fails for a retry, and records in store and provider what
      succeeds. An unreadable operation stays. */
  lemma {:induction false} ExecutedMeans(s: State, alive: set<string>, failing: set<string>, cidr: string)
    ensures var before, after := At(s, cidr), At(Executed(s, alive, failing), cidr);
            && (before.pending.None? || before.pending.value.Corrupt? ==> after == before)
            && (before.pending.Some? && before.pending.value.Delete? ==>
                  after == if cidr in failing then before else Cell(None, None, None))
            && (before.pending.Some? && before.pending.value.Ensure? ==>
                  var node, instance := before.pending.value.node, before.pending.value.instance;
                  after == if node !in alive then before.(pending := None)
                           else if cidr in failing then before
                           else Cell(Some(node), None, Some(Route(node, instance))))
  {
    ExecutedAt(s, alive, failing, cidr);
  }

  /** While calls for a CIDR fail, no cycle changes what is observed or what the provider has
      there. */
  lemma {:induction false} FailingLeavesRoutes(s: State, cycle: Cycle, cidr: string)
    requires cidr in cycle.failing
    ensures var t := AfterCycle(s, cycle);
            Lookup(t.observed, cidr) == Lookup(s.observed, cidr) && Lookup(t.provider, cidr) == Lookup(s.provider, cidr)
  {
    ReconciledAt(s, cycle.desired, cidr);
    ExecutedMeans(Reconciled(s, cycle.desired), cycle.alive, cycle.failing, cidr);
  }

  /** In a cycle the call for the pending operation fails, and the proposal does not replace or
      drop the operation. */
  predicate RetriedLater(s: State, cycle: Cycle, cidr: string, op: Operation) {
    && cidr in cycle.failing && (op.Ensure? ==> op.node in cycle.alive)
    && var changes := Proposal(s, cycle.desired);
       cidr !in changes.deletes && (cidr in changes.puts ==> changes.puts[cidr] == op)
  }

  predicate AllRetriedLater(s: State, cycles: seq<Cycle>, cidr: string, op: Operation)
    decreases |cycles|
  {
    cycles != [] ==> RetriedLater(s, cycles[0], cidr, op) && AllRetriedLater(AfterCycle(s, cycles[0]), cycles[1..], cidr, op)
  }

  /** An operation stays pending, and its CIDR as it was, until a cycle in which its call
      succeeds, its node has gone, or Reconcile replaces or drops it. */
  lemma {:induction false} PendingUntilDone(s: State, cycles: seq<Cycle>, cidr: string, op: Operation)
    requires Lookup(s.pending, cidr) == Some(op) && AllRetriedLater(s, cycles, cidr, op)
    ensures At(AfterCycles(s, cycles), cidr) == At(s, cidr)
    decreases |cycles|
  {
    if cycles != [] {
      var cycle := cycles[0];
      var once := Reconciled(s, cycle.desired);
      ProposalCommits(s, cycle.desired);
      assert At(once, cidr) == At(s, cidr);
      ExecutedMeans(once, cycle.alive, cycle.failing, cidr);
      PendingUntilDone(AfterCycle(s, cycle), cycles[1..], cidr, op);
    }
  }

  // --- Convergence ---------------------------------------------------------------------------

  /** A pending entry the executor cannot read, at a CIDR where nothing replaces it. */
  predicate StuckPending(cell: Cell, want: Option<Route>) {
    cell.pending == Some(Corrupt) && Settled(cell, want)
  }

  /** The desired node is right already but its cloud instance is not: Reconcile compares
      nodes only. A pending operation decides what the provider has after the first cycle. */
  predicate StaleInstance(cell: Cell, want: Option<Route>, alive: set<string>) {
    want.Some? && cell.observed == Some(want.value.node) &&
    match cell.pending
    case Some(Delete) => false
    case Some(Ensure(node, instance)) =>
      if node in alive then node == want.value.node && instance != want.value.instance else cell.provider != want
    case _ => cell.provider != want
  }

  /** What two cycles leave at one CIDR. */
  predicate Converged(before: Cell, after: Cell, want: Option<Route>, alive: set<string>) {
    && after.observed == (if want.Some? then Some(want.value.node) else None)
    && after.pending == (if StuckPending(before, want) then Some(Corrupt) else None)
    && (after.provider == want <==> !StaleInstance(before, want, alive))
  }

  lemma {:induction false} CellConverges(cell: Cell, want: Option<Route>, alive: set<string>)
    requires AgreeCell(cell) && (want.Some? ==> want.value.node in alive)
    ensures var after := CycleCell(CycleCell(cell, want, alive, true), want, alive, true);
            Converged(cell, after, want, alive)
  {
  }

  lemma {:induction false} TwoCyclesAt(s: State, desired: Routes, alive: set<string>, cidr: string)
    ensures At(AfterCycle(AfterCycle(s, Cycle(desired, alive, {})), Cycle(desired, alive, {})), cidr) ==
            CycleCell(CycleCell(At(s, cidr), Lookup(desired, cidr), alive, true), Lookup(desired, cidr), alive, true)
  {
    AfterCycleAt(s, Cycle(desired, alive, {}), cidr);
    AfterCycleAt(AfterCycle(s, Cycle(desired, alive, {})), Cycle(desired, alive, {}), cidr);
  }

  /** After any history of cycles with failures and changing node facts, two failure-free
      cycles over fixed facts with distinct subnets make the observed routes the desired
      ones, after which Reconcile proposes nothing. No pending operation is left if and
      only if none was stuck, and the provider's routes are the desired ones, instances
      included, if and only if no instance was stale. */
  lemma {:induction false} ConvergesInTwoCycles(initial: State, history: seq<Cycle>, facts: NodeFacts, first: Routes, second: Routes)
    requires Agree(initial)
    requires DistinctSubnets(facts) && IsDesired(facts, first) && IsDesired(facts, second)
    ensures var s := AfterCycles(initial, history);
            var t := AfterCycle(AfterCycle(s, Cycle(first, facts.alive, {})), Cycle(second, facts.alive, {}));
            && t.observed == (map cidr | cidr in first :: first[cidr].node)
            && (t.pending == map[] <==> forall cidr :: !StuckPending(At(s, cidr), Lookup(first, cidr)))
            && (t.provider == first <==> forall cidr :: !StaleInstance(At(s, cidr), Lookup(first, cidr), facts.alive))
            && Proposal(t, first) == Changes(map[], {})
            && AfterCycle(t, Cycle(first, facts.alive, {})) == t
  {
    DesiredUnique(facts, first, second);
    var s := AfterCycles(initial, history);
    AgreementKept(initial, history);
    var once := AfterCycle(s, Cycle(first, facts.alive, {}));
    var twice := AfterCycle(once, Cycle(first, facts.alive, {}));
    forall cidr ensures Converged(At(s, cidr), At(twice, cidr), Lookup(first, cidr), facts.alive) {
      assert AgreeCell(At(s, cidr));
      TwoCyclesAt(s, first, facts.alive, cidr);
      CellConverges(At(s, cidr), Lookup(first, cidr), facts.alive);
    }
    ConvergedMaps(s, twice, first, facts.alive);
    ConvergedQuiet(s, twice, first, facts.alive);
  }

  /** From per-CIDR facts to whole maps. */
  lemma {:induction false} ConvergedMaps(s: State, t: State, desired: Routes, alive: set<string>)
    requires forall cidr :: Converged(At(s, cidr), At(t, cidr), Lookup(desired, cidr), alive)
    ensures t.observed == (map cidr | cidr in desired :: desired[cidr].node)
    ensures t.pending == map[] <==> forall cidr :: !StuckPending(At(s, cidr), Lookup(desired, cidr))
    ensures t.provider == desired <==> forall cidr :: !StaleInstance(At(s, cidr), Lookup(desired, cidr), alive)
  {
    forall cidr
      ensures Converged(At(s, cidr), At(t, cidr), Lookup(desired, cidr), alive)
      ensures StuckPending(At(s, cidr), Lookup(desired, cidr)) <==> cidr in t.pending
      ensures StaleInstance(At(s, cidr), Lookup(desired, cidr), alive) <==> Lookup(t.provider, cidr) != Lookup(desired, cidr)
      ensures Lookup(t.observed, cidr) == Lookup(map c | c in desired :: desired[c].node, cidr)
    {}
    SameMap(t.observed, map cidr | cidr in desired :: desired[cidr].node);
    if forall cidr :: !StaleInstance(At(s, cidr), Lookup(desired, cidr), alive) {
      SameMap(t.provider, desired);
    }
  }

  lemma {:induction false} ConvergedQuiet(s: State, t: State, desired: Routes, alive: set<string>)
    requires forall cidr :: Converged(At(s, cidr), At(t, cidr), Lookup(desired, cidr), alive)
    ensures Proposal(t, desired) == Changes(map[], {})
    ensures AfterCycle(t, Cycle(desired, alive, {})) == t
  {
    forall cidr ensures Quiet(At(t, cidr), Lookup(desired, cidr)) {
      assert Converged(At(s, cidr), At(t, cidr), Lookup(desired, cidr), alive);
    }
    NothingProposedIff(t, desired);
    forall cidr ensures At(Reconciled(t, desired), cidr) == At(t, cidr) {
      assert Converged(At(s, cidr), At(t, cidr), Lookup(desired, cidr), alive);
      ReconciledAt(t, desired, cidr);
    }
    SameState(Reconciled(t, desired), t);
    forall cidr ensures At(Executed(t, alive, {}), cidr) == At(t, cidr) {
      assert Converged(At(s, cidr), At(t, cidr), Lookup(desired, cidr), alive);
      ExecutedAt(t, alive, {}, cidr);
    }
    SameState(Executed(t, alive, {}), t);
  }

  /** A node whose cloud instance was replaced keeps its old route for good. */
  lemma {:induction false} ReplacedInstanceKeepsOldRoute(cidr: string, node: string, before: string, after: string)
    requires before != after
    ensures var s := State(map[cidr := node], map[], map[cidr := Route(node, before)]);
            && Agree(s)
            && AfterCycle(s, Cycle(map[cidr := Route(node, after)], {node}, {})) == s
  {
    var s := State(map[cidr := node], map[], map[cidr := Route(node, before)]);
    var cycle := Cycle(map[cidr := Route(node, after)], {node}, {});
    forall c ensures At(AfterCycle(s, cycle), c) == At(s, c) {
      AfterCycleAt(s, cycle, c);
    }
    SameState(AfterCycle(s, cycle), s);
  }
}
