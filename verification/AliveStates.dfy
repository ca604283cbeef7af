/** Publishing the alive state at agent startup (agent/telemetry.go): a read and then a
    compare-and-set of the node's state key, against any number of concurrent writers. */
module AliveStates {
  import opened Options

  const ALIVE := "alive"

  predicate Protected(value: string) {
    value == "draining" || value == "disabled" || value == "unreachable"
  }

  datatype Entry = Entry(value: string, revision: nat)

  /** Where the agent is: not begun, done reading (None for a missing key and for a failed
      read alike), or finished, with whether its transaction was committed. */
  datatype Agent = NotStarted | HasRead(seen: Option<Entry>) | Skipped | Finished(committed: bool)

  /** The node's state key, the store-wide revision counter and the agent. */
  datatype State = State(cell: Option<Entry>, counter: nat, agent: Agent)

  datatype Step =
    | Read(failed: bool)
    | CompareAndSet(failed: bool)
    | Put(value: string)
    | Delete
    | WriteElsewhere

  predicate Enabled(s: State, step: Step) {
    match step
    case Read(_) => s.agent.NotStarted?
    case CompareAndSet(_) => s.agent.HasRead?
    case _ => true
  }

  /** A put of the value already there changes nothing; any other takes the next revision. */
  function AfterPut(s: State, value: string): State {
    if s.cell.Some? && s.cell.value.value == value then s
    else s.(cell := Some(Entry(value, s.counter + 1)), counter := s.counter + 1)
  }

  /** Revision 0 asks for a missing key, any other for exactly that revision. */
  predicate Matches(cell: Option<Entry>, revision: nat) {
    if revision == 0 then cell.None? else cell.Some? && cell.value.revision == revision
  }

  function Guard(seen: Option<Entry>): nat {
    match seen case None => 0 case Some(entry) => entry.revision
  }

  function Apply(s: State, step: Step): State
    requires Enabled(s, step)
  {
    match step
    case Read(failed) =>
      var seen := if failed then None else s.cell;
      s.(agent := if seen.Some? && Protected(seen.value.value) then Skipped else HasRead(seen))
    case CompareAndSet(failed) =>
      if !failed && Matches(s.cell, Guard(s.agent.seen))
      then AfterPut(s, ALIVE).(agent := Finished(true))
      else s.(agent := Finished(false))
    case Put(value) => AfterPut(s, value)
    case Delete => if s.cell.None? then s else s.(cell := None, counter := s.counter + 1)
    case WriteElsewhere => s.(counter := s.counter + 1)
  }

  ghost predicate IsRun(run: seq<State>, steps: seq<Step>) {
    && |run| == |steps| + 1
    && run[0].agent.NotStarted? && CellOk(run[0])
    && forall k | 0 <= k < |steps| :: Enabled(run[k], steps[k]) && run[k + 1] == Apply(run[k], steps[k])
  }

  ghost predicate CellOk(s: State) {
    s.cell.Some? ==> 1 <= s.cell.value.revision <= s.counter
  }

  ghost predicate Inv(s: State) {
    && CellOk(s)
    && (s.agent.HasRead? && s.agent.seen.Some? ==>
          var seen := s.agent.seen.value;
          && 1 <= seen.revision <= s.counter && !Protected(seen.value)
          && (s.cell.Some? && s.cell.value.revision == seen.revision ==> s.cell.value == seen))
  }

  lemma {:induction false} StepKeeps(s: State, step: Step)
    requires Inv(s) && Enabled(s, step)
    ensures Inv(Apply(s, step))
  {
  }

  lemma {:induction false} RunKeeps(run: seq<State>, steps: seq<Step>, k: nat)
    requires IsRun(run, steps) && k < |run|
    ensures Inv(run[k])
    decreases k
  {
    if k > 0 {
      RunKeeps(run, steps, k - 1);
      assert run[k - 1 + 1] == Apply(run[k - 1], steps[k - 1]);
      StepKeeps(run[k - 1], steps[k - 1]);
    }
  }

  /** Revisions are never reused: an entry no newer than the counter of an earlier state was
      already there in that state. */
  lemma {:induction false} EntryWasThere(run: seq<State>, steps: seq<Step>, i: nat, j: nat)
    requires IsRun(run, steps) && i <= j < |run|
    requires run[j].cell.Some? && run[j].cell.value.revision <= run[i].counter
    ensures run[i].cell == run[j].cell
    decreases j - i
  {
    if i < j {
      CounterGrows(run, steps, i, j - 1);
      assert run[j - 1 + 1] == Apply(run[j - 1], steps[j - 1]);
      EntryWasThere(run, steps, i, j - 1);
    }
  }

  lemma {:induction false} CounterGrows(run: seq<State>, steps: seq<Step>, i: nat, j: nat)
    requires IsRun(run, steps) && i <= j < |run|
    ensures run[i].counter <= run[j].counter
    decreases j - i
  {
    if i < j {
      CounterGrows(run, steps, i, j - 1);
      assert run[j - 1 + 1] == Apply(run[j - 1], steps[j - 1]);
    }
  }

  predicate ByAgent(step: Step) {
    step.Read? || step.CompareAndSet?
  }

  /** In every run, whatever the other writers do and whenever they do it, no step of the
      agent changes a state key that holds draining, disabled or unreachable. */
  lemma {:induction false} ProtectedKept(run: seq<State>, steps: seq<Step>, k: nat)
    requires IsRun(run, steps) && k < |steps| && ByAgent(steps[k])
    requires run[k].cell.Some? && run[k].cell.value.value in {"draining", "disabled", "unreachable"}
    ensures run[k + 1].cell == run[k].cell && run[k + 1].counter == run[k].counter
    ensures run[k + 1].agent != Finished(true)
  {
    RunKeeps(run, steps, k);
    assert Enabled(run[k], steps[k]) && run[k + 1] == Apply(run[k], steps[k]);
  }

  /** What a read leaves behind stays with the agent until its transaction. */
  lemma {:induction false} SeenKept(run: seq<State>, steps: seq<Step>, i: nat, j: nat)
    requires IsRun(run, steps) && i < j < |run| && steps[i].Read? && run[j].agent.HasRead?
    ensures run[j].agent.seen == if steps[i].failed then None else run[i].cell
    decreases j - i
  {
    assert Enabled(run[i], steps[i]) && run[i + 1] == Apply(run[i], steps[i]);
    if i + 1 < j {
      assert Enabled(run[j - 1], steps[j - 1]) && run[j - 1 + 1] == Apply(run[j - 1], steps[j - 1]);
      if run[j - 1].agent.NotStarted? {
        Begun(run, steps, i, j - 1);
      } else {
        SeenKept(run, steps, i, j - 1);
      }
    }
  }

  lemma {:induction false} Begun(run: seq<State>, steps: seq<Step>, i: nat, j: nat)
    requires IsRun(run, steps) && i < j < |run| && steps[i].Read?
    ensures !run[j].agent.NotStarted?
    decreases j - i
  {
    assert Enabled(run[j - 1], steps[j - 1]) && run[j - 1 + 1] == Apply(run[j - 1], steps[j - 1]);
    if i + 1 < j { Begun(run, steps, i, j - 1); }
  }

  /** A committed transaction that read an entry found the key untouched in every state from
      the read on; one that read none found the key missing. */
  lemma {:induction false} CommitMeansUnchanged(run: seq<State>, steps: seq<Step>, i: nat, m: nat, j: nat)
    requires IsRun(run, steps) && i <= m <= j < |steps|
    requires i < j && steps[i].Read? && steps[j].CompareAndSet? && run[j + 1].agent == Finished(true)
    ensures !steps[i].failed && run[i].cell.Some? ==> run[m].cell == run[i].cell
    ensures steps[i].failed || run[i].cell.None? ==> run[j].cell.None?
    ensures run[j + 1].cell.Some? && run[j + 1].cell.value.value == "alive"
  {
    assert Enabled(run[j], steps[j]) && run[j + 1] == Apply(run[j], steps[j]);
    SeenKept(run, steps, i, j);
    RunKeeps(run, steps, i);
    if !steps[i].failed && run[i].cell.Some? {
      CounterGrows(run, steps, i, m);
      EntryWasThere(run, steps, m, j);
      EntryWasThere(run, steps, i, j);
    }
  }

  /** A commit that read no entry found the key missing in every state since the read if and
      only if no other writer put it meanwhile: the transaction checks its absence only. */
  lemma {:induction false} MissingUntouchedIff(run: seq<State>, steps: seq<Step>, i: nat, j: nat)
    requires IsRun(run, steps) && i < j < |steps| && steps[i] == Read(false) && run[i].cell.None?
    requires steps[j].CompareAndSet? && run[j + 1].agent == Finished(true)
    ensures (forall m | i <= m <= j :: run[m].cell.None?) <==> forall m | i <= m < j :: !steps[m].Put?
  {
    if forall m | i <= m < j :: !steps[m].Put? {
      forall m | i <= m <= j ensures run[m].cell.None? { StaysMissing(run, steps, i, m, j); }
    } else {
      var m :| i <= m < j && steps[m].Put?;
      assert run[m + 1] == Apply(run[m], steps[m]);
      assert run[m + 1].cell.Some?;
    }
  }

  lemma {:induction false} StaysMissing(run: seq<State>, steps: seq<Step>, i: nat, m: nat, j: nat)
    requires IsRun(run, steps) && i <= m <= j < |steps| && i < j && steps[i].Read? && run[i].cell.None?
    requires steps[j].CompareAndSet? && forall k | i <= k < j :: !steps[k].Put?
    ensures run[m].cell.None?
    decreases m - i
  {
    if i < m {
      StaysMissing(run, steps, i, m - 1, j);
      assert Enabled(run[m - 1], steps[m - 1]) && run[m - 1 + 1] == Apply(run[m - 1], steps[m - 1]);
      if steps[m - 1].CompareAndSet? { DoneStaysDone(run, steps, m, j); }
    }
  }

  lemma {:induction false} DoneStaysDone(run: seq<State>, steps: seq<Step>, m: nat, j: nat)
    requires IsRun(run, steps) && m <= j < |run| && run[m].agent.Finished?
    ensures run[j].agent.Finished?
    decreases j - m
  {
    if m < j {
      DoneStaysDone(run, steps, m, j - 1);
      assert Enabled(run[j - 1], steps[j - 1]) && run[j - 1 + 1] == Apply(run[j - 1], steps[j - 1]);
    }
  }

  /** A missing key may have come and gone since the read: only its absence is checked. */
  lemma {:induction false} MissingKeyMayComeAndGo(counter: nat)
    ensures var s0 := State(None, counter, NotStarted);
            var s1 := Apply(s0, Read(false));
            var s2 := Apply(s1, Put("draining"));
            var s3 := Apply(s2, Delete);
            var s4 := Apply(s3, CompareAndSet(false));
            s2.cell == Some(Entry("draining", counter + 1)) && s4.agent == Finished(true)
  {
  }

  /** With nobody else writing and no failed call, the key ends alive exactly when it did not
      hold a protected state; anything else there, known or not, is overwritten. */
  lemma {:induction false} QuietStartup(s: State)
    requires s.agent.NotStarted? && CellOk(s)
    ensures var read := Apply(s, Read(false));
            if s.cell.Some? && s.cell.value.value in {"draining", "disabled", "unreachable"} then read == s.(agent := Skipped)
            else
              && read.agent.HasRead?
              && var done := Apply(read, CompareAndSet(false));
                 done.agent == Finished(true) && done.cell.Some? && done.cell.value.value == "alive"
  {
  }
}
