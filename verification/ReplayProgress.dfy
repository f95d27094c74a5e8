/** How a replay goes on and ends: no run can go on for ever or get stuck, every failure is counted and
    stops the dispatch, and every row is what a worker took, had admitted and released. */
module ReplayProgress {
  import opened Basics
  import opened Counting
  import opened Replay

  // ---------------------------------------------------------------------------
  // Every run ends

  /** Steps that move a worker or the replay on: all but the clock's, and those that only report. */
  predicate Moves(step: Step) {
    !step.Tick? && !step.Report?
  }

  function MovesIn(steps: seq<Step>, n: nat): nat
    requires n <= |steps|
  {
    if n == 0 then 0 else MovesIn(steps, n - 1) + if Moves(steps[n - 1]) then 1 else 0
  }

  /** How many moves a worker can make without taking another request. */
  function Left(w: Worker): nat {
    match w
    case Ready => 1
    case Taken(_) => 5
    case Firing(_, _) => 4
    case Released(_, _, _) => 3
    case Exited => 0
  }

  function AllLeft(workers: seq<Worker>): nat {
    if workers == [] then 0 else AllLeft(workers[..|workers| - 1]) + Left(workers[|workers| - 1])
  }

  /** How many moves the groups from `g` on can take. */
  ghost function Ahead(c: Config, g: nat): nat
    requires g <= |c.groups|
    decreases |c.groups| - g
  {
    if g == |c.groups| then 0 else 5 * |c.groups[g]| + Effective(c, g) + 1 + Ahead(c, g + 1)
  }

  ghost function Potential(c: Config, s: State): nat {
    if s.phase.Running? && s.phase.group < |c.groups| then
      AllLeft(s.workers) + 5 * |s.queue| + 1 + Ahead(c, s.phase.group + 1)
    else 0
  }

  lemma {:induction false} LeftUpdate(workers: seq<Worker>, w: nat, x: Worker)
    requires w < |workers|
    ensures AllLeft(workers[w := x]) + Left(workers[w]) == AllLeft(workers) + Left(x)
  {
    hide Left;
    var last := |workers| - 1;
    if w == last {
      assert workers[w := x][..last] == workers[..last];
    } else {
      LeftUpdate(workers[..last], w, x);
      assert workers[w := x][..last] == workers[..last][w := x];
    }
  }

  lemma {:induction false} AllReady(workers: seq<Worker>)
    requires forall w :: 0 <= w < |workers| ==> workers[w].Ready?
    ensures AllLeft(workers) == |workers|
  {
    if workers != [] {
      AllReady(workers[..|workers| - 1]);
    }
  }

  lemma EnterPotential(c: Config, g: nat, s: State)
    requires g <= |c.groups|
    ensures Potential(c, Enter(c, g, s)) == Ahead(c, g)
  {
    hide AllLeft, Effective, Flatten;
    if g < |c.groups| {
      AllReady(Enter(c, g, s).workers);
    }
  }

  /** A move uses up some of what is left. */
  lemma StepUses(c: Config, s: State, step: Step)
    requires Enabled(c, s, step) && (s.phase.Running? ==> s.phase.group < |c.groups|)
    ensures Potential(c, Apply(c, s, step)) + (if Moves(step) then 1 else 0) <= Potential(c, s)
  {
    hide AllLeft, Enter, Ahead;
    match step
    case Take(w) => LeftUpdate(s.workers, w, Apply(c, s, step).workers[w]);
    case Admit(w) => LeftUpdate(s.workers, w, Apply(c, s, step).workers[w]);
    case Release(w) => LeftUpdate(s.workers, w, Apply(c, s, step).workers[w]);
    case Record(w) => LeftUpdate(s.workers, w, Ready);
    case Crash(w) => LeftUpdate(s.workers, w, Ready);
    case Barrier => EnterPotential(c, s.phase.group + 1, s);
    case _ =>
  }

  lemma {:induction false} MovesUsed(c: Config, states: seq<State>, steps: seq<Step>, i: nat)
    requires c.concurrency >= 1 && Run(c, states, steps) && i <= |steps|
    ensures MovesIn(steps, i) + Potential(c, states[i]) <= Ahead(c, 0)
  {
    hide Inv, Apply, Enabled, Initial, Potential, Ahead;
    if i == 0 {
      var now :| states[0] == Initial(c, now);
      StartPotential(c, now);
    } else {
      MovesUsed(c, states, steps, i - 1);
      assert Enabled(c, states[i - 1], steps[i - 1]);
      InGroup(c, states, steps, i - 1);
      StepUses(c, states[i - 1], steps[i - 1]);
    }
  }

  lemma StartPotential(c: Config, now: real)
    ensures Potential(c, Initial(c, now)) == Ahead(c, 0)
  {
    hide Potential, Ahead, Enter;
    EnterPotential(c, 0, State(Returned, [], [], [], 0, now, now, false, []));
  }

  lemma InGroup(c: Config, states: seq<State>, steps: seq<Step>, i: nat)
    requires c.concurrency >= 1 && Run(c, states, steps) && i < |states|
    ensures states[i].phase.Running? ==> states[i].phase.group < |c.groups|
  {
    hide Run, Staffed, Conserved, Finished, Clocked, Started;
    RunIsSafe(c, states, steps, i);
  }

  lemma {:induction false} AheadBound(c: Config, g: nat)
    requires g <= |c.groups|
    ensures Ahead(c, g) + 6 * |Flatten(c.groups, g)| + g <= 6 * |Flatten(c.groups, |c.groups|)| + |c.groups|
    decreases |c.groups| - g
  {
    if g < |c.groups| {
      AheadBound(c, g + 1);
    }
  }

  /** Whatever the interleaving and the failures, a run makes at most six moves for each request and one
      for each group. */
  lemma RunsEnd(c: Config, states: seq<State>, steps: seq<Step>)
    requires c.concurrency >= 1 && Run(c, states, steps)
    ensures MovesIn(steps, |steps|) <= 6 * |Flatten(c.groups, |c.groups|)| + |c.groups|
  {
    hide Run, Potential, Ahead;
    MovesUsed(c, states, steps, |steps|);
    AheadBound(c, 0);
  }

  /** And until it returns or expires some move other than expiring is possible, so it cannot get stuck. */
  lemma NeverStuck(c: Config, states: seq<State>, steps: seq<Step>, i: nat) returns (step: Step)
    requires c.concurrency >= 1 && Run(c, states, steps) && i < |states| && states[i].phase.Running?
    ensures Enabled(c, states[i], step) && Moves(step) && !step.Expire? && !step.Crash?
  {
    hide Run;
    InGroup(c, states, steps, i);
    var s := states[i];
    if w :| 0 <= w < |s.workers| && !s.workers[w].Exited? {
      step := match s.workers[w]
        case Ready => Take(w)
        case Taken(_) => Admit(w)
        case Firing(_, _) => Release(w)
        case _ => Record(w);
    } else {
      step := Barrier;
    }
  }

  // ---------------------------------------------------------------------------
  // Failures

  predicate Fails(step: Step) {
    step.Report? || step.Crash? || step.Expire?
  }

  function FailuresIn(steps: seq<Step>, n: nat): nat
    requires n <= |steps|
  {
    if n == 0 then 0 else FailuresIn(steps, n - 1) + if Fails(steps[n - 1]) then 1 else 0
  }

  lemma StepCounts(c: Config, s: State, step: Step)
    requires Enabled(c, s, step) && !Apply(c, s, step).omitted
    ensures Apply(c, s, step).errors == s.errors + if Fails(step) then 1 else 0
  {
    hide Flatten, Effective;
  }

  /** Every failure is counted, and nothing else. */
  lemma {:induction false} FailuresCounted(c: Config, states: seq<State>, steps: seq<Step>, i: nat)
    requires c.concurrency >= 1 && Run(c, states, steps) && i <= |steps|
    ensures states[i].errors == FailuresIn(steps, i)
  {
    hide Apply, Enabled, Initial;
    ReturnsEverything(c, states, steps, i);
    if i == 0 {
      var now :| states[0] == Initial(c, now);
      NoFailures(c, now);
    } else {
      FailuresCounted(c, states, steps, i - 1);
      assert Enabled(c, states[i - 1], steps[i - 1]);
      StepCounts(c, states[i - 1], steps[i - 1]);
    }
  }

  lemma NoFailures(c: Config, now: real)
    ensures !Initial(c, now).omitted ==> Initial(c, now).errors == 0
  {
    hide Flatten, Effective;
  }

  /** Once something has failed nothing more is dispatched, no other group starts, and once the replay is
      over its rows stay. */
  lemma {:induction false} FailureStops(c: Config, states: seq<State>, steps: seq<Step>, i: nat, j: nat)
    requires Run(c, states, steps) && i <= j < |states| && states[i].errors > 0
    ensures states[j].errors > 0 && states[j].dispatched == states[i].dispatched
    ensures states[j].phase.Running? ==> states[j].phase == states[i].phase
    ensures !states[i].phase.Running? ==> states[j].phase == states[i].phase && states[j].rows == states[i].rows
    decreases j
  {
    hide Apply, Enabled, Initial;
    if i < j {
      FailureStops(c, states, steps, i, j - 1);
      assert Enabled(c, states[j - 1], steps[j - 1]);
      StopsStep(c, states[j - 1], steps[j - 1]);
    }
  }

  lemma StopsStep(c: Config, s: State, step: Step)
    requires Enabled(c, s, step) && s.errors > 0
    ensures var t := Apply(c, s, step);
            && t.errors > 0 && t.dispatched == s.dispatched && (t.phase.Running? ==> t.phase == s.phase)
            && (!s.phase.Running? ==> t.phase == s.phase && t.rows == s.rows)
  {
  }

  /** A replay returns at a barrier, and raises when it expires. */
  lemma {:induction false} EndsHow(c: Config, states: seq<State>, steps: seq<Step>, i: nat)
    requires Run(c, states, steps) && i < |states|
    ensures states[i].phase.Raised? <==> exists k :: 0 <= k < i && steps[k] == Expire
    ensures states[i].phase.Returned? <==> c.groups == [] || exists k :: 0 <= k < i && steps[k] == Barrier && !states[k + 1].phase.Running?
  {
    hide Apply, Enabled, Initial;
    if i == 0 {
      var now :| states[0] == Initial(c, now);
      StartsRunning(c, now);
    } else {
      EndsHow(c, states, steps, i - 1);
      var s, step := states[i - 1], steps[i - 1];
      assert Enabled(c, s, step);
      PhaseStep(c, s, step);
      if step == Barrier && !states[i].phase.Running? {
        assert states[i - 1 + 1] == states[i];
      }
      assert states[i].phase.Raised? <==> s.phase.Raised? || step == Expire;
      assert states[i].phase.Returned? <==> s.phase.Returned? || (step == Barrier && !states[i].phase.Running?);
    }
  }

  lemma StartsRunning(c: Config, now: real)
    ensures Initial(c, now).phase == if c.groups == [] then Returned else Running(0)
  {
    hide Flatten, Effective;
  }

  lemma PhaseStep(c: Config, s: State, step: Step)
    requires Enabled(c, s, step)
    ensures var t := Apply(c, s, step);
            && (t.phase.Raised? <==> s.phase.Raised? || step == Expire)
            && (t.phase.Returned? <==> s.phase.Returned? || (step == Barrier && !t.phase.Running?))
            && (t.phase.Running? ==> s.phase.Running? && (t.phase == s.phase || (step == Barrier && t.phase.group == s.phase.group + 1)))
  {
    hide Flatten, Effective;
  }

  // ---------------------------------------------------------------------------
  // Where rows come from

  ghost predicate Took(states: seq<State>, steps: seq<Step>, k: int, w: nat, r: Request) {
    0 <= k < |steps| && k < |states| && steps[k] == Take(w) && states[k].queue != [] && states[k].queue[0] == r
  }

  ghost predicate LetIn(states: seq<State>, steps: seq<Step>, k: int, w: nat, at: real) {
    0 <= k < |steps| && k < |states| && steps[k] == Admit(w) && states[k].now == at
  }

  ghost predicate GaveBack(states: seq<State>, steps: seq<Step>, k: int, w: nat, at: real) {
    0 <= k < |steps| && k < |states| && steps[k] == Step.Release(w) && states[k].now == at
  }

  ghost predicate HasTaken(states: seq<State>, steps: seq<Step>, i: nat, w: nat, r: Request) {
    exists t :: t < i && Took(states, steps, t, w, r)
  }

  ghost predicate HasFired(states: seq<State>, steps: seq<Step>, i: nat, w: nat, r: Request, a: real) {
    exists t, k :: t < k < i && Took(states, steps, t, w, r) && LetIn(states, steps, k, w, a)
  }

  ghost predicate HasReleased(states: seq<State>, steps: seq<Step>, i: nat, w: nat, r: Request, a: real, b: real) {
    exists t, k, l :: t < k < l < i && Took(states, steps, t, w, r) && LetIn(states, steps, k, w, a) && GaveBack(states, steps, l, w, b)
  }

  ghost predicate Traced(states: seq<State>, steps: seq<Step>, i: nat, w: nat, worker: Worker) {
    match worker
    case Taken(r) => HasTaken(states, steps, i, w, r)
    case Firing(r, a) => HasFired(states, steps, i, w, r, a)
    case Released(r, a, b) => HasReleased(states, steps, i, w, r, a, b)
    case _ => true
  }

  ghost predicate AllTraced(states: seq<State>, steps: seq<Step>, i: nat, s: State) {
    && (forall w :: 0 <= w < |s.workers| ==> Traced(states, steps, i, w, s.workers[w]))
    && forall x :: 0 <= x < |s.rows| ==>
         var row := s.rows[x]; HasReleased(states, steps, i, row.worker, row.request, row.admission, row.release)
  }

  lemma TracedLater(states: seq<State>, steps: seq<Step>, i: nat, w: nat, worker: Worker)
    requires Traced(states, steps, i, w, worker)
    ensures Traced(states, steps, i + 1, w, worker)
  {
    hide Took, LetIn, GaveBack;
  }

  lemma TracedStep(states: seq<State>, steps: seq<Step>, i: nat, w: nat, before: Worker, after: Worker)
    requires i < |steps| && i < |states| && Traced(states, steps, i, w, before)
    requires after.Taken? ==> Took(states, steps, i, w, after.request)
    requires after.Firing? ==> before.Taken? && after.request == before.request && LetIn(states, steps, i, w, after.admission)
    requires after.Released? ==> before.Firing? && after.request == before.request && after.admission == before.admission
                                 && GaveBack(states, steps, i, w, after.release)
    ensures Traced(states, steps, i + 1, w, after)
  {
    hide Took, LetIn, GaveBack;
    match after
    case Taken(r) =>
    case Firing(r, a) =>
      var t :| t < i && Took(states, steps, t, w, r);
    case Released(r, a, b) =>
      var t, k :| t < k < i && Took(states, steps, t, w, r) && LetIn(states, steps, k, w, a);
    case _ =>
  }

  lemma StepTraces(c: Config, states: seq<State>, steps: seq<Step>, i: nat)
    requires Run(c, states, steps) && i < |steps| && AllTraced(states, steps, i, states[i])
    ensures AllTraced(states, steps, i + 1, states[i + 1])
  {
    hide Traced, HasReleased, Took, LetIn, GaveBack, Initial, Enter;
    var s, step := states[i], steps[i];
    assert Enabled(c, s, step) && states[i + 1] == Apply(c, s, step);
    forall w | 0 <= w < |s.workers| ensures Traced(states, steps, i + 1, w, s.workers[w]) {
      TracedLater(states, steps, i, w, s.workers[w]);
    }
    forall x | 0 <= x < |s.rows|
      ensures var row := s.rows[x]; HasReleased(states, steps, i + 1, row.worker, row.request, row.admission, row.release)
    {
      var row := s.rows[x];
      ReleasedTraced(states, steps, i, row.worker, row.request, row.admission, row.release);
      TracedLater(states, steps, i, row.worker, Released(row.request, row.admission, row.release));
    }
    match step
    case Take(w) => TakeTraces(c, states, steps, i, w);
    case Admit(w) => AdmitTraces(c, states, steps, i, w);
    case Release(w) => ReleaseTraces(c, states, steps, i, w);
    case Record(w) => RecordTraces(states, steps, i, s.workers[w], w);
    case Crash(w) => ReadyTraced(states, steps, i + 1, w);
    case Barrier => EnterTraces(c, states, steps, i + 1, s.phase.group + 1, s);
    case _ =>
  }

  lemma ReleasedTraced(states: seq<State>, steps: seq<Step>, i: nat, w: nat, r: Request, a: real, b: real)
    ensures Traced(states, steps, i, w, Released(r, a, b)) <==> HasReleased(states, steps, i, w, r, a, b)
    ensures Traced(states, steps, i + 1, w, Released(r, a, b)) <==> HasReleased(states, steps, i + 1, w, r, a, b)
  {
  }

  lemma ReadyTraced(states: seq<State>, steps: seq<Step>, i: nat, w: nat)
    ensures Traced(states, steps, i, w, Ready) && Traced(states, steps, i, w, Exited)
  {
  }

  lemma TakeTraces(c: Config, states: seq<State>, steps: seq<Step>, i: nat, w: nat)
    requires i < |steps| && i < |states| && steps[i] == Take(w) && Enabled(c, states[i], Take(w)) && Traced(states, steps, i, w, states[i].workers[w])
    ensures Traced(states, steps, i + 1, w, Apply(c, states[i], Take(w)).workers[w])
  {
    hide Traced;
    ReadyTraced(states, steps, i + 1, w);
    var after := Apply(c, states[i], Take(w)).workers[w];
    if after.Taken? {
      TracedStep(states, steps, i, w, states[i].workers[w], after);
    }
  }

  lemma AdmitTraces(c: Config, states: seq<State>, steps: seq<Step>, i: nat, w: nat)
    requires i < |steps| && i < |states| && steps[i] == Admit(w) && Enabled(c, states[i], Admit(w)) && Traced(states, steps, i, w, states[i].workers[w])
    ensures Traced(states, steps, i + 1, w, Apply(c, states[i], Admit(w)).workers[w])
  {
    hide Traced;
    TracedStep(states, steps, i, w, states[i].workers[w], Apply(c, states[i], Admit(w)).workers[w]);
  }

  lemma ReleaseTraces(c: Config, states: seq<State>, steps: seq<Step>, i: nat, w: nat)
    requires i < |steps| && i < |states| && steps[i] == Step.Release(w) && Enabled(c, states[i], Step.Release(w)) && Traced(states, steps, i, w, states[i].workers[w])
    ensures Traced(states, steps, i + 1, w, Apply(c, states[i], Step.Release(w)).workers[w])
  {
    hide Traced;
    TracedStep(states, steps, i, w, states[i].workers[w], Apply(c, states[i], Step.Release(w)).workers[w]);
  }

  lemma RecordTraces(states: seq<State>, steps: seq<Step>, i: nat, f: Worker, w: nat)
    requires f.Released? && Traced(states, steps, i, w, f)
    ensures HasReleased(states, steps, i + 1, w, f.request, f.admission, f.release) && Traced(states, steps, i + 1, w, Ready)
  {
    TracedLater(states, steps, i, w, f);
  }

  lemma EnterTraces(c: Config, states: seq<State>, steps: seq<Step>, i: nat, g: nat, s: State)
    requires g <= |c.groups|
    requires forall w :: 0 <= w < |s.workers| ==> Traced(states, steps, i, w, s.workers[w])
    ensures forall w :: 0 <= w < |Enter(c, g, s).workers| ==> Traced(states, steps, i, w, Enter(c, g, s).workers[w])
    ensures Enter(c, g, s).rows == s.rows
  {
    hide Flatten, Effective;
  }

  /** Every row of a run was taken from the queue by its worker, then admitted, then released, at the times
      it says. */
  lemma {:induction false} RowsAreMeasured(c: Config, states: seq<State>, steps: seq<Step>, i: nat)
    requires Run(c, states, steps) && i < |states|
    ensures AllTraced(states, steps, i, states[i])
  {
    hide AllTraced, Apply, Enabled, Initial;
    if i == 0 {
      var now :| states[0] == Initial(c, now);
      NothingTraced(c, states, steps, now);
    } else {
      RowsAreMeasured(c, states, steps, i - 1);
      StepTraces(c, states, steps, i - 1);
    }
  }

  lemma NothingTraced(c: Config, states: seq<State>, steps: seq<Step>, now: real)
    ensures AllTraced(states, steps, 0, Initial(c, now))
  {
    hide Flatten, Effective;
  }
}
