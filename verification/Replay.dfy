/** Bounded-concurrency replay: worker threads share a queue, a row list and an error list, one
    group of requests at a time, with a barrier between groups and a deadline over the whole
    replay. Every property below holds in every state of every interleaving. */
module Replay {
  import opened Basics
  import opened Counting
  import TierGroups

  type Request = TierGroups.Request

  /** A recorded request: which worker of which group held a slot for it, when the group started, and
      from when to when the slot was held. */
  datatype Row = Row(request: Request, group: nat, worker: nat, start: real, admission: real, release: real)

  /** Where one worker thread stands. */
  datatype Worker =
    | Ready                                                             // about to look at the queue
    | Taken(request: Request)                                           // has a request, not admitted yet
    | Firing(request: Request, admission: real)                         // the request is running
    | Released(request: Request, admission: real, release: real)        // finished, row not recorded yet
    | Exited

  datatype Phase = Running(group: nat) | Returned | Raised

  datatype State = State(
    phase: Phase, queue: seq<Request>, workers: seq<Worker>, rows: seq<Row>, errors: nat, now: real, start: real,
    omitted: bool, dispatched: seq<Request>)

  datatype Config = Config(groups: seq<seq<Request>>, concurrency: nat)

  /** The number of workers started for a group. */
  function Effective(c: Config, g: nat): nat
    requires g < |c.groups|
  {
    Min(c.concurrency, |c.groups[g]|)
  }

  /** Start group `g`, or return when there is none left, reporting omitted requests. */
  ghost function Enter(c: Config, g: nat, s: State): State
    requires g <= |c.groups|
  {
    if g < |c.groups| then
      s.(phase := Running(g), queue := c.groups[g], start := s.now, workers := seq(Effective(c, g), _ => Ready))
    else
      var omitted := |s.rows| != |Flatten(c.groups, |c.groups|)| && s.errors == 0;
      s.(phase := Returned, omitted := omitted, errors := if omitted then s.errors + 1 else s.errors)
  }

  ghost function Initial(c: Config, now: real): State {
    Enter(c, 0, State(Returned, [], [], [], 0, now, now, false, []))
  }

  datatype Step =
    | Tick(time: real)   // the clock moves on
    | Take(w: nat)       // a worker takes the next request, or exits
    | Admit(w: nat)      // the request is admitted to a slot
    | Report(w: nat)     // the request failed: an error is reported, a row will still be written
    | Release(w: nat)    // the slot is given back
    | Record(w: nat)     // the row is written
    | Crash(w: nat)      // the worker's request failed outright: an error and no row
    | Barrier            // all workers have exited: the next group, or the end
    | Expire             // the deadline passes while a worker is alive

  ghost predicate Enabled(c: Config, s: State, step: Step) {
    match step
    case Tick(time) => s.now <= time
    case Take(w) => s.phase.Running? && w < |s.workers| && s.workers[w].Ready?
    case Admit(w) => s.phase.Running? && w < |s.workers| && s.workers[w].Taken?
    case Report(w) => s.phase.Running? && w < |s.workers| && s.workers[w].Firing?
    case Release(w) => s.phase.Running? && w < |s.workers| && s.workers[w].Firing?
    case Record(w) => s.phase.Running? && w < |s.workers| && s.workers[w].Released?
    case Crash(w) => s.phase.Running? && w < |s.workers| && (s.workers[w].Taken? || s.workers[w].Firing? || s.workers[w].Released?)
    case Barrier => s.phase.Running? && s.phase.group < |c.groups| && forall w :: 0 <= w < |s.workers| ==> s.workers[w].Exited?
    case Expire => s.phase.Running? && exists w :: 0 <= w < |s.workers| && !s.workers[w].Exited?
  }

  ghost function Apply(c: Config, s: State, step: Step): State
    requires Enabled(c, s, step)
  {
    match step
    case Tick(time) => s.(now := time)
    case Take(w) =>
      if s.queue == [] || s.errors > 0 then s.(workers := s.workers[w := Exited])
      else s.(workers := s.workers[w := Taken(s.queue[0])], queue := s.queue[1..], dispatched := s.dispatched + [s.queue[0]])
    case Admit(w) => s.(workers := s.workers[w := Firing(s.workers[w].request, s.now)])
    case Report(w) => s.(errors := s.errors + 1)
    case Release(w) => s.(workers := s.workers[w := Released(s.workers[w].request, s.workers[w].admission, s.now)])
    case Record(w) =>
      var f := s.workers[w];
      s.(workers := s.workers[w := Ready],
         rows := s.rows + [Row(f.request, s.phase.group, w, s.start, f.admission, f.release)])
    case Crash(w) => s.(workers := s.workers[w := Ready], errors := s.errors + 1)
    case Barrier => if s.errors > 0 then s.(phase := Returned) else Enter(c, s.phase.group + 1, s)
    case Expire => s.(phase := Raised, errors := s.errors + 1)
  }

  /** A run: every state follows from the one before by an enabled step. */
  ghost predicate Run(c: Config, states: seq<State>, steps: seq<Step>) {
    && |states| == |steps| + 1
    && (exists now :: states[0] == Initial(c, now))
    && forall i :: 0 <= i < |steps| ==> Enabled(c, states[i], steps[i]) && states[i + 1] == Apply(c, states[i], steps[i])
  }

  // ---------------------------------------------------------------------------
  // The invariant

  predicate Busy(w: Worker) {
    w.Taken? || w.Firing? || w.Released?
  }

  ghost function Load(w: Worker): multiset<Request> {
    if Busy(w) then multiset{w.request} else multiset{}
  }

  /** The requests the workers are busy with. */
  ghost function InFlight(workers: seq<Worker>): multiset<Request> {
    if workers == [] then multiset{} else InFlight(workers[..|workers| - 1]) + Load(workers[|workers| - 1])
  }

  ghost function Recorded(rows: seq<Row>): multiset<Request> {
    if rows == [] then multiset{} else Recorded(rows[..|rows| - 1]) + multiset{rows[|rows| - 1].request}
  }

  /** While nothing has failed, every dispatched request is recorded or in flight, once. */
  ghost predicate Conserved(c: Config, s: State) {
    s.errors == 0 ==> Recorded(s.rows) + InFlight(s.workers) == multiset(s.dispatched)
  }

  /** Requests leave the queue in group order, each once. */
  ghost predicate InOrder(c: Config, s: State) {
    s.phase.Running? ==>
      && s.phase.group < |c.groups| && |s.queue| <= |c.groups[s.phase.group]|
      && var group := c.groups[s.phase.group];
         var taken := |group| - |s.queue|;
      && s.queue == group[taken..]
      && s.dispatched == Flatten(c.groups, s.phase.group) + group[..taken]
  }

  /** A group has its share of workers, and while nothing has failed none leaves before the queue
      is empty. */
  ghost predicate Staffed(c: Config, s: State) {
    s.phase.Running? && s.phase.group < |c.groups| ==>
      && |s.workers| == Effective(c, s.phase.group)
      && (s.errors == 0 && (exists w :: 0 <= w < |s.workers| && s.workers[w].Exited?) ==> s.queue == [])
  }

  /** Nothing is ever reported as omitted, and a replay that returns without errors has recorded
      exactly the requests it was given. */
  ghost predicate Finished(c: Config, s: State) {
    !s.omitted && (s.phase.Returned? && s.errors == 0 ==> Recorded(s.rows) == multiset(Flatten(c.groups, |c.groups|)))
  }

  /** What a busy worker has measured so far. */
  ghost predicate Timed(s: State, w: nat)
    requires w < |s.workers| && s.phase.Running?
  {
    match s.workers[w]
    case Firing(_, a) => a <= s.now && Cleared(s, w, a)
    case Released(_, a, r) => a <= r <= s.now && Cleared(s, w, a)
    case _ => true
  }

  /** Everything this worker did in this group, and everything in earlier groups, was over by `a`. */
  ghost predicate Cleared(s: State, w: nat, a: real)
    requires s.phase.Running?
  {
    forall i :: 0 <= i < |s.rows| && (s.rows[i].group < s.phase.group || (s.rows[i].group == s.phase.group && s.rows[i].worker == w))
      ==> s.rows[i].release <= a
  }

  /** Rows of one worker never overlap, and a group's rows come after all rows of earlier groups. */
  ghost predicate Separate(c: Config, rows: seq<Row>, now: real) {
    && (forall i :: 0 <= i < |rows| ==>
          rows[i].group < |c.groups| && rows[i].worker < Effective(c, rows[i].group) && rows[i].admission <= rows[i].release <= now)
    && (forall i, j :: 0 <= i < j < |rows| ==> rows[i].group <= rows[j].group)
    && (forall i, j :: 0 <= i < j < |rows| && (rows[i].group < rows[j].group || rows[i].worker == rows[j].worker)
          ==> rows[i].release <= rows[j].admission)
  }

  ghost predicate Clocked(c: Config, s: State) {
    && Separate(c, s.rows, s.now)
    && (s.phase.Running? ==>
          && (forall i :: 0 <= i < |s.rows| ==> s.rows[i].group <= s.phase.group)
          && (forall w :: 0 <= w < |s.workers| ==> Timed(s, w)))
  }

  /** A group has one start, which all rows of earlier groups were over by. */
  ghost predicate StartsApart(rows: seq<Row>) {
    && (forall i :: 0 <= i < |rows| ==> rows[i].start <= rows[i].admission)
    && (forall i, j :: 0 <= i < j < |rows| && rows[i].group == rows[j].group ==> rows[i].start == rows[j].start)
    && (forall i, j :: 0 <= i < j < |rows| && rows[i].group < rows[j].group ==> rows[i].release <= rows[j].start)
  }

  ghost predicate Admitted(w: Worker, start: real) {
    match w
    case Firing(_, a) => start <= a
    case Released(_, a, _) => start <= a
    case _ => true
  }

  ghost predicate Started(s: State) {
    && StartsApart(s.rows)
    && (s.phase.Running? ==>
          && s.start <= s.now
          && (forall i :: 0 <= i < |s.rows| ==>
                if s.rows[i].group < s.phase.group then s.rows[i].release <= s.start else s.rows[i].start == s.start)
          && (forall w :: 0 <= w < |s.workers| ==> Admitted(s.workers[w], s.start)))
  }

  ghost predicate Inv(c: Config, s: State) {
    InOrder(c, s) && Staffed(c, s) && Conserved(c, s) && Finished(c, s) && Clocked(c, s) && Started(s)
  }

  // ---------------------------------------------------------------------------
  // Every step keeps it

  lemma MultisetShuffle(a: multiset<Request>, b: multiset<Request>, c: multiset<Request>, d: multiset<Request>,
                        e: multiset<Request>)
    requires a + b == c + d
    ensures (a + e) + b == (c + e) + d
  {
    forall x: Request ensures ((a + e) + b)[x] == ((c + e) + d)[x] {
      assert (a + b)[x] == (c + d)[x];
    }
  }

  lemma MultisetSwap(a: multiset<Request>, b: multiset<Request>, c: multiset<Request>)
    ensures (a + b) + c == (a + c) + b
  {
  }

  lemma {:induction false} InFlightUpdate(workers: seq<Worker>, w: nat, x: Worker)
    requires w < |workers|
    ensures InFlight(workers[w := x]) + Load(workers[w]) == InFlight(workers) + Load(x)
  {
    hide Load;
    var last := |workers| - 1;
    if w == last {
      assert workers[w := x][..last] == workers[..last];
      MultisetSwap(InFlight(workers[..last]), Load(x), Load(workers[w]));
    } else {
      var init, init' := workers[..last], workers[..last][w := x];
      InFlightUpdate(init, w, x);
      assert workers[w := x][..last] == init';
      MultisetShuffle(InFlight(init'), Load(init[w]), InFlight(init), Load(x), Load(workers[last]));
    }
  }

  lemma SameLoad(workers: seq<Worker>, w: nat, x: Worker)
    requires w < |workers| && Load(x) == Load(workers[w])
    ensures InFlight(workers[w := x]) == InFlight(workers)
  {
    InFlightUpdate(workers, w, x);
    forall r: Request ensures InFlight(workers[w := x])[r] == InFlight(workers)[r] {
      assert (InFlight(workers[w := x]) + Load(x))[r] == (InFlight(workers) + Load(x))[r];
    }
  }

  lemma {:induction false} NoneInFlight(workers: seq<Worker>)
    requires forall w :: 0 <= w < |workers| ==> !Busy(workers[w])
    ensures InFlight(workers) == multiset{}
  {
    if workers != [] {
      NoneInFlight(workers[..|workers| - 1]);
    }
  }

  lemma RecordedSnoc(rows: seq<Row>, row: Row)
    ensures Recorded(rows + [row]) == Recorded(rows) + multiset{row.request}
  {
    assert (rows + [row])[..|rows|] == rows;
  }

  lemma {:induction false} RecordedSize(rows: seq<Row>)
    ensures |Recorded(rows)| == |rows|
  {
    if rows != [] {
      RecordedSize(rows[..|rows| - 1]);
    }
  }

  lemma TakeConserves(c: Config, s: State, w: nat)
    requires Conserved(c, s) && Enabled(c, s, Take(w))
    ensures Conserved(c, Apply(c, s, Take(w)))
  {
    hide InFlight, Recorded;
    var s' := Apply(c, s, Take(w));
    if s'.workers[w].Exited? {
      SameLoad(s.workers, w, Exited);
    } else {
      InFlightUpdate(s.workers, w, s'.workers[w]);
      assert InFlight(s'.workers) + multiset{} == InFlight(s'.workers);
      assert Recorded(s.rows) + (InFlight(s.workers) + multiset{s.queue[0]})
          == (Recorded(s.rows) + InFlight(s.workers)) + multiset{s.queue[0]};
    }
  }

  lemma RecordConserves(c: Config, s: State, w: nat)
    requires Conserved(c, s) && Enabled(c, s, Record(w))
    ensures Conserved(c, Apply(c, s, Record(w)))
  {
    hide InFlight, Recorded;
    var s' := Apply(c, s, Record(w));
    var r := multiset{s.workers[w].request};
    InFlightUpdate(s.workers, w, Ready);
    RecordedSnoc(s.rows, s'.rows[|s.rows|]);
    assert InFlight(s.workers) + multiset{} == InFlight(s.workers);
    assert Recorded(s.rows) + (InFlight(s'.workers) + r) == (Recorded(s.rows) + r) + InFlight(s'.workers);
  }

  lemma StepConserves(c: Config, s: State, step: Step)
    requires Inv(c, s) && Enabled(c, s, step)
    ensures Conserved(c, Apply(c, s, step))
  {
    hide InOrder, Staffed, Finished, Clocked, InFlight, Recorded, Flatten, Started;
    var s' := Apply(c, s, step);
    match step
    case Tick(_) =>
    case Take(w) => TakeConserves(c, s, w);
    case Admit(w) => SameLoad(s.workers, w, s'.workers[w]);
    case Report(w) =>
    case Release(w) => SameLoad(s.workers, w, s'.workers[w]);
    case Record(w) => RecordConserves(c, s, w);
    case Crash(w) =>
    case Barrier =>
      NoneInFlight(s.workers);
      if s'.phase.Running? {
        NoneInFlight(s'.workers);
      }
    case Expire =>
  }

  lemma TakeInOrder(c: Config, s: State, w: nat)
    requires InOrder(c, s) && Enabled(c, s, Take(w))
    ensures InOrder(c, Apply(c, s, Take(w)))
  {
    hide Flatten;
    var group := c.groups[s.phase.group];
    var taken := |group| - |s.queue|;
    if s.queue != [] {
      assert group[..taken + 1] == group[..taken] + [s.queue[0]];
    }
  }

  lemma BarrierInOrder(c: Config, s: State)
    requires c.concurrency >= 1 && Inv(c, s) && Enabled(c, s, Barrier)
    ensures InOrder(c, Apply(c, s, Barrier))
  {
    hide Staffed, Conserved, Finished, Clocked, Started;
    var g := s.phase.group;
    var group := c.groups[g];
    if s.errors == 0 {
      QueueDrained(c, s);
      assert group[..|group|] == group;
      assert Flatten(c.groups, g + 1) == s.dispatched;
      if g + 1 < |c.groups| {
        assert c.groups[g + 1][..0] == [];
      }
    }
  }

  lemma StepInOrder(c: Config, s: State, step: Step)
    requires c.concurrency >= 1 && Inv(c, s) && Enabled(c, s, step)
    ensures InOrder(c, Apply(c, s, step))
  {
    hide Staffed, Conserved, Finished, Clocked, Flatten, Started;
    match step
    case Take(w) => TakeInOrder(c, s, w);
    case Barrier => BarrierInOrder(c, s);
    case _ =>
  }

  /** When every worker has left without an error, the queue is empty. */
  lemma QueueDrained(c: Config, s: State)
    requires c.concurrency >= 1 && Inv(c, s) && Enabled(c, s, Barrier) && s.errors == 0
    ensures s.queue == []
  {
    hide Conserved, Finished, Clocked, Flatten, Started;
    if |s.workers| > 0 {
      assert s.workers[0].Exited?;
    }
  }

  lemma StepStaffed(c: Config, s: State, step: Step)
    requires Inv(c, s) && Enabled(c, s, step)
    ensures Staffed(c, Apply(c, s, step))
  {
    hide InOrder, Conserved, Finished, Clocked, Flatten, Started;
  }

  lemma StepFinished(c: Config, s: State, step: Step)
    requires c.concurrency >= 1 && Inv(c, s) && Enabled(c, s, step)
    ensures Finished(c, Apply(c, s, step))
  {
    hide Staffed, Clocked, InFlight, Recorded, Started;
    if step.Barrier? && s.errors == 0 && s.phase.group + 1 == |c.groups| {
      QueueDrained(c, s);
      NoneInFlight(s.workers);
      RecordedSize(s.rows);
      var group := c.groups[s.phase.group];
      assert group[..|group|] == group;
      assert s.dispatched == Flatten(c.groups, |c.groups|);
      assert Recorded(s.rows) + multiset{} == Recorded(s.rows);
      assert |multiset(s.dispatched)| == |s.dispatched|;
    }
  }

  lemma StepClocked(c: Config, s: State, step: Step)
    requires Inv(c, s) && Enabled(c, s, step)
    ensures Clocked(c, Apply(c, s, step))
  {
    hide Conserved, Finished, Flatten, Separate, Started;
    var s' := Apply(c, s, step);
    if s.phase.Running? {
      forall v | 0 <= v < |s.workers| ensures Timed(s, v) {
      }
    }
    match step
    case Tick(_) =>
      LaterIsSeparate(c, s.rows, s.now, s'.now);
      if s'.phase.Running? {
        forall v | 0 <= v < |s'.workers| ensures Timed(s', v) {
          assert Timed(s, v);
        }
      }
    case Record(w) =>
      RecordSeparate(c, s, w);
    case Admit(w) =>
      NowIsClear(c, s, w);
      forall v | 0 <= v < |s'.workers| ensures Timed(s', v) {
        assert Timed(s, v);
        assert Cleared(s, w, s.now) ==> Cleared(s', w, s.now);
      }
    case Take(w) => OthersTimed(s, s', w);
    case Report(w) => OthersTimed(s, s', w);
    case Release(w) => OthersTimed(s, s', w);
    case Crash(w) => OthersTimed(s, s', w);
    case Barrier =>
    case Expire =>
  }

  /** A step of one worker that writes no row leaves the others' measurements alone. */
  lemma OthersTimed(s: State, s': State, w: nat)
    requires s.phase.Running? && s'.phase == s.phase && s'.rows == s.rows && s'.now == s.now
    requires |s'.workers| == |s.workers| && w < |s.workers|
    requires forall v :: 0 <= v < |s.workers| ==> Timed(s, v) && (v != w ==> s'.workers[v] == s.workers[v])
    requires Busy(s'.workers[w]) && !s'.workers[w].Taken? ==>
               && Busy(s.workers[w]) && !s.workers[w].Taken? && s'.workers[w].admission == s.workers[w].admission
               && (s'.workers[w].Released? ==> s.workers[w] == s'.workers[w] || s'.workers[w].release == s.now)
    ensures forall v :: 0 <= v < |s'.workers| ==> Timed(s', v)
  {
    forall v | 0 <= v < |s'.workers| ensures Timed(s', v) {
      assert Timed(s, v);
    }
  }

  lemma LaterIsSeparate(c: Config, rows: seq<Row>, now: real, later: real)
    requires Separate(c, rows, now) && now <= later
    ensures Separate(c, rows, later)
  {
  }

  lemma NowIsClear(c: Config, s: State, w: nat)
    requires Separate(c, s.rows, s.now) && s.phase.Running?
    ensures Cleared(s, w, s.now)
  {
  }

  lemma RecordSeparate(c: Config, s: State, w: nat)
    requires Clocked(c, s) && Staffed(c, s) && Enabled(c, s, Record(w)) && s.phase.group < |c.groups|
    ensures Separate(c, Apply(c, s, Record(w)).rows, s.now)
    ensures var s' := Apply(c, s, Record(w)); forall v :: 0 <= v < |s'.workers| ==> Timed(s', v)
  {
    hide Separate;
    var s' := Apply(c, s, Record(w));
    assert Timed(s, w);
    var row := s'.rows[|s.rows|];
    assert s'.rows == s.rows + [row];
    SeparateMore(c, s, w, row);
    forall v | 0 <= v < |s'.workers| ensures Timed(s', v) {
      assert Timed(s, v);
    }
  }

  lemma SeparateMore(c: Config, s: State, w: nat, row: Row)
    requires s.phase.Running? && s.phase.group < |c.groups| && Separate(c, s.rows, s.now)
    requires forall i :: 0 <= i < |s.rows| ==> s.rows[i].group <= s.phase.group
    requires row.group == s.phase.group && row.worker == w < Effective(c, s.phase.group)
    requires row.admission <= row.release <= s.now && Cleared(s, w, row.admission)
    ensures Separate(c, s.rows + [row], s.now)
  {
    hide Effective;
  }

  lemma StepStarted(c: Config, s: State, step: Step)
    requires Inv(c, s) && Enabled(c, s, step)
    ensures Started(Apply(c, s, step))
  {
    hide InOrder, Staffed, Conserved, Finished, Clocked, Flatten, StartsApart;
    RowsSoFar(c, s);
    match step
    case Record(w) =>
      assert Admitted(s.workers[w], s.start);
      RowStarted(s, Apply(c, s, step).rows[|s.rows|]);
    case _ =>
  }

  lemma RowsSoFar(c: Config, s: State)
    requires Clocked(c, s)
    ensures forall i :: 0 <= i < |s.rows| ==> s.rows[i].release <= s.now && (s.phase.Running? ==> s.rows[i].group <= s.phase.group)
  {
  }

  lemma RowStarted(s: State, row: Row)
    requires s.phase.Running? && Started(s) && (forall i :: 0 <= i < |s.rows| ==> s.rows[i].group <= s.phase.group)
    requires row.group == s.phase.group && row.start == s.start <= row.admission
    ensures StartsApart(s.rows + [row])
  {
  }

  lemma StepKeeps(c: Config, s: State, step: Step)
    requires c.concurrency >= 1 && Inv(c, s) && Enabled(c, s, step)
    ensures Inv(c, Apply(c, s, step))
  {
    hide InOrder, Staffed, Conserved, Finished, Clocked, Started, Apply;
    StepInOrder(c, s, step);
    StepStaffed(c, s, step);
    StepConserves(c, s, step);
    StepFinished(c, s, step);
    StepClocked(c, s, step);
    StepStarted(c, s, step);
  }

  lemma InitialHolds(c: Config, now: real)
    ensures Inv(c, Initial(c, now))
  {
    hide Recorded, InFlight, Clocked, Conserved, Finished, InOrder, Started, Initial, Flatten;
    InitialCounts(c, now);
    InitialOrder(c, now);
    InitialStaffed(c, now);
    InitialClocked(c, now);
  }

  lemma InitialCounts(c: Config, now: real)
    ensures Conserved(c, Initial(c, now)) && Finished(c, Initial(c, now))
  {
    hide Clocked, Effective;
    var s := Initial(c, now);
    NoneInFlight(s.workers);
    assert c.groups == [] ==> Flatten(c.groups, |c.groups|) == [];
  }

  lemma InitialOrder(c: Config, now: real)
    ensures InOrder(c, Initial(c, now))
  {
    hide Recorded, InFlight, Effective;
    assert c.groups != [] ==> c.groups[0][..0] == [] && Flatten(c.groups, 0) == [];
  }

  lemma InitialStaffed(c: Config, now: real)
    ensures Staffed(c, Initial(c, now))
  {
    hide Recorded, InFlight, Flatten;
  }

  lemma InitialClocked(c: Config, now: real)
    ensures Clocked(c, Initial(c, now)) && Started(Initial(c, now))
  {
    hide Recorded, InFlight, Flatten, Effective;
  }

  /** Every state of every run satisfies the invariant. */
  lemma {:induction false} RunIsSafe(c: Config, states: seq<State>, steps: seq<Step>, i: nat)
    requires c.concurrency >= 1 && Run(c, states, steps) && i < |states|
    ensures Inv(c, states[i])
  {
    hide Inv, Apply, Enabled, Initial;
    if i == 0 {
      var now :| states[0] == Initial(c, now);
      InitialHolds(c, now);
    } else {
      RunIsSafe(c, states, steps, i - 1);
      assert Enabled(c, states[i - 1], steps[i - 1]);
      StepKeeps(c, states[i - 1], steps[i - 1]);
    }
  }

  // ---------------------------------------------------------------------------
  // What that means for a whole replay

  lemma {:induction false} InFlightBound(workers: seq<Worker>)
    ensures |InFlight(workers)| <= |workers|
  {
    if workers != [] {
      InFlightBound(workers[..|workers| - 1]);
    }
  }

  /** At most min(concurrency, group size) requests are in flight. */
  lemma BoundedInFlight(c: Config, states: seq<State>, steps: seq<Step>, i: nat)
    requires c.concurrency >= 1 && Run(c, states, steps) && i < |states| && states[i].phase.Running?
    ensures states[i].phase.group < |c.groups|
    ensures |InFlight(states[i].workers)| <= Min(c.concurrency, |c.groups[states[i].phase.group]|)
  {
    hide Run;
    RunIsSafe(c, states, steps, i);
    InFlightBound(states[i].workers);
  }

  lemma {:induction false} FlattenPrefix(groups: seq<seq<Request>>, j: nat, k: nat)
    requires j <= k <= |groups|
    ensures Flatten(groups, j) <= Flatten(groups, k)
  {
    if j < k {
      FlattenPrefix(groups, j, k - 1);
    }
  }

  /** Only a worker taking a request dispatches anything, and only while a group is running. */
  lemma OnlyTakesDispatch(c: Config, s: State, step: Step)
    requires Enabled(c, s, step)
    ensures !Apply(c, s, step).phase.Running? ==> Apply(c, s, step).dispatched == s.dispatched
  {
  }

  /** Requests are dispatched in the order of the groups and within them, none twice: what has been
      dispatched is always a prefix of all requests in that order, also once the replay has returned
      or expired. */
  lemma {:induction false} DispatchedInOrder(c: Config, states: seq<State>, steps: seq<Step>, i: nat)
    requires c.concurrency >= 1 && Run(c, states, steps) && i < |states|
    ensures states[i].dispatched <= Flatten(c.groups, |c.groups|)
  {
    hide Inv, Apply, Enabled, Initial;
    if states[i].phase.Running? {
      RunIsSafe(c, states, steps, i);
      RunningInOrder(c, states[i]);
    } else if i == 0 {
      var now :| states[0] == Initial(c, now);
      NothingDispatched(c, now);
    } else {
      DispatchedInOrder(c, states, steps, i - 1);
      assert Enabled(c, states[i - 1], steps[i - 1]);
      OnlyTakesDispatch(c, states[i - 1], steps[i - 1]);
    }
  }

  lemma RunningInOrder(c: Config, s: State)
    requires Inv(c, s) && s.phase.Running?
    ensures s.dispatched <= Flatten(c.groups, |c.groups|)
  {
    hide Staffed, Conserved, Finished, Clocked, Started;
    var g := s.phase.group;
    FlattenPrefix(c.groups, g + 1, |c.groups|);
    assert s.dispatched <= Flatten(c.groups, g + 1);
  }

  lemma NothingDispatched(c: Config, now: real)
    ensures Initial(c, now).dispatched == []
  {
  }

  /** A replay that returns without errors has recorded every request exactly once; the check for
      omitted requests never fires. */
  lemma ReturnsEverything(c: Config, states: seq<State>, steps: seq<Step>, i: nat)
    requires c.concurrency >= 1 && Run(c, states, steps) && i < |states|
    ensures !states[i].omitted
    ensures states[i].phase.Returned? && states[i].errors == 0 ==>
              Recorded(states[i].rows) == multiset(Flatten(c.groups, |c.groups|))
  {
    hide Run;
    RunIsSafe(c, states, steps, i);
  }

  /** No request of a later group is admitted before every request of an earlier one has given its
      slot back. */
  lemma GroupsDoNotOverlap(c: Config, states: seq<State>, steps: seq<Step>, i: nat, x: nat, y: nat)
    requires c.concurrency >= 1 && Run(c, states, steps) && i < |states|
    requires x < |states[i].rows| && y < |states[i].rows| && states[i].rows[x].group < states[i].rows[y].group
    ensures states[i].rows[x].release <= states[i].rows[y].admission
  {
    hide Run;
    RunIsSafe(c, states, steps, i);
  }

  /** The rows of group `g` that hold a slot at time `t`. */
  ghost function Holding(rows: seq<Row>, g: nat, t: real): set<nat> {
    set x: nat | x < |rows| && rows[x].group == g && rows[x].admission <= t < rows[x].release
  }

  /** Measured occupancy never exceeds the number of workers of the group. */
  lemma OccupancyBounded(c: Config, states: seq<State>, steps: seq<Step>, i: nat, g: nat, t: real)
    requires c.concurrency >= 1 && Run(c, states, steps) && i < |states| && g < |c.groups|
    ensures |Holding(states[i].rows, g, t)| <= Effective(c, g)
  {
    hide Run;
    RunIsSafe(c, states, steps, i);
    var rows := states[i].rows;
    var holders := map x | x in Holding(rows, g, t) :: rows[x].worker as int;
    assert holders.Keys == Holding(rows, g, t);
    forall x, y | x in holders && y in holders && holders[x] == holders[y] ensures x == y {
      assert Separate(c, rows, states[i].now);
    }
    InjectiveImageSize(holders);
    SubsetSize(holders.Values, Below(Effective(c, g)));
  }
}
