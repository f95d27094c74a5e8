/** What the occupancy sweep reports about the rows of a bounded replay. */
module MeasuredReplay {
  import opened Replay
  import TierGroups
  import opened Occupancy

  /** The slot times of the rows whose group started at one instant. */
  function StartIntervals(rows: seq<Row>, start: real): seq<Interval> {
    if rows == [] then []
    else
      var last := rows[|rows| - 1];
      StartIntervals(rows[..|rows| - 1], start) + if last.start == start then [Interval(last.admission, last.release)] else []
  }

  ghost predicate Holds(row: Row, start: real, t: real) {
    row.start == start && row.admission <= t < row.release
  }

  /** The rows of groups started at `start` that hold a slot at time `t`. */
  ghost function HoldingAt(rows: seq<Row>, start: real, t: real): set<nat> {
    set x: nat | x < |rows| && Holds(rows[x], start, t)
  }

  lemma LastInterval(rows: seq<Row>, start: real, t: real)
    requires rows != []
    ensures var n := |rows| - 1;
            Overlap(StartIntervals(rows, start), t)
            == Overlap(StartIntervals(rows[..n], start), t) + if Holds(rows[n], start, t) then 1 else 0
  {
    var n := |rows| - 1;
    var intervals, last := StartIntervals(rows[..n], start), rows[n];
    if last.start == start {
      assert (intervals + [Interval(last.admission, last.release)])[..|intervals|] == intervals;
    } else {
      assert intervals + [] == intervals;
    }
  }

  lemma LastHolding(rows: seq<Row>, start: real, t: real)
    requires rows != []
    ensures var n := |rows| - 1;
            |HoldingAt(rows, start, t)| == |HoldingAt(rows[..n], start, t)| + if Holds(rows[n], start, t) then 1 else 0
  {
    var n := |rows| - 1;
    if Holds(rows[n], start, t) {
      assert HoldingAt(rows, start, t) == HoldingAt(rows[..n], start, t) + {n};
    } else {
      assert HoldingAt(rows, start, t) == HoldingAt(rows[..n], start, t);
    }
  }

  lemma {:induction false} OverlapIsHolding(rows: seq<Row>, start: real, t: real)
    ensures Overlap(StartIntervals(rows, start), t) == |HoldingAt(rows, start, t)|
  {
    if rows == [] {
      assert HoldingAt(rows, start, t) == {};
    } else {
      var n := |rows| - 1;
      OverlapIsHolding(rows[..n], start, t);
      LastInterval(rows, start, t);
      LastHolding(rows, start, t);
    }
  }

  /** Recorded slots are never given back before they were taken. */
  lemma {:induction false} IntervalsForward(c: Config, rows: seq<Row>, start: real, now: real)
    requires Separate(c, rows, now)
    ensures Forward(StartIntervals(rows, start))
  {
    if rows != [] {
      IntervalsForward(c, rows[..|rows| - 1], start, now);
    }
  }

  /** The last group with rows among those that started at one instant. */
  ghost predicate IsLastGroup(rows: seq<Row>, start: real, g: nat) {
    && (exists x :: 0 <= x < |rows| && rows[x].start == start && rows[x].group == g)
    && (forall x :: 0 <= x < |rows| && rows[x].start == start ==> rows[x].group <= g)
  }

  /** Of the groups that started at one instant, only the last holds slots for any time. */
  lemma OnlyLastGroupHolds(c: Config, s: State, start: real, g: nat, t: real)
    requires Inv(c, s) && IsLastGroup(s.rows, start, g)
    ensures g < |c.groups| && HoldingAt(s.rows, start, t) == Holding(s.rows, g, t)
  {
    hide InOrder, Staffed, Conserved, Finished;
    var rows := s.rows;
    var y :| 0 <= y < |rows| && rows[y].start == start && rows[y].group == g;
    forall x: nat | x < |rows| ensures Holds(rows[x], start, t) <==> x in Holding(rows, g, t) {
      if x < y {
        assert rows[x].group <= rows[y].group;
      } else if y < x {
        assert rows[y].group <= rows[x].group;
      }
    }
  }

  /** The observation of one start instant: its area is the time the slots were held, and its peak the
      largest number of slots held at once, which never exceeds the effective concurrency of the group. */
  method ObserveStart(c: Config, ghost states: seq<State>, ghost steps: seq<Step>, rows: seq<Row>, start: real)
    returns (o: Observation)
    requires states != [] && c.concurrency >= 1 && Run(c, states, steps) && rows == states[|states| - 1].rows
    ensures o.area == HeldTime(StartIntervals(rows, start))
    ensures forall t :: |HoldingAt(rows, start, t)| <= o.peak
    ensures exists t :: |HoldingAt(rows, start, t)| == o.peak
    ensures forall g: nat :: IsLastGroup(rows, start, g) ==> g < |c.groups| && o.peak <= Effective(c, g)
  {
    hide Run, HeldTime, Forward, Holding, HoldingAt, Overlap, StartIntervals, IsLastGroup, Inv, Effective;
    ghost var s := states[|states| - 1];
    RunIsSafe(c, states, steps, |states| - 1);
    RowsSeparate(c, s);
    IntervalsForward(c, rows, start, s.now);
    o := Observe(StartIntervals(rows, start), start);
    forall t ensures Overlap(StartIntervals(rows, start), t) == |HoldingAt(rows, start, t)| {
      OverlapIsHolding(rows, start, t);
    }
    forall g: nat | IsLastGroup(rows, start, g) ensures g < |c.groups| && o.peak <= Effective(c, g) {
      var t :| |HoldingAt(rows, start, t)| == o.peak;
      OnlyLastGroupHolds(c, s, start, g, t);
      OccupancyBounded(c, states, steps, |states| - 1, g, t);
    }
  }

  lemma RowsSeparate(c: Config, s: State)
    requires Inv(c, s)
    ensures Separate(c, s.rows, s.now)
  {
  }

  /** Grouping a trace and replaying the groups records every request of the trace exactly once, in
      every run that returns without errors. */
  lemma ReplayCoversTrace(c: Config, requests: seq<Request>, perGroup: nat, tiers: nat,
                          states: seq<State>, steps: seq<Step>, i: nat)
    requires perGroup >= 1 && TierGroups.GroupsOf(c.groups, requests, perGroup, tiers) && TierGroups.Eligible(requests, tiers)
    requires c.concurrency >= 1 && Run(c, states, steps) && i < |states|
    requires states[i].phase.Returned? && states[i].errors == 0
    ensures Recorded(states[i].rows) == multiset(requests)
  {
    hide Run, TierGroups.GroupsOf, TierGroups.Eligible;
    ReturnsEverything(c, states, steps, i);
    TierGroups.GroupsPartition(c.groups, requests, perGroup, tiers);
  }
}
