/** The sweep over slot events that measures a group's occupancy: its area is exactly the time the
    slots were held, and its peak is exactly the largest number held at once. */
module Occupancy {
  import opened Sorting

  /** When one request held its slot. */
  datatype Interval = Interval(admission: real, release: real)

  datatype Event = Event(time: real, delta: int)

  /** Earlier first; at the same instant, slots are given back before they are taken. */
  predicate EventLe(a: Event, b: Event) {
    a.time < b.time || (a.time == b.time && a.delta <= b.delta)
  }

  lemma EventsAreOrdered()
    ensures TotalOrder(EventLe)
  {
  }

  function Events(rows: seq<Interval>): seq<Event> {
    seq(|rows|, i requires 0 <= i < |rows| => Event(rows[i].admission, 1))
    + seq(|rows|, i requires 0 <= i < |rows| => Event(rows[i].release, -1))
  }

  // ---------------------------------------------------------------------------
  // What is measured

  /** How many intervals contain time `t`; an interval includes its admission, not its release. */
  ghost function Overlap(rows: seq<Interval>, t: real): nat {
    if rows == [] then 0
    else Overlap(rows[..|rows| - 1], t)
         + if rows[|rows| - 1].admission <= t < rows[|rows| - 1].release then 1 else 0
  }

  function Held(r: Interval): real {
    r.release - r.admission
  }

  /** The total time slots were held. */
  ghost function HeldTime(rows: seq<Interval>): real {
    Sum(rows, Held)
  }

  /** No slot is given back before it is taken; it may be given back at the same instant. */
  ghost predicate Forward(rows: seq<Interval>) {
    forall i :: 0 <= i < |rows| ==> rows[i].admission <= rows[i].release
  }

  // ---------------------------------------------------------------------------
  // Sums over events

  function Delta(e: Event): real {
    e.delta as real
  }

  function Moment(e: Event): real {
    e.delta as real * e.time
  }

  /** The change an event makes to the count at time `t`. */
  function ChangeBy(t: real): Event -> real {
    (e: Event) => if e.time <= t then e.delta as real else 0.0
  }

  /** What the two events of an interval add up to. */
  function BothEvents(f: Event -> real): Interval -> real {
    (r: Interval) => f(Event(r.admission, 1)) + f(Event(r.release, -1))
  }

  lemma {:induction false} SumOfEvents(rows: seq<Interval>, f: Event -> real)
    ensures Sum(Events(rows), f) == Sum(rows, BothEvents(f))
  {
    var starts := seq(|rows|, i requires 0 <= i < |rows| => Event(rows[i].admission, 1));
    var ends := seq(|rows|, i requires 0 <= i < |rows| => Event(rows[i].release, -1));
    SumConcat(starts, ends, f);
    if rows != [] {
      var init := rows[..|rows| - 1];
      SumOfEvents(init, f);
      assert starts[..|rows| - 1] == seq(|init|, i requires 0 <= i < |init| => Event(init[i].admission, 1));
      assert ends[..|rows| - 1] == seq(|init|, i requires 0 <= i < |init| => Event(init[i].release, -1));
      SumConcat(starts[..|rows| - 1], ends[..|rows| - 1], f);
    }
  }

  lemma {:induction false} SumSame<T>(s: seq<T>, f: T -> real, g: T -> real)
    requires forall i :: 0 <= i < |s| ==> f(s[i]) == g(s[i])
    ensures Sum(s, f) == Sum(s, g)
  {
    if s != [] {
      SumSame(s[..|s| - 1], f, g);
    }
  }

  lemma {:induction false} SumZero<T>(s: seq<T>, f: T -> real)
    requires forall i :: 0 <= i < |s| ==> f(s[i]) == 0.0
    ensures Sum(s, f) == 0.0
  {
    if s != [] {
      SumZero(s[..|s| - 1], f);
    }
  }

  lemma {:induction false} SumNegated<T>(s: seq<T>, f: T -> real, g: T -> real)
    requires forall i :: 0 <= i < |s| ==> f(s[i]) == -g(s[i])
    ensures Sum(s, f) == -Sum(s, g)
  {
    if s != [] {
      SumNegated(s[..|s| - 1], f, g);
    }
  }

  /** Every slot that is taken is given back. */
  lemma DeltasCancel(rows: seq<Interval>)
    ensures Sum(Events(rows), Delta) == 0.0
  {
    SumOfEvents(rows, Delta);
    SumZero(rows, BothEvents(Delta));
  }

  lemma MomentsOfOne(r: Interval)
    ensures BothEvents(Moment)(r) == -Held(r)
  {
    assert Moment(Event(r.admission, 1)) == r.admission;
    assert Moment(Event(r.release, -1)) == -r.release;
  }

  lemma MomentsAreHeldTime(rows: seq<Interval>)
    ensures Sum(Events(rows), Moment) == -HeldTime(rows)
  {
    SumOfEvents(rows, Moment);
    forall i | 0 <= i < |rows| ensures BothEvents(Moment)(rows[i]) == -Held(rows[i]) {
      MomentsOfOne(rows[i]);
    }
    SumNegated(rows, BothEvents(Moment), Held);
  }

  /** Counting events up to `t` counts the intervals that contain `t`. */
  lemma {:induction false} ChangesAreOverlap(rows: seq<Interval>, t: real)
    requires Forward(rows)
    ensures Sum(Events(rows), ChangeBy(t)) == Overlap(rows, t) as real
  {
    SumOfEvents(rows, ChangeBy(t));
    RowChanges(rows, t);
  }

  lemma {:induction false} RowChanges(rows: seq<Interval>, t: real)
    requires Forward(rows)
    ensures Sum(rows, BothEvents(ChangeBy(t))) == Overlap(rows, t) as real
  {
    if rows != [] {
      RowChanges(rows[..|rows| - 1], t);
    }
  }

  // ---------------------------------------------------------------------------
  // The running count

  /** The count after the first `k` events never exceeds the overlap at some instant. */
  lemma {:induction false} CountIsCovered(rows: seq<Interval>, events: seq<Event>, k: nat)
    returns (t: real)
    requires Forward(rows) && multiset(events) == multiset(Events(rows)) && Ascending(events, EventLe)
    requires 1 <= k <= |events|
    requires forall i :: 0 <= i < |events| ==> events[i].delta == 1 || events[i].delta == -1
    ensures Sum(events[..k], Delta) <= Overlap(rows, t) as real
  {
    var last := events[k - 1];
    assert events[..k] == events[..k - 1] + [last];
    SumSnoc(events[..k - 1], last, Delta);
    t := last.time;
    if last.delta == 1 {
      UpTo(rows, events, k, t);
    } else if k > 1 {
      t := CountIsCovered(rows, events, k - 1);
    }
  }

  /** Just after a slot is taken at `t`, all events before `t` and all releases at `t` are counted. */
  lemma UpTo(rows: seq<Interval>, events: seq<Event>, k: nat, t: real)
    requires Forward(rows) && multiset(events) == multiset(Events(rows)) && Ascending(events, EventLe)
    requires 1 <= k <= |events| && events[k - 1] == Event(t, 1)
    requires forall i :: 0 <= i < |events| ==> events[i].delta == 1 || events[i].delta == -1
    ensures Sum(events[..k], Delta) <= Overlap(rows, t) as real
  {
    hide Sum, Overlap, Events, Forward;
    var before, after := events[..k], events[k..];
    assert events == before + after;
    SumConcat(before, after, ChangeBy(t));
    forall i | 0 <= i < |before| ensures Delta(before[i]) == ChangeBy(t)(before[i]) {
      assert i == k - 1 || EventLe(events[i], events[k - 1]);
    }
    SumSame(before, Delta, ChangeBy(t));
    forall i | 0 <= i < |after| ensures ChangeBy(t)(after[i]) >= 0.0 {
      assert EventLe(events[k - 1], events[k + i]);
    }
    SumNonNegative(after, ChangeBy(t));
    SumOfPermutation(events, Events(rows), ChangeBy(t));
    ChangesAreOverlap(rows, t);
  }

  lemma {:induction false} SumNonNegative<T>(s: seq<T>, f: T -> real)
    requires forall i :: 0 <= i < |s| ==> f(s[i]) >= 0.0
    ensures Sum(s, f) >= 0.0
  {
    if s != [] {
      SumNonNegative(s[..|s| - 1], f);
    }
  }

  /** How many events are no later than `t`. */
  lemma EventsUpTo(events: seq<Event>, t: real) returns (k: nat)
    requires Ascending(events, EventLe)
    ensures k <= |events|
    ensures forall i :: 0 <= i < k ==> events[i].time <= t
    ensures forall i :: k <= i < |events| ==> events[i].time > t
  {
    k := 0;
    while k < |events| && events[k].time <= t
      invariant k <= |events|
      invariant forall i :: 0 <= i < k ==> events[i].time <= t
    {
      k := k + 1;
    }
    forall i | k <= i < |events| ensures events[i].time > t {
      assert i == k || EventLe(events[k], events[i]);
    }
  }

  /** The overlap at `t` is the count after the last event no later than `t`. */
  lemma OverlapIsCounted(rows: seq<Interval>, events: seq<Event>, t: real) returns (k: nat)
    requires Forward(rows) && multiset(events) == multiset(Events(rows)) && Ascending(events, EventLe)
    ensures k <= |events| && Sum(events[..k], Delta) == Overlap(rows, t) as real
  {
    hide Sum, Overlap, Events, Forward, Ascending;
    k := EventsUpTo(events, t);
    var before, after := events[..k], events[k..];
    assert events == before + after;
    SumConcat(before, after, ChangeBy(t));
    SumSame(before, Delta, ChangeBy(t));
    SumZero(after, ChangeBy(t));
    SumOfPermutation(events, Events(rows), ChangeBy(t));
    ChangesAreOverlap(rows, t);
  }

  // ---------------------------------------------------------------------------
  // The sweep

  datatype Observation = Observation(peak: int, area: real, duration: real, mean: real)

  /** Sweep a group's slot events in order. */
  method Observe(rows: seq<Interval>, start: real) returns (o: Observation)
    ensures o.area == HeldTime(rows)
    ensures Forward(rows) ==> forall t :: Overlap(rows, t) <= o.peak
    ensures Forward(rows) ==> exists t :: Overlap(rows, t) == o.peak
    ensures o.duration > 0.0 ==> o.mean * o.duration == HeldTime(rows)
  {
    hide Sum, Sort, Ascending, TotalOrder, Events, Overlap, Forward, EventLe, HeldTime;
    var events := Sort(Events(rows), EventLe);
    EventsAreOrdered();
    SortAscending(Events(rows), EventLe);
    var previous, occupied, peak, area := start, 0, 0, 0.0;
    ghost var at := 0;
    NoEvents(events, rows);
    for i := 0 to |events|
      invariant occupied as real == Sum(events[..i], Delta)
      invariant area == occupied as real * previous - Sum(events[..i], Moment)
      invariant 0 <= at <= i && Sum(events[..at], Delta) == peak as real
      invariant forall k :: 0 <= k <= i ==> Sum(events[..k], Delta) <= peak as real
    {
      var e := events[i];
      assert events[..i + 1] == events[..i] + [e];
      SumSnoc(events[..i], e, Delta);
      SumSnoc(events[..i], e, Moment);
      AreaStep(area, occupied as real, previous, e.time, e.delta as real, Sum(events[..i], Moment));
      area := area + occupied as real * (e.time - previous);
      occupied := occupied + e.delta;
      if occupied > peak {
        peak, at := occupied, i + 1;
      }
      previous := e.time;
    }
    assert events[..|events|] == events;
    SumOfPermutation(events, Events(rows), Delta);
    SumOfPermutation(events, Events(rows), Moment);
    DeltasCancel(rows);
    MomentsAreHeldTime(rows);
    var duration := previous - start;
    o := Observation(peak, area, duration, if duration > 0.0 then area / duration else 0.0);
    if Forward(rows) {
      PeakIsExact(rows, events, peak, at);
    }
  }

  lemma NoEvents(events: seq<Event>, rows: seq<Interval>)
    ensures Sum(events[..0], Delta) == 0.0 && Sum(events[..0], Moment) == 0.0
    ensures rows == [] ==> Events(rows) == [] && HeldTime(rows) == 0.0
  {
  }

  lemma AreaStep(area: real, occupied: real, previous: real, time: real, delta: real, moments: real)
    requires area == occupied * previous - moments
    ensures area + occupied * (time - previous) == (occupied + delta) * time - (moments + delta * time)
  {
  }

  lemma PeakIsExact(rows: seq<Interval>, events: seq<Event>, peak: int, at: nat)
    requires Forward(rows) && events == Sort(Events(rows), EventLe) && Ascending(events, EventLe)
    requires at <= |events| && Sum(events[..at], Delta) == peak as real
    requires forall k :: 0 <= k <= |events| ==> Sum(events[..k], Delta) <= peak as real
    ensures forall t :: Overlap(rows, t) <= peak
    ensures exists t :: Overlap(rows, t) == peak
  {
    forall t ensures Overlap(rows, t) <= peak {
      var k := OverlapIsCounted(rows, events, t);
    }
    if rows == [] {
      assert events == [];
      assert Overlap(rows, 0.0) == 0;
    } else {
      forall i | 0 <= i < |events| ensures events[i].delta == 1 || events[i].delta == -1 {
        assert events[i] in multiset(events);
        assert events[i] in Events(rows);
      }
      assert |multiset(events)| == |events| && |multiset(Events(rows))| == |Events(rows)|;
      var t := CountIsCovered(rows, events, if at == 0 then 1 else at);
      assert Sum(events[..0], Delta) == 0.0;
      if at == 0 {
        assert Overlap(rows, t) == 0;
      } else {
        assert Overlap(rows, t) == peak;
      }
    }
  }
}
