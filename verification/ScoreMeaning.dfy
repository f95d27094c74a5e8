/** What the measurements and the charge come to, in terms of the rows alone. */
module ScoreMeaning {
  import opened Basics
  import opened Sorting
  import opened Score

  // ---------------------------------------------------------------------------
  // The rows of a tier

  ghost predicate Belongs(row: Row, rep: nat, tier: nat) {
    row.rep == rep && row.tier == tier
  }

  lemma {:induction false} SelectedRows(rows: seq<Row>, rep: nat, tier: nat)
    ensures forall x :: x in Selected(rows, rep, tier) <==> x in rows && Belongs(x, rep, tier)
  {
    if rows != [] {
      var init, last := rows[..|rows| - 1], rows[|rows| - 1];
      SelectedRows(init, rep, tier);
      assert rows == init + [last];
      assert forall x :: x in rows <==> x in init || x == last;
    }
  }

  /** No two rows of the tier and the repetition are of one request. */
  ghost predicate Once(rows: seq<Row>, rep: nat, tier: nat) {
    forall i, j :: 0 <= i < j < |rows| && Belongs(rows[i], rep, tier) && Belongs(rows[j], rep, tier) ==> rows[i].id != rows[j].id
  }

  ghost predicate IdsOnce(selected: seq<Row>) {
    forall i, j :: 0 <= i < j < |selected| ==> selected[i].id != selected[j].id
  }

  lemma IdsOnceSnoc(selected: seq<Row>, row: Row)
    ensures IdsOnce(selected + [row]) <==> IdsOnce(selected) && forall x :: x in selected ==> x.id != row.id
  {
    var more := selected + [row];
    if IdsOnce(more) {
      forall i, j | 0 <= i < j < |selected| ensures selected[i].id != selected[j].id {
        assert more[i] == selected[i] && more[j] == selected[j];
      }
      forall x | x in selected ensures x.id != row.id {
        var i :| 0 <= i < |selected| && selected[i] == x;
        assert more[i].id != more[|selected|].id;
      }
    }
    if IdsOnce(selected) && forall x :: x in selected ==> x.id != row.id {
      forall i, j | 0 <= i < j < |more| ensures more[i].id != more[j].id {
        assert selected[i] in selected;
      }
    }
  }

  lemma {:induction false} SelectedOnce(rows: seq<Row>, rep: nat, tier: nat)
    ensures IdsOnce(Selected(rows, rep, tier)) <==> Once(rows, rep, tier)
  {
    if rows != [] {
      var init, last := rows[..|rows| - 1], rows[|rows| - 1];
      SelectedOnce(init, rep, tier);
      SelectedRows(init, rep, tier);
      OnceSnoc(init, last, rep, tier);
      assert rows == init + [last];
      if Belongs(last, rep, tier) {
        IdsOnceSnoc(Selected(init, rep, tier), last);
      } else {
        assert Selected(rows, rep, tier) == Selected(init, rep, tier);
      }
    }
  }

  lemma OnceSnoc(init: seq<Row>, last: Row, rep: nat, tier: nat)
    ensures Once(init + [last], rep, tier) <==>
            Once(init, rep, tier) && (Belongs(last, rep, tier) ==> forall x :: x in init && Belongs(x, rep, tier) ==> x.id != last.id)
  {
    var rows := init + [last];
    if Once(rows, rep, tier) {
      forall i, j | 0 <= i < j < |init| && Belongs(init[i], rep, tier) && Belongs(init[j], rep, tier) ensures init[i].id != init[j].id {
        assert rows[i] == init[i] && rows[j] == init[j];
      }
      forall x | x in init && Belongs(x, rep, tier) && Belongs(last, rep, tier) ensures x.id != last.id {
        var i :| 0 <= i < |init| && init[i] == x;
        assert rows[i].id != rows[|init|].id;
      }
    }
    if Once(init, rep, tier) && (Belongs(last, rep, tier) ==> forall x :: x in init && Belongs(x, rep, tier) ==> x.id != last.id) {
      forall i, j | 0 <= i < j < |rows| && Belongs(rows[i], rep, tier) && Belongs(rows[j], rep, tier) ensures rows[i].id != rows[j].id {
        assert init[i] in init;
      }
    }
  }

  lemma {:induction false} LastIsLatest(rows: seq<Row>)
    requires rows != []
    ensures (forall x :: x in rows ==> x.completion <= LastCompletion(rows)) && exists x :: x in rows && x.completion == LastCompletion(rows)
  {
    if |rows| == 1 {
      assert rows[0] in rows;
    } else {
      var init, last := rows[..|rows| - 1], rows[|rows| - 1];
      LastIsLatest(init);
      assert rows == init + [last] && last in rows;
    }
  }

  /** Complete evidence of a repetition: requests that differ, none failed, one start, and time passed. */
  ghost predicate Sound(rows: seq<Row>, rep: nat, tier: nat) {
    && (exists x :: x in rows && Belongs(x, rep, tier))
    && Once(rows, rep, tier)
    && (forall x :: x in rows && Belongs(x, rep, tier) ==> !x.failed)
    && (forall x, y :: x in rows && y in rows && Belongs(x, rep, tier) && Belongs(y, rep, tier) ==> x.groupStart == y.groupStart)
    && (exists x :: x in rows && Belongs(x, rep, tier) && x.completion > x.groupStart)
  }

  ghost function IdSet(rows: seq<Row>, rep: nat, tier: nat): set<nat> {
    set x | x in rows && Belongs(x, rep, tier) :: x.id
  }

  lemma CompleteMeans(rows: seq<Row>, rep: nat, tier: nat)
    ensures Complete(Selected(rows, rep, tier)) <==> Sound(rows, rep, tier)
  {
    hide Selected, LastCompletion, Once, Belongs;
    var s := Selected(rows, rep, tier);
    SelectedRows(rows, rep, tier);
    SelectedOnce(rows, rep, tier);
    if s != [] {
      LastIsLatest(s);
      assert s[0] in s;
      if Sound(rows, rep, tier) {
        forall i | 0 <= i < |s| ensures !s[i].failed && s[i].groupStart == s[0].groupStart {
          assert s[i] in s;
        }
      }
    }
  }

  lemma DistinctIds(s: seq<Row>, t: seq<Row>)
    requires IdsOnce(s) && IdsOnce(t)
    ensures multiset(Ids(s)) == multiset(Ids(t)) <==> forall id :: id in Ids(s) <==> id in Ids(t)
  {
    OneEach(s);
    OneEach(t);
    if forall id :: id in Ids(s) <==> id in Ids(t) {
      forall id ensures multiset(Ids(s))[id] == multiset(Ids(t))[id] {
      }
    }
    if multiset(Ids(s)) == multiset(Ids(t)) {
      forall id ensures id in Ids(s) <==> id in Ids(t) {
        assert id in multiset(Ids(s)) <==> id in multiset(Ids(t));
      }
    }
  }

  lemma {:induction false} OneEach(s: seq<Row>)
    requires IdsOnce(s)
    ensures forall id :: multiset(Ids(s))[id] == if id in Ids(s) then 1 else 0
  {
    if s != [] {
      var init, last := s[..|s| - 1], s[|s| - 1];
      OneEach(init);
      assert Ids(s) == Ids(init) + [last.id];
      forall i | 0 <= i < |init| ensures Ids(init)[i] != last.id {
        assert s[i] == init[i] && s[|init|] == last;
      }
    }
  }

  lemma IdsAre(rows: seq<Row>, rep: nat, tier: nat)
    ensures forall id :: id in Ids(Selected(rows, rep, tier)) <==> id in IdSet(rows, rep, tier)
  {
    hide Selected, Belongs;
    SelectedRows(rows, rep, tier);
    var s := Selected(rows, rep, tier);
    forall id ensures id in Ids(s) <==> id in IdSet(rows, rep, tier) {
      if id in Ids(s) {
        var i :| 0 <= i < |s| && Ids(s)[i] == id;
        assert s[i] in s;
      }
      if id in IdSet(rows, rep, tier) {
        var x :| x in rows && Belongs(x, rep, tier) && x.id == id;
        var i :| 0 <= i < |s| && s[i] == x;
        assert Ids(s)[i] == id;
      }
    }
  }

  /** A tier can be measured exactly when every repetition's rows are sound and are of the same requests. */
  lemma MeasurableMeans(rows: seq<Row>, repetitions: nat, tier: nat)
    ensures Measurable(rows, repetitions, tier) <==>
            forall rep :: 1 <= rep <= repetitions ==> Sound(rows, rep, tier) && IdSet(rows, rep, tier) == IdSet(rows, 1, tier)
  {
    hide Selected, Complete, Sound, IdSet, Ids;
    forall rep: nat | 1 <= rep <= repetitions ensures Complete(Selected(rows, rep, tier)) <==> Sound(rows, rep, tier) {
      CompleteMeans(rows, rep, tier);
    }
    forall rep: nat | 1 <= rep <= repetitions && Complete(Selected(rows, rep, tier)) && Complete(Selected(rows, 1, tier))
      ensures multiset(Ids(Selected(rows, rep, tier))) == multiset(Ids(Selected(rows, 1, tier))) <==> IdSet(rows, rep, tier) == IdSet(rows, 1, tier)
    {
      SameIds(rows, rep, tier);
    }
  }

  lemma SameIds(rows: seq<Row>, rep: nat, tier: nat)
    requires Complete(Selected(rows, rep, tier)) && Complete(Selected(rows, 1, tier))
    ensures multiset(Ids(Selected(rows, rep, tier))) == multiset(Ids(Selected(rows, 1, tier))) <==> IdSet(rows, rep, tier) == IdSet(rows, 1, tier)
  {
    hide Selected, Ids, IdSet, LastCompletion;
    DistinctIds(Selected(rows, rep, tier), Selected(rows, 1, tier));
    IdsAre(rows, rep, tier);
    IdsAre(rows, 1, tier);
  }

  // ---------------------------------------------------------------------------
  // Medians

  /** How many of the values are at most `x`. */
  ghost function AtMostCount(values: seq<real>, x: real): nat {
    if values == [] then 0 else AtMostCount(values[..|values| - 1], x) + if values[|values| - 1] <= x then 1 else 0
  }

  lemma {:induction false} CountIsSum(values: seq<real>, x: real)
    ensures Sum(values, AtMost(x)) == AtMostCount(values, x) as real
  {
    if values != [] {
      CountIsSum(values[..|values| - 1], x);
    }
  }

  /** `m` is what `k` values lie below: it is at most `x` exactly when more than `k` values are. */
  ghost predicate Ranks(values: seq<real>, k: nat, m: real) {
    forall x: real :: m <= x <==> AtMostCount(values, x) > k
  }

  lemma SortedRanks(values: seq<real>, k: nat)
    requires k < |values|
    ensures |Sort(values, RealLe)| == |values| && Ranks(values, k, Sort(values, RealLe)[k])
  {
    hide Sort, Sum, Ascending, AtMostCount;
    var sorted := Sort(values, RealLe);
    SortSize(values);
    SortAscending(values, RealLe);
    forall x: real ensures sorted[k] <= x <==> AtMostCount(values, x) > k {
      RankByCount(sorted, k, x);
      SumOfPermutation(sorted, values, AtMost(x));
      CountIsSum(values, x);
    }
  }

  /** The middle value, or midway between the two in the middle. */
  ghost predicate IsMiddle(values: seq<real>, m: real) {
    var n := |values|;
    if n % 2 == 1 then Ranks(values, n / 2, m)
    else n > 0 && exists a :: Midway(values, n / 2, a, m)
  }

  /** `m` lies midway between `a` and the next value. */
  ghost predicate Midway(values: seq<real>, k: nat, a: real, m: real) {
    k > 0 && Ranks(values, k - 1, a) && Ranks(values, k, 2.0 * m - a)
  }

  lemma MedianMeans(values: seq<real>)
    requires values != []
    ensures IsMiddle(values, Median(values))
  {
    hide Sort, Ranks;
    var n := |values|;
    SortedRanks(values, n / 2);
    if n % 2 == 0 {
      SortedRanks(values, n / 2 - 1);
      var a := Sort(values, RealLe)[n / 2 - 1];
      assert 2.0 * Median(values) - a == Sort(values, RealLe)[n / 2];
      assert Midway(values, n / 2, a, Median(values));
    }
  }

  // ---------------------------------------------------------------------------
  // A tier's metric

  lemma {:induction false} LargestIs(values: seq<real>)
    requires values != []
    ensures Largest(values) in values && Smallest(values) in values
  {
    if |values| > 1 {
      LargestIs(values[..|values| - 1]);
    }
  }

  /** No row of the repetition completes later after its group's start than this, and some row just then. */
  ghost predicate LatestAfter(rows: seq<Row>, rep: nat, tier: nat, seconds: real) {
    && (forall x :: x in rows && Belongs(x, rep, tier) ==> x.completion <= x.groupStart + 1000.0 * seconds)
    && (exists x :: x in rows && Belongs(x, rep, tier) && x.completion == x.groupStart + 1000.0 * seconds)
  }

  lemma ElapsedMeans(rows: seq<Row>, rep: nat, tier: nat)
    requires Complete(Selected(rows, rep, tier))
    ensures LatestAfter(rows, rep, tier, Elapsed(Selected(rows, rep, tier)))
  {
    hide Selected, LastCompletion, Belongs;
    var s := Selected(rows, rep, tier);
    SelectedRows(rows, rep, tier);
    LastIsLatest(s);
    var seconds := Elapsed(s);
    assert 1000.0 * seconds == LastCompletion(s) - s[0].groupStart;
    forall x | x in s ensures x.groupStart == s[0].groupStart {
      var i :| 0 <= i < |s| && s[i] == x;
    }
  }

  ghost predicate Rising(ids: seq<nat>) {
    forall i, j :: 0 <= i < j < |ids| ==> ids[i] < ids[j]
  }

  /** The largest distance between two of the values. */
  ghost predicate Spreads(values: seq<real>, d: real) {
    && (forall i, j :: 0 <= i < |values| && 0 <= j < |values| ==> values[i] - values[j] <= d)
    && (exists i, j :: 0 <= i < |values| && 0 <= j < |values| && values[i] - values[j] == d)
  }

  lemma SpreadIs(values: seq<real>)
    requires values != []
    ensures Spreads(values, Largest(values) - Smallest(values))
  {
    hide Largest, Smallest;
    LargestIs(values);
    var i :| 0 <= i < |values| && values[i] == Largest(values);
    var j :| 0 <= j < |values| && values[j] == Smallest(values);
    assert values[i] - values[j] == Largest(values) - Smallest(values);
    forall k, l | 0 <= k < |values| && 0 <= l < |values| ensures values[k] - values[l] <= Largest(values) - Smallest(values) {
      Extremes(values, k);
      Extremes(values, l);
    }
  }

  /** What is measured of a tier: its requests in order, in each repetition the time to its latest
      completion, the median of these times, and how far they spread relative to it. */
  lemma MetricMeans(m: Metric, rows: seq<Row>, repetitions: nat, tier: nat)
    requires repetitions >= 1 && Measurable(rows, repetitions, tier) && MetricOf(m, rows, repetitions, tier)
    ensures Rising(m.ids) && forall id :: id in m.ids <==> id in IdSet(rows, 1, tier)
    ensures |m.samples| == repetitions && forall i :: 0 <= i < repetitions ==> LatestAfter(rows, i + 1, tier, m.samples[i])
    ensures IsMiddle(m.samples, m.completion)
    ensures Spreads(m.samples, m.relativeRange * m.completion)
  {
    hide Selected, Complete, Elapsed, Sort, IdSet, Ids, LatestAfter, IsMiddle, Median, Largest, Smallest, Spreads, Rising;
    MedianMeans(m.samples);
    forall i | 0 <= i < repetitions ensures LatestAfter(rows, i + 1, tier, m.samples[i]) {
      ElapsedMeans(rows, i + 1, tier);
    }
    SortedIds(rows, tier);
    SpreadIs(m.samples);
    assert m.relativeRange * m.completion == Largest(m.samples) - Smallest(m.samples);
  }

  lemma SortedIds(rows: seq<Row>, tier: nat)
    requires Complete(Selected(rows, 1, tier))
    ensures var ids := Sort(Ids(Selected(rows, 1, tier)), NatLe);
            Rising(ids) && forall id :: id in ids <==> id in IdSet(rows, 1, tier)
  {
    hide Selected, Sort, IdSet, LastCompletion;
    var s := Selected(rows, 1, tier);
    var ids := Sort(Ids(s), NatLe);
    SortAscending(Ids(s), NatLe);
    OneEach(s);
    IdsAre(rows, 1, tier);
    forall id ensures id in ids <==> id in Ids(s) {
      assert id in multiset(ids) <==> id in multiset(Ids(s));
    }
    forall i, j | 0 <= i < j < |ids| ensures ids[i] < ids[j] {
      assert NatLe(ids[i], ids[j]);
      if ids[i] == ids[j] {
        TwiceIn(ids, i, j);
      }
    }
  }

  lemma TwiceIn(s: seq<nat>, i: nat, j: nat)
    requires i < j < |s| && s[i] == s[j]
    ensures multiset(s)[s[i]] >= 2
  {
    assert s == s[..j] + s[j..];
    assert s[..j][i] == s[i] && s[j..][0] == s[i];
    assert s[i] in multiset(s[..j]) && s[i] in multiset(s[j..]);
  }

  // ---------------------------------------------------------------------------
  // The charge

  /** A completion is short of a baseline of fewer than two tokens if it has fewer, and of a longer one
      if it has fewer than two, or less than the tolerated share. */
  lemma ShortMeans(row: Row, baseline: int, tolerance: real)
    ensures IsShort(row, Some(baseline), tolerance) <==>
            !row.failed && if baseline < 2 then row.tokens < baseline
                           else row.tokens < 2 || row.tokens as real < tolerance * baseline as real
    ensures !IsShort(row, None, tolerance)
  {
    CeilMeans(row.tokens, tolerance * baseline as real);
  }

  lemma CeilMeans(n: int, x: real)
    ensures n < Ceil(x) <==> n as real < x
  {
  }

  /** Where a completion's decoding starts: at its first token where that is known, but not before its
      admission, nor after its end. */
  ghost predicate DecodesFrom(row: Row, t: real) {
    var admitted := if row.admission.Some? then row.admission.value else row.groupStart;
    if row.ttft.None? then t == admitted
    else
      var first := (if row.dispatch.Some? then row.dispatch.value else admitted) + row.ttft.value;
      && t <= row.completion
      && (t == row.completion || (t >= admitted && t >= first))
      && (t == row.completion || t == admitted || t == first)
      && (t == row.completion ==> row.completion <= admitted || row.completion <= first)
  }

  /** A short completion is charged at the speed it was decoded at: the time per token expected is the
      time per token produced, counting at least one. Its start of decoding stays, and so does all else;
      any other completion stays as it is. */
  lemma ChargeMeans(row: Row, reference: Option<int>, tolerance: real)
    ensures !IsShort(row, reference, tolerance) ==> Charge(row, reference, tolerance) == row
    ensures IsShort(row, reference, tolerance) ==>
              exists t :: DecodesFrom(row, t)
                          && (Charge(row, reference, tolerance).completion - t) * (if row.tokens == 0 then 1.0 else row.tokens as real)
                             == (row.completion - t) * reference.value as real
    ensures Charge(row, reference, tolerance) == row.(completion := Charge(row, reference, tolerance).completion)
  {
    hide MinAlignedTokens;
    if IsShort(row, reference, tolerance) {
      var t := Origin(row);
      assert DecodesFrom(row, t);
      var d := MaxInt(row.tokens, 1) as real;
      Divided((row.completion - t) * reference.value as real, d);
    }
  }

  lemma Divided(x: real, d: real)
    requires d > 0.0
    ensures x / d * d == x
  {
  }

  // ---------------------------------------------------------------------------
  // The speedup

  lemma {:induction false} NoGain(weights: seq<real>, times: seq<real>, n: nat)
    requires n <= |weights| && n <= |times| && forall t :: 0 <= t < n ==> times[t] > 0.0
    ensures WeightedSpeedup(weights, times, times, n) == 0.0
  {
    if n > 0 {
      NoGain(weights, times, n - 1);
    }
  }

  /** Running at the baseline's times gains nothing, and saving time in one tier gains the tier's weight
      times the share of its baseline time saved, whatever the other tiers do. */
  lemma {:induction false} SpeedupMeans(weights: seq<real>, baseline: seq<real>, times: seq<real>, n: nat, tier: nat, saved: real)
    requires n <= |weights| && n <= |baseline| && n <= |times| && tier < n
    requires forall t :: 0 <= t < n ==> baseline[t] > 0.0
    ensures WeightedSpeedup(weights, baseline, baseline, n) == 0.0
    ensures WeightedSpeedup(weights, baseline, times[tier := times[tier] - saved], n)
            == WeightedSpeedup(weights, baseline, times, n) + weights[tier] * (saved / baseline[tier])
  {
    NoGain(weights, baseline, n);
    var faster := times[tier := times[tier] - saved];
    if tier == n - 1 {
      SameTiers(weights, baseline, times, faster, n - 1);
      Saved(weights[tier], times[tier], baseline[tier], saved);
    } else {
      SpeedupMeans(weights, baseline, times, n - 1, tier, saved);
    }
  }

  lemma {:induction false} SameTiers(weights: seq<real>, baseline: seq<real>, a: seq<real>, b: seq<real>, n: nat)
    requires n <= |weights| && n <= |baseline| && n <= |a| && n <= |b|
    requires forall t :: 0 <= t < n ==> baseline[t] > 0.0 && a[t] == b[t]
    ensures WeightedSpeedup(weights, baseline, a, n) == WeightedSpeedup(weights, baseline, b, n)
  {
    if n > 0 {
      SameTiers(weights, baseline, a, b, n - 1);
    }
  }

  lemma Saved(weight: real, time: real, base: real, saved: real)
    requires base > 0.0
    ensures weight * (1.0 - (time - saved) / base) == weight * (1.0 - time / base) + weight * (saved / base)
  {
    assert (time - saved) / base == time / base - saved / base;
  }

  /** What the score is made of: the speedup, of which slow first tokens leave the loss and no gain, less
      the same price for every share of the requests that failed. */
  lemma FinalScoreMeans(raw: real, capped: bool, coefficient: real, rate: real, more: real)
    ensures FinalScore(raw, false, coefficient, 0.0) == raw
    ensures FinalScore(raw, true, coefficient, 0.0) == (if raw > 0.0 then 0.0 else raw)
    ensures FinalScore(raw, capped, coefficient, rate + more) == FinalScore(raw, capped, coefficient, rate) - coefficient * more
    ensures coefficient >= 0.0 && rate >= 0.0 ==> FinalScore(raw, capped, coefficient, rate) <= raw
    ensures coefficient >= 0.0 && rate >= 0.0 && capped ==> FinalScore(raw, capped, coefficient, rate) <= 0.0
  {
    assert coefficient * (rate + more) == coefficient * rate + coefficient * more;
    if coefficient >= 0.0 && rate >= 0.0 {
      WeightMonotone(coefficient, 0.0, rate);
    }
  }
}
