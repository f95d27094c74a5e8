/** Charging short completions: a completion that stops early is charged as if it had gone on to
    the baseline's length. Charging can only cost: no row finishes earlier, so no tier's time
    drops, so the weighted speedup never rises. */
module Score {
  import opened Basics
  import opened Sorting

  /** A replayed request as the scorer sees it; times in milliseconds from the replay's start. */
  datatype Row = Row(
    id: nat, rep: nat, tier: nat, failed: bool, tokens: nat, admission: Option<real>, groupStart: real,
    dispatch: Option<real>, ttft: Option<real>, completion: real)

  // ---------------------------------------------------------------------------
  // Charging one row

  function Ceil(x: real): int {
    if x.Floor as real == x then x.Floor else x.Floor + 1
  }

  /** The fewest tokens that count as a full answer. */
  function MinAlignedTokens(baseline: int, tolerance: real): int {
    if baseline < 2 then baseline
    else
      var aligned := Ceil(tolerance * baseline as real);
      if aligned > 2 then aligned else 2
  }

  function Admission(row: Row): real {
    match row.admission
    case Some(a) => a
    case None => row.groupStart
  }

  /** From where a short completion's time is scaled: its first token, if known. */
  function Origin(row: Row): real {
    match row.ttft
    case None => Admission(row)
    case Some(ttft) =>
      var dispatch := match row.dispatch case Some(d) => d case None => Admission(row);
      MinReal(MaxReal(Admission(row), dispatch + ttft), row.completion)
  }

  predicate IsShort(row: Row, reference: Option<int>, tolerance: real) {
    reference.Some? && !row.failed && row.tokens < MinAlignedTokens(reference.value, tolerance)
  }

  function MaxInt(a: int, b: int): int {
    if a >= b then a else b
  }

  /** A decode time stretched from the tokens produced to the tokens expected. */
  function Stretch(elapsed: real, reference: int, tokens: nat): real {
    elapsed * reference as real / MaxInt(tokens, 1) as real
  }

  function Charge(row: Row, reference: Option<int>, tolerance: real): Row {
    if !IsShort(row, reference, tolerance) then row
    else
      var elapsed := row.completion - Origin(row);
      row.(completion := Origin(row) + Stretch(elapsed, reference.value, row.tokens))
  }

  lemma CeilBound(x: real, n: int)
    requires x <= n as real
    ensures Ceil(x) <= n
  {
  }

  lemma Shrink(x: real, n: real)
    requires x <= 1.0 && n >= 0.0
    ensures x * n <= n
  {
  }

  /** A short answer has fewer tokens than the baseline's. */
  lemma ShortIsBelowBaseline(tokens: nat, baseline: int, tolerance: real)
    requires tolerance <= 1.0 && tokens < MinAlignedTokens(baseline, tolerance)
    ensures MaxInt(tokens, 1) <= baseline
  {
    hide Ceil;
    if baseline >= 2 {
      Shrink(tolerance, baseline as real);
      CeilBound(tolerance * baseline as real, baseline);
    }
  }

  lemma StretchedUp(elapsed: real, reference: int, tokens: nat)
    requires elapsed >= 0.0 && MaxInt(tokens, 1) <= reference
    ensures Stretch(elapsed, reference, tokens) >= elapsed
  {
    var d := MaxInt(tokens, 1) as real;
    MulMonotone(elapsed, d, reference as real);
    DivMonotone(elapsed * d, elapsed * reference as real, d);
    assert elapsed * d / d == elapsed;
  }

  lemma MulMonotone(x: real, a: real, b: real)
    requires x >= 0.0 && a <= b
    ensures x * a <= x * b
  {
  }

  lemma DivMonotone(a: real, b: real, d: real)
    requires a <= b && d > 0.0
    ensures a / d <= b / d
  {
  }

  /** Charging never lowers a completion time and changes nothing else. */
  lemma ChargeOnlyCosts(row: Row, reference: Option<int>, tolerance: real)
    requires tolerance <= 1.0 && Admission(row) <= row.completion
    ensures row.completion <= Charge(row, reference, tolerance).completion
    ensures Charge(row, reference, tolerance) == row.(completion := Charge(row, reference, tolerance).completion)
  {
    hide Stretch, MinAlignedTokens;
    if IsShort(row, reference, tolerance) {
      ShortIsBelowBaseline(row.tokens, reference.value, tolerance);
      StretchedUp(row.completion - Origin(row), reference.value, row.tokens);
    }
  }

  /** Charge every row that needs it, and report which requests were. */
  method ExtrapolateShortCompletions(rows: seq<Row>, references: map<nat, int>, tolerance: real)
    returns (adjusted: seq<Row>, scaled: set<nat>)
    ensures adjusted == Charged(rows, references, tolerance)
    ensures forall id :: id in scaled <==>
              exists i :: 0 <= i < |rows| && rows[i].id == id && IsShort(rows[i], Reference(references, id), tolerance)
  {
    hide Stretch, MinAlignedTokens;
    adjusted, scaled := [], {};
    for i := 0 to |rows|
      invariant adjusted == Charged(rows[..i], references, tolerance)
      invariant forall id :: id in scaled <==>
                  exists j :: 0 <= j < i && rows[j].id == id && IsShort(rows[j], Reference(references, id), tolerance)
    {
      var row := rows[i];
      var reference := Reference(references, row.id);
      assert rows[..i + 1] == rows[..i] + [row];
      ghost var before := adjusted;
      if reference.None? || row.failed || row.tokens >= MinAlignedTokens(reference.value, tolerance) {
        adjusted := adjusted + [row];
        assert adjusted == before + [Charge(row, reference, tolerance)];
        continue;
      }
      var origin := Admission(row);
      if row.ttft.Some? {
        var dispatch := match row.dispatch case Some(d) => d case None => origin;
        origin := MinReal(MaxReal(origin, dispatch + row.ttft.value), row.completion);
      }
      assert origin == Origin(row);
      var elapsed := row.completion - origin;
      adjusted := adjusted + [row.(completion := origin + Stretch(elapsed, reference.value, row.tokens))];
      assert adjusted == before + [Charge(row, reference, tolerance)];
      scaled := scaled + {row.id};
    }
    assert rows[..|rows|] == rows;
  }

  function Reference(references: map<nat, int>, id: nat): Option<int> {
    if id in references then Some(references[id]) else None
  }

  ghost function Charged(rows: seq<Row>, references: map<nat, int>, tolerance: real): (r: seq<Row>)
    ensures |r| == |rows|
    ensures forall i :: 0 <= i < |rows| ==> r[i] == Charge(rows[i], Reference(references, rows[i].id), tolerance)
  {
    seq(|rows|, i requires 0 <= i < |rows| => Charge(rows[i], Reference(references, rows[i].id), tolerance))
  }

  // ---------------------------------------------------------------------------
  // The median

  predicate RealLe(a: real, b: real) {
    a <= b
  }

  /** The middle of the sorted values, or the mean of the two middle ones. */
  function Median(values: seq<real>): real
    requires values != []
  {
    var sorted := Sort(values, RealLe);
    SortSize(values);
    var n := |values|;
    if n % 2 == 1 then sorted[n / 2] else (sorted[n / 2 - 1] + sorted[n / 2]) / 2.0
  }

  lemma SortSize(values: seq<real>)
    ensures |Sort(values, RealLe)| == |values|
  {
    assert |multiset(Sort(values, RealLe))| == |multiset(values)|;
  }

  function AtMost(x: real): real -> real {
    (v: real) => if v <= x then 1.0 else 0.0
  }

  /** In an ascending list, the k-th value is at most `x` exactly when more than k values are. */
  lemma RankByCount(sorted: seq<real>, k: nat, x: real)
    requires Ascending(sorted, RealLe) && k < |sorted|
    ensures sorted[k] <= x <==> Sum(sorted, AtMost(x)) > k as real
  {
    hide Sum;
    var before, after := sorted[..k + 1], sorted[k + 1..];
    assert sorted == before + after;
    SumConcat(before, after, AtMost(x));
    if sorted[k] <= x {
      forall i | 0 <= i < |before| ensures AtMost(x)(before[i]) == 1.0 {
        assert i == k || RealLe(sorted[i], sorted[k]);
      }
      SumConstant(before, AtMost(x), 1.0);
      SumAtLeast(after, AtMost(x), 0.0);
    } else {
      assert before == sorted[..k] + [sorted[k]];
      SumSnoc(sorted[..k], sorted[k], AtMost(x));
      SumAtMost(sorted[..k], AtMost(x), 1.0);
      forall i | 0 <= i < |after| ensures AtMost(x)(after[i]) == 0.0 {
        assert RealLe(sorted[k], sorted[k + 1 + i]);
      }
      SumConstant(after, AtMost(x), 0.0);
    }
  }

  lemma {:induction false} SumConstant(s: seq<real>, f: real -> real, c: real)
    requires forall i :: 0 <= i < |s| ==> f(s[i]) == c
    ensures Sum(s, f) == |s| as real * c
  {
    if s != [] {
      SumConstant(s[..|s| - 1], f, c);
    }
  }

  lemma {:induction false} SumAtLeast(s: seq<real>, f: real -> real, c: real)
    requires forall i :: 0 <= i < |s| ==> f(s[i]) >= c
    ensures Sum(s, f) >= |s| as real * c
  {
    if s != [] {
      SumAtLeast(s[..|s| - 1], f, c);
    }
  }

  lemma {:induction false} SumAtMost(s: seq<real>, f: real -> real, c: real)
    requires forall i :: 0 <= i < |s| ==> f(s[i]) <= c
    ensures Sum(s, f) <= |s| as real * c
  {
    if s != [] {
      SumAtMost(s[..|s| - 1], f, c);
    }
  }

  /** Raising values can only lower how many are at most `x`. */
  lemma {:induction false} CountsDrop(a: seq<real>, b: seq<real>, x: real)
    requires |a| == |b| && forall i :: 0 <= i < |a| ==> a[i] <= b[i]
    ensures Sum(b, AtMost(x)) <= Sum(a, AtMost(x))
  {
    if a != [] {
      CountsDrop(a[..|a| - 1], b[..|b| - 1], x);
    }
  }

  /** Raising values raises every order statistic. */
  lemma OrderStatisticMonotone(a: seq<real>, b: seq<real>, k: nat)
    requires |a| == |b| && forall i :: 0 <= i < |a| ==> a[i] <= b[i]
    requires k < |a|
    ensures k < |Sort(a, RealLe)| && k < |Sort(b, RealLe)| && Sort(a, RealLe)[k] <= Sort(b, RealLe)[k]
  {
    hide Sort, Sum, Ascending;
    var s, t := Sort(a, RealLe), Sort(b, RealLe);
    SortSize(a);
    SortSize(b);
    SortAscending(a, RealLe);
    SortAscending(b, RealLe);
    var x := t[k];
    RankByCount(t, k, x);
    SumOfPermutation(t, b, AtMost(x));
    SumOfPermutation(s, a, AtMost(x));
    CountsDrop(a, b, x);
    RankByCount(s, k, x);
  }

  lemma MedianMonotone(a: seq<real>, b: seq<real>)
    requires |a| == |b| > 0 && forall i :: 0 <= i < |a| ==> a[i] <= b[i]
    ensures Median(a) <= Median(b)
  {
    hide Sort;
    var n := |a|;
    OrderStatisticMonotone(a, b, n / 2);
    if n % 2 == 0 {
      OrderStatisticMonotone(a, b, n / 2 - 1);
    }
  }

  // ---------------------------------------------------------------------------
  // Tier completion times

  /** The rows of one tier in one repetition. */
  function Selected(rows: seq<Row>, rep: nat, tier: nat): seq<Row> {
    if rows == [] then []
    else Selected(rows[..|rows| - 1], rep, tier)
         + if rows[|rows| - 1].rep == rep && rows[|rows| - 1].tier == tier then [rows[|rows| - 1]] else []
  }

  function LastCompletion(rows: seq<Row>): real
    requires rows != []
  {
    if |rows| == 1 then rows[0].completion
    else MaxReal(LastCompletion(rows[..|rows| - 1]), rows[|rows| - 1].completion)
  }

  function Ids(rows: seq<Row>): seq<nat> {
    seq(|rows|, i requires 0 <= i < |rows| => rows[i].id)
  }

  /** Complete evidence of one tier in one repetition. */
  predicate Complete(rows: seq<Row>) {
    && rows != []
    && (forall i, j :: 0 <= i < j < |rows| ==> rows[i].id != rows[j].id)
    && (forall i :: 0 <= i < |rows| ==> !rows[i].failed && rows[i].groupStart == rows[0].groupStart)
    && LastCompletion(rows) > rows[0].groupStart
  }

  /** Seconds from the group's start to the tier's last completion. */
  function Elapsed(rows: seq<Row>): real {
    if rows == [] then 0.0 else (LastCompletion(rows) - rows[0].groupStart) / 1000.0
  }

  ghost predicate Measurable(rows: seq<Row>, repetitions: nat, tier: nat) {
    && (forall rep :: 1 <= rep <= repetitions ==> Complete(Selected(rows, rep, tier)))
    && (forall rep :: 1 <= rep <= repetitions ==>
          multiset(Ids(Selected(rows, rep, tier))) == multiset(Ids(Selected(rows, 1, tier))))
  }

  ghost function Samples(rows: seq<Row>, repetitions: nat, tier: nat): (r: seq<real>)
    ensures |r| == repetitions
    ensures forall i :: 0 <= i < repetitions ==> r[i] == Elapsed(Selected(rows, i + 1, tier))
  {
    seq(repetitions, i requires 0 <= i < repetitions => Elapsed(Selected(rows, i + 1, tier)))
  }

  /** A tier's completion time: the median over the repetitions. */
  ghost function CompletionSeconds(rows: seq<Row>, repetitions: nat, tier: nat): real
    requires repetitions >= 1
  {
    Median(Samples(rows, repetitions, tier))
  }

  /** What is measured of a tier: its requests, its time in each repetition, the median of those times,
      and how far they spread relative to it. */
  datatype Metric = Metric(ids: seq<nat>, samples: seq<real>, completion: real, relativeRange: real)

  predicate NatLe(a: nat, b: nat) {
    a <= b
  }

  function Largest(values: seq<real>): real
    requires values != []
  {
    if |values| == 1 then values[0] else MaxReal(Largest(values[..|values| - 1]), values[|values| - 1])
  }

  function Smallest(values: seq<real>): real
    requires values != []
  {
    if |values| == 1 then values[0] else MinReal(Smallest(values[..|values| - 1]), values[|values| - 1])
  }

  lemma {:induction false} Extremes(values: seq<real>, i: nat)
    requires i < |values|
    ensures Smallest(values) <= values[i] <= Largest(values)
  {
    if |values| > 1 {
      Extremes(values[..|values| - 1], if i < |values| - 1 then i else 0);
    }
  }

  lemma MedianPositive(values: seq<real>)
    requires values != [] && forall i :: 0 <= i < |values| ==> values[i] > 0.0
    ensures Median(values) > 0.0
  {
    hide Sort;
    var sorted := Sort(values, RealLe);
    SortSize(values);
    forall i | 0 <= i < |sorted| ensures sorted[i] > 0.0 {
      assert sorted[i] in multiset(sorted);
      assert sorted[i] in values;
    }
  }

  lemma SamplesPositive(rows: seq<Row>, repetitions: nat, tier: nat)
    requires Measurable(rows, repetitions, tier)
    ensures forall i :: 0 <= i < repetitions ==> Samples(rows, repetitions, tier)[i] > 0.0
  {
    hide Selected, LastCompletion, Ids;
    forall i | 0 <= i < repetitions ensures Samples(rows, repetitions, tier)[i] > 0.0 {
      assert Complete(Selected(rows, i + 1, tier));
    }
  }

  /** The metric of a measurable tier. */
  ghost predicate MetricOf(m: Metric, rows: seq<Row>, repetitions: nat, tier: nat)
    requires repetitions >= 1
  {
    && m.ids == Sort(Ids(Selected(rows, 1, tier)), NatLe)
    && m.samples == Samples(rows, repetitions, tier)
    && m.completion == CompletionSeconds(rows, repetitions, tier) > 0.0
    && m.relativeRange * m.completion == Largest(m.samples) - Smallest(m.samples) >= 0.0
  }

  /** Every tier's metric, over complete, unchanging evidence of known tiers, or nothing. */
  method TierMetrics(rows: seq<Row>, repetitions: nat, tiers: nat) returns (r: Option<seq<Metric>>)
    requires repetitions >= 1
    ensures r.Some? <==>
            (forall i :: 0 <= i < |rows| ==> rows[i].tier < tiers) && forall t: nat :: t < tiers ==> Measurable(rows, repetitions, t)
    ensures r.Some? ==> |r.value| == tiers && forall t: nat :: t < tiers ==> MetricOf(r.value[t], rows, repetitions, t)
  {
    hide Measurable, MetricOf;
    for i := 0 to |rows|
      invariant forall j :: 0 <= j < i ==> rows[j].tier < tiers
    {
      if rows[i].tier >= tiers {
        return None;
      }
    }
    var metrics: seq<Metric> := [];
    for t := 0 to tiers
      invariant |metrics| == t
      invariant forall u: nat :: u < t ==> Measurable(rows, repetitions, u) && MetricOf(metrics[u], rows, repetitions, u)
    {
      var m := TierCompletion(rows, repetitions, t);
      if m.None? {
        return None;
      }
      metrics := metrics + [m.value];
    }
    return Some(metrics);
  }

  /** One tier's metric over complete, unchanging evidence, or nothing. */
  method TierCompletion(rows: seq<Row>, repetitions: nat, tier: nat) returns (r: Option<Metric>)
    requires repetitions >= 1
    ensures r.Some? <==> Measurable(rows, repetitions, tier)
    ensures r.Some? ==> MetricOf(r.value, rows, repetitions, tier)
  {
    hide Complete, Elapsed, Median, Ids, Selected, Largest, Smallest, Sort;
    var samples: seq<real> := [];
    var expected := [];
    for rep := 1 to repetitions + 1
      invariant |samples| == rep - 1
      invariant rep > 1 ==> expected == Ids(Selected(rows, 1, tier))
      invariant forall q :: 1 <= q < rep ==>
                  && Complete(Selected(rows, q, tier))
                  && multiset(Ids(Selected(rows, q, tier))) == multiset(Ids(Selected(rows, 1, tier)))
      invariant forall q :: 1 <= q < rep ==>
                  samples[q - 1] == Elapsed(Selected(rows, q, tier))
    {
      var selected := Selected(rows, rep, tier);
      if !Complete(selected) {
        return None;
      }
      if rep > 1 && multiset(Ids(selected)) != multiset(expected) {
        return None;
      }
      if rep == 1 {
        expected := Ids(selected);
      }
      samples := samples + [Elapsed(selected)];
    }
    assert samples == Samples(rows, repetitions, tier);
    SamplesPositive(rows, repetitions, tier);
    MedianPositive(samples);
    Extremes(samples, 0);
    var median := Median(samples);
    return Some(Metric(Sort(expected, NatLe), samples, median, (Largest(samples) - Smallest(samples)) / median));
  }

  /** The same rows, none of them completing earlier. */
  ghost predicate NoEarlier(a: seq<Row>, b: seq<Row>) {
    && |a| == |b|
    && forall i :: 0 <= i < |a| ==> a[i].completion <= b[i].completion && b[i] == a[i].(completion := b[i].completion)
  }

  lemma {:induction false} SelectedNoEarlier(a: seq<Row>, b: seq<Row>, rep: nat, tier: nat)
    requires NoEarlier(a, b)
    ensures NoEarlier(Selected(a, rep, tier), Selected(b, rep, tier))
  {
    if a != [] {
      SelectedNoEarlier(a[..|a| - 1], b[..|b| - 1], rep, tier);
    }
  }

  lemma {:induction false} LastNoEarlier(a: seq<Row>, b: seq<Row>)
    requires NoEarlier(a, b) && a != []
    ensures LastCompletion(a) <= LastCompletion(b)
  {
    if |a| > 1 {
      LastNoEarlier(a[..|a| - 1], b[..|b| - 1]);
    }
  }

  lemma CompleteStays(a: seq<Row>, b: seq<Row>)
    requires NoEarlier(a, b) && Complete(a)
    ensures Complete(b) && Ids(a) == Ids(b) && Elapsed(a) <= Elapsed(b)
  {
    LastNoEarlier(a, b);
  }

  /** Later completions keep a tier measurable and never lower its time. */
  lemma TierNoEarlier(a: seq<Row>, b: seq<Row>, repetitions: nat, tier: nat)
    requires NoEarlier(a, b) && repetitions >= 1 && Measurable(a, repetitions, tier)
    ensures Measurable(b, repetitions, tier)
    ensures CompletionSeconds(a, repetitions, tier) <= CompletionSeconds(b, repetitions, tier)
  {
    hide Complete, Median, Elapsed, NoEarlier, Ids, Selected;
    forall rep | 1 <= rep <= repetitions
      ensures Complete(Selected(b, rep, tier)) && Ids(Selected(a, rep, tier)) == Ids(Selected(b, rep, tier))
      ensures Elapsed(Selected(a, rep, tier)) <= Elapsed(Selected(b, rep, tier))
    {
      RepetitionNoEarlier(a, b, rep, tier);
    }
    MedianMonotone(Samples(a, repetitions, tier), Samples(b, repetitions, tier));
  }

  lemma RepetitionNoEarlier(a: seq<Row>, b: seq<Row>, rep: nat, tier: nat)
    requires NoEarlier(a, b) && Complete(Selected(a, rep, tier))
    ensures Complete(Selected(b, rep, tier)) && Ids(Selected(a, rep, tier)) == Ids(Selected(b, rep, tier))
    ensures Elapsed(Selected(a, rep, tier)) <= Elapsed(Selected(b, rep, tier))
  {
    SelectedNoEarlier(a, b, rep, tier);
    CompleteStays(Selected(a, rep, tier), Selected(b, rep, tier));
  }

  // ---------------------------------------------------------------------------
  // The weighted speedup

  /** The sum over the first `n` tiers of weight times relative time saved. */
  function WeightedSpeedup(weights: seq<real>, baseline: seq<real>, candidate: seq<real>, n: nat): real
    requires n <= |weights| && n <= |baseline| && n <= |candidate|
    requires forall t :: 0 <= t < n ==> baseline[t] > 0.0
  {
    if n == 0 then 0.0
    else WeightedSpeedup(weights, baseline, candidate, n - 1)
         + weights[n - 1] * (1.0 - candidate[n - 1] / baseline[n - 1])
  }

  lemma {:induction false} SpeedupAntitone(weights: seq<real>, baseline: seq<real>, c: seq<real>, d: seq<real>, n: nat)
    requires n <= |weights| && n <= |baseline| && n <= |c| && n <= |d|
    requires forall t :: 0 <= t < n ==> baseline[t] > 0.0 && weights[t] >= 0.0 && c[t] <= d[t]
    ensures WeightedSpeedup(weights, baseline, d, n) <= WeightedSpeedup(weights, baseline, c, n)
  {
    if n > 0 {
      SpeedupAntitone(weights, baseline, c, d, n - 1);
      DivMonotone(c[n - 1], d[n - 1], baseline[n - 1]);
      WeightMonotone(weights[n - 1], 1.0 - d[n - 1] / baseline[n - 1], 1.0 - c[n - 1] / baseline[n - 1]);
    }
  }

  lemma WeightMonotone(w: real, x: real, y: real)
    requires w >= 0.0 && x <= y
    ensures w * x <= w * y
  {
  }

  /** The final score: slow first tokens cap the speedup at zero, failures cost their share. */
  function FinalScore(raw: real, capped: bool, coefficient: real, failureRate: real): real {
    (if capped then MinReal(raw, 0.0) else raw) - coefficient * failureRate
  }

  ghost function TierTimes(rows: seq<Row>, repetitions: nat, tiers: nat): (r: seq<real>)
    requires repetitions >= 1
    ensures |r| == tiers && forall t: nat :: t < tiers ==> r[t] == CompletionSeconds(rows, repetitions, t)
  {
    seq(tiers, t requires 0 <= t < tiers => CompletionSeconds(rows, repetitions, t))
  }

  /** Charging a candidate's short completions never raises its weighted speedup or its score, and
      never turns complete tier evidence into incomplete evidence. */
  lemma ChargingNeverPays(rows: seq<Row>, references: map<nat, int>, tolerance: real, repetitions: nat, tiers: nat,
                          weights: seq<real>, baseline: seq<real>, capped: bool, coefficient: real, failureRate: real)
    requires tolerance <= 1.0 && repetitions >= 1
    requires forall i :: 0 <= i < |rows| ==> Admission(rows[i]) <= rows[i].completion
    requires forall t: nat :: t < tiers ==> Measurable(rows, repetitions, t)
    requires |weights| == |baseline| == tiers
    requires forall t :: 0 <= t < tiers ==> baseline[t] > 0.0 && weights[t] >= 0.0
    ensures forall t: nat :: t < tiers ==> Measurable(Charged(rows, references, tolerance), repetitions, t)
    ensures var charged := TierTimes(Charged(rows, references, tolerance), repetitions, tiers);
            var measured := TierTimes(rows, repetitions, tiers);
            && (forall t :: 0 <= t < tiers ==> measured[t] <= charged[t])
            && WeightedSpeedup(weights, baseline, charged, tiers) <= WeightedSpeedup(weights, baseline, measured, tiers)
            && FinalScore(WeightedSpeedup(weights, baseline, charged, tiers), capped, coefficient, failureRate)
               <= FinalScore(WeightedSpeedup(weights, baseline, measured, tiers), capped, coefficient, failureRate)
  {
    hide Measurable, CompletionSeconds, Charge, WeightedSpeedup;
    var adjusted := Charged(rows, references, tolerance);
    forall i | 0 <= i < |rows|
      ensures rows[i].completion <= adjusted[i].completion && adjusted[i] == rows[i].(completion := adjusted[i].completion)
    {
      ChargeOnlyCosts(rows[i], Reference(references, rows[i].id), tolerance);
    }
    assert NoEarlier(rows, adjusted);
    forall t: nat | t < tiers
      ensures Measurable(adjusted, repetitions, t)
      ensures CompletionSeconds(rows, repetitions, t) <= CompletionSeconds(adjusted, repetitions, t)
    {
      TierNoEarlier(rows, adjusted, repetitions, t);
    }
    var measured, charged := TierTimes(rows, repetitions, tiers), TierTimes(adjusted, repetitions, tiers);
    SpeedupAntitone(weights, baseline, measured, charged, tiers);
  }
}
