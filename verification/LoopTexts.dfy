/** What the findings on a text mean, in terms of the text alone: which parts it has, how many of its
    16-character spans can be told apart, and which spans it repeats. */
module LoopTexts {
  import opened Strings
  import opened Counting
  import opened RepeatedSpan
  import opened Degeneracy

  // ---------------------------------------------------------------------------
  // Parts

  ghost predicate TagAt(text: string, i: int) {
    0 <= i && i + 8 <= |text| && text[i..i + 8] == "</think>"
  }

  /** The text itself if it has no closing tag, else what stands before or behind the first one. */
  ghost predicate IsPart(text: string, part: string) {
    || (part == text && forall i :: !TagAt(text, i))
    || exists i :: TagAt(text, i) && (forall j :: 0 <= j < i ==> !TagAt(text, j)) && (part == text[..i] || part == text[i + 8..])
  }

  lemma TagOccurs(text: string, i: int)
    ensures OccursAt(text, REASONING_END, i) <==> TagAt(text, i)
  {
  }

  lemma PartsAre(text: string, part: string)
    ensures part in Parts(text) <==> IsPart(text, part)
  {
    hide OccursAt, TagAt;
    forall i: int ensures OccursAt(text, REASONING_END, i) <==> TagAt(text, i) {
      TagOccurs(text, i);
    }
    var tag := Find(text, REASONING_END, 0);
    if tag == -1 {
      forall i ensures !TagAt(text, i) {
        NotBefore(text, i);
      }
    } else {
      assert Parts(text) == [text[..tag], text[tag + 8..]];
      forall i | TagAt(text, i) && (forall j :: 0 <= j < i ==> !TagAt(text, j)) ensures i == tag {
        NotBefore(text, i);
      }
    }
  }

  lemma NotBefore(text: string, i: int)
    ensures TagAt(text, i) ==> i >= 0
  {
  }

  // ---------------------------------------------------------------------------
  // Spans that can be told apart

  /** These places start spans of 16 characters, no two the same. */
  ghost predicate Apart(part: string, starts: set<nat>) {
    && (forall i :: i in starts ==> i + 16 <= |part|)
    && forall i, j :: i in starts && j in starts && i != j ==> part[i..i + 16] != part[j..j + 16]
  }

  /** However they are picked, fewer spans than this share can be told apart. */
  ghost predicate FewerApart(part: string, share: real) {
    forall starts :: Apart(part, starts) ==> |starts| as real < share * (|part| as real - 15.0)
  }

  lemma ApartBounded(part: string, starts: set<nat>)
    requires Apart(part, starts)
    ensures |starts| <= |Grams(part)|
  {
    var spans := map i | i in starts :: Gram(part, i);
    assert spans.Keys == starts;
    InjectiveImageSize(spans);
    forall g | g in spans.Values ensures g in Grams(part) {
      var i :| i in starts && spans[i] == g;
    }
    SubsetSize(spans.Values, Grams(part));
  }

  /** One start for each of these spans. */
  lemma {:induction false} Representatives(part: string, grams: set<string>) returns (starts: set<nat>)
    requires grams <= Grams(part)
    ensures Apart(part, starts) && |starts| == |grams|
    ensures forall i :: i in starts ==> i + 16 <= |part| && part[i..i + 16] in grams
    decreases |grams|
  {
    hide Apart, Grams;
    if grams == {} {
      starts := {};
      NoneApart(part);
    } else {
      var g :| g in grams;
      var rest := Representatives(part, grams - {g});
      var i := StartOf(part, g);
      OneMoreApart(part, rest, i);
      starts := rest + {i};
    }
  }

  lemma NoneApart(part: string)
    ensures Apart(part, {})
  {
  }

  lemma StartOf(part: string, g: string) returns (i: nat)
    requires g in Grams(part)
    ensures i + 16 <= |part| && part[i..i + 16] == g
  {
    i :| i <= |part| - NGRAM && Gram(part, i) == g;
  }

  lemma OneMoreApart(part: string, starts: set<nat>, i: nat)
    requires Apart(part, starts) && i + 16 <= |part| && forall j :: j in starts ==> j + 16 <= |part| && part[j..j + 16] != part[i..i + 16]
    ensures Apart(part, starts + {i}) && i !in starts
  {
  }

  lemma ShareBelow(n: nat, m: nat, share: real)
    requires m > 0
    ensures n as real / m as real < share <==> n as real < share * m as real
  {
    var q := n as real / m as real;
    assert q * m as real == n as real;
    if q < share {
      ScaleUp(q, share, m as real);
    } else {
      ScaleDown(share, q, m as real);
    }
  }

  lemma ScaleUp(a: real, b: real, m: real)
    requires a < b && m > 0.0
    ensures a * m < b * m
  {
  }

  lemma ScaleDown(a: real, b: real, m: real)
    requires a <= b && m > 0.0
    ensures a * m <= b * m
  {
  }

  /** The share of distinct n-grams is below a bound exactly when too few spans can be told apart. */
  lemma DistinctBelow(part: string, share: real)
    requires |part| >= 16
    ensures DistinctRatio(part) < share <==> FewerApart(part, share)
  {
    hide Apart, Grams;
    var m := |part| - NGRAM + 1;
    ShareBelow(|Grams(part)|, m, share);
    assert m as real == |part| as real - 15.0;
    if DistinctRatio(part) < share {
      forall starts | Apart(part, starts) ensures |starts| as real < share * (|part| as real - 15.0) {
        ApartBounded(part, starts);
      }
    } else {
      var starts := Representatives(part, Grams(part));
      assert Apart(part, starts);
    }
  }

  /** A part of at least 64 characters of whose spans fewer than 15 in 100 can be told apart. */
  ghost predicate Poor(part: string) {
    |part| >= 64 && FewerApart(part, 0.15)
  }

  lemma FloorMeans(part: string)
    ensures BelowFloor(part) <==> Poor(part)
  {
    hide DistinctRatio, FewerApart;
    if |part| >= 64 {
      DistinctBelow(part, 0.15);
    }
  }

  // ---------------------------------------------------------------------------
  // Spans that are repeated

  /** A span of `l` characters stands at two places, which may overlap. */
  ghost predicate Again(part: string, i: int, j: int, l: int) {
    0 <= i < j && 0 <= l && j + l <= |part| && part[i..i + l] == part[j..j + l]
  }

  lemma RepeatsMeans(part: string, l: nat)
    ensures Repeats(part, l) <==> exists i, j :: Again(part, i, j, l)
  {
    if Repeats(part, l) {
      var w: string, i, j :| |w| == l && i < j && StartsAt(part, w, i) && StartsAt(part, w, j);
      assert Again(part, i, j, l);
    }
    if i, j :| Again(part, i, j, l) {
      assert StartsAt(part, part[i..i + l], i) && StartsAt(part, part[i..i + l], j);
    }
  }

  ghost predicate RepeatsMore(part: string, share: real) {
    exists i, j, l :: Again(part, i, j, l) && l as real > share * |part| as real
  }

  /** A part of at least 64 characters that repeats a quarter of itself. */
  ghost predicate Looping(part: string) {
    |part| >= 64 && exists i, j, l :: Again(part, i, j, l) && 4 * l >= |part|
  }

  lemma ShareReached(l: int, n: nat, share: real)
    requires n > 0
    ensures l as real / n as real >= share <==> l as real >= share * n as real
    ensures l as real / n as real > share <==> l as real > share * n as real
  {
    var q, m := l as real / n as real, n as real;
    Undivided(l as real, m);
    if q > share {
      ScaleUp(share, q, m);
    } else if q < share {
      ScaleUp(q, share, m);
    }
  }

  lemma Undivided(x: real, m: real)
    requires m > 0.0
    ensures x / m * m == x
  {
  }

  lemma LoopsMeans(part: string)
    ensures Loops(part) <==> Looping(part)
  {
    hide Repeats, SpanRatio, Again;
    if |part| >= 64 {
      SpanReaches(part, MAX_SPAN_RATIO);
      if Loops(part) {
        var l: nat :| Repeats(part, l) && l as real / |part| as real >= MAX_SPAN_RATIO;
        RepeatsMeans(part, l);
        ShareReached(l, |part|, 0.25);
        var i, j :| Again(part, i, j, l);
      }
      if i, j, l :| Again(part, i, j, l) && 4 * l >= |part| {
        AgainCounts(part, i, j, l);
        RepeatsMeans(part, l);
        ShareReached(l, |part|, 0.25);
      }
    }
  }

  lemma AgainCounts(part: string, i: int, j: int, l: int)
    requires Again(part, i, j, l)
    ensures l >= 0
  {
  }

  lemma SpanAbove(part: string, share: real)
    requires part != ""
    ensures SpanRatio(part) > share <==> RepeatsMore(part, share)
  {
    hide Repeats, Again;
    var longest := LongestSpan(part);
    ShareReached(longest, |part|, share);
    RepeatsMeans(part, longest);
    if SpanRatio(part) > share {
      var i, j :| Again(part, i, j, longest);
    }
    if i, j, l :| Again(part, i, j, l) && l as real > share * |part| as real {
      AgainCounts(part, i, j, l);
      RepeatsMeans(part, l);
      assert l <= longest;
    }
  }

  // ---------------------------------------------------------------------------
  // What is found

  ghost predicate SomePoor(text: string) {
    exists part :: IsPart(text, part) && Poor(part)
  }

  ghost predicate SomeLooping(text: string) {
    exists part :: IsPart(text, part) && Looping(part)
  }

  /** A text fails outright exactly when some part is poor, and as a repeated span exactly when none is
      and some part loops. */
  lemma FindingMeans(text: string)
    ensures FindingOf(text) == Hard <==> SomePoor(text)
    ensures FindingOf(text) == Span <==> !SomePoor(text) && SomeLooping(text)
  {
    hide Parts, IsPart, Poor, Looping, BelowFloor, Loops;
    var parts := Parts(text);
    forall part ensures part in parts <==> IsPart(text, part) {
      PartsAre(text, part);
    }
    forall part ensures (BelowFloor(part) <==> Poor(part)) && (Loops(part) <==> Looping(part)) {
      FloorMeans(part);
      LoopsMeans(part);
    }
    if SomePoor(text) {
      var part :| IsPart(text, part) && Poor(part);
      var i :| 0 <= i < |parts| && parts[i] == part;
      assert BelowFloor(parts[i]);
    }
    if SomeLooping(text) {
      var part :| IsPart(text, part) && Looping(part);
      var i :| 0 <= i < |parts| && parts[i] == part;
      assert Loops(parts[i]);
    }
  }

  // ---------------------------------------------------------------------------
  // Against the baseline

  /** Some long part has clearly fewer spans apart than the baseline, or too few and fewer than the
      baseline, or repeats a quarter of itself and more than the baseline. */
  ghost predicate Trails(part: string, distinct: real, span: real) {
    || FewerApart(part, distinct - (0.10 + 0.000000000001))
    || (FewerApart(part, 0.15) && FewerApart(part, distinct))
    || (Looping(part) && RepeatsMore(part, span))
  }

  /** A text without a long part trails only ratios that no baseline has. */
  ghost predicate TrailsBaseline(text: string, distinct: real, span: real) {
    |text| >= 64 &&
    if exists part :: IsPart(text, part) && |part| >= 64 then exists part :: IsPart(text, part) && |part| >= 64 && Trails(part, distinct, span)
    else distinct > 1.10 + 0.000000000001
  }

  ghost predicate TrailsBy(d: real, r: real, distinct: real, span: real) {
    distinct - d > MAX_DISTINCT_DROP + DROP_SLACK || (d < MIN_DISTINCT_RATIO && d < distinct) || (r >= MAX_SPAN_RATIO && r > span)
  }

  lemma PartTrails(part: string, distinct: real, span: real)
    requires |part| >= 64
    ensures TrailsBy(DistinctRatio(part), SpanRatio(part), distinct, span) <==> Trails(part, distinct, span)
  {
    hide DistinctRatio, SpanRatio, FewerApart, RepeatsMore, Looping;
    DistinctBelow(part, distinct - (0.10 + 0.000000000001));
    DistinctBelow(part, 0.15);
    DistinctBelow(part, distinct);
    LoopsMeans(part);
    SpanAbove(part, span);
  }

  /** A lower distinct and a higher span ratio trail what either pair trails. */
  lemma WorstTrails(d: real, r: real, d': real, r': real, distinct: real, span: real)
    ensures TrailsBy(if d <= d' then d else d', if r >= r' then r else r', distinct, span)
            <==> TrailsBy(d, r, distinct, span) || TrailsBy(d', r', distinct, span)
  {
  }

  lemma FallsBehindMeans(text: string, distinct: real, span: real)
    ensures FallsBehind(text, distinct, span) <==> TrailsBaseline(text, distinct, span)
  {
    hide DistinctRatio, SpanRatio, Parts, IsPart, Trails;
    if |text| >= 64 {
      var parts := Parts(text);
      forall part ensures part in parts <==> IsPart(text, part) {
        PartsAre(text, part);
      }
      forall part | |part| >= 64
        ensures TrailsBy(DistinctRatio(part), SpanRatio(part), distinct, span) <==> Trails(part, distinct, span)
      {
        PartTrails(part, distinct, span);
      }
      if |parts| == 1 {
        WholePart(text);
        assert text in parts;
      } else {
        WorstTrails(DistinctRatio(parts[0]), SpanRatio(parts[0]), DistinctRatio(parts[1]), SpanRatio(parts[1]), distinct, span);
        assert forall part :: IsPart(text, part) ==> part == parts[0] || part == parts[1];
        assert IsPart(text, parts[0]) && IsPart(text, parts[1]);
      }
    }
  }

  lemma WholePart(text: string)
    requires |Parts(text)| == 1
    ensures Parts(text) == [text]
  {
  }
}
