/** When one text reads as a repeat loop. Thinking and answer are judged apart, split at the first
    closing tag; a part fails outright when too few of its n-grams differ, and otherwise when its
    longest repeated span takes too large a share. */
module Degeneracy {
  import opened Basics
  import opened Strings
  import opened RepeatedSpan

  const NGRAM := 16
  const MIN_CHARS := 64
  const MIN_DISTINCT_RATIO := 0.15
  const MAX_SPAN_RATIO := 0.25
  const MAX_DISTINCT_DROP := 0.10
  const DROP_SLACK := 0.000000000001
  const REASONING_END := "</think>"

  /** What checking one text found: nothing, too few distinct n-grams (or no text at all), or only a
      repeated span. */
  datatype Finding = Fine | Hard | Span

  // ---------------------------------------------------------------------------
  // The two ratios

  function Gram(text: string, i: nat): string
    requires i + NGRAM <= |text|
  {
    text[i..i + NGRAM]
  }

  function Grams(text: string): set<string> {
    set i: nat | i <= |text| - NGRAM :: Gram(text, i)
  }

  /** The share of the n-grams that are distinct. */
  function DistinctRatio(text: string): real {
    if |text| < NGRAM then 1.0 else |Grams(text)| as real / (|text| - NGRAM + 1) as real
  }

  lemma {:induction false} LongestExists(text: string, bound: nat) returns (longest: nat)
    requires text != [] && forall l: nat :: Repeats(text, l) ==> l <= bound
    ensures LongestRepeat(text, longest)
  {
    hide Repeats;
    if Repeats(text, bound) {
      longest := bound;
    } else {
      EmptyWordRepeats(text);
      longest := LongestExists(text, bound - 1);
    }
  }

  lemma RepeatsBounded(text: string, length: nat)
    requires Repeats(text, length)
    ensures length <= |text|
  {
  }

  lemma LongestDefined(text: string)
    requires text != []
    ensures exists longest: nat :: LongestRepeat(text, longest)
  {
    forall l: nat | Repeats(text, l) ensures l <= |text| {
      RepeatsBounded(text, l);
    }
    var longest := LongestExists(text, |text|);
  }

  ghost function LongestSpan(text: string): (longest: nat)
    requires text != []
    ensures LongestRepeat(text, longest)
  {
    LongestDefined(text);
    var longest: nat :| LongestRepeat(text, longest);
    longest
  }

  /** The share of the text taken by its longest repeated span. */
  ghost function SpanRatio(text: string): real {
    if text == [] then 0.0 else LongestSpan(text) as real / |text| as real
  }

  method RepeatedSpanRatio(text: string) returns (ratio: real)
    ensures ratio == SpanRatio(text)
  {
    hide Repeats;
    ratio := LongestRepeatedSubstringRatio(text);
    if text != [] {
      ghost var longest: nat :| LongestRepeat(text, longest) && ratio == longest as real / |text| as real;
      assert longest <= LongestSpan(text) <= longest;
    }
  }

  /** The repeated span takes at least a share of the text exactly when some repeat does. */
  lemma SpanReaches(text: string, share: real)
    requires text != []
    ensures SpanRatio(text) >= share <==> exists l: nat :: Repeats(text, l) && l as real / |text| as real >= share
  {
    hide Repeats;
    var longest := LongestSpan(text);
    forall l: nat | Repeats(text, l) ensures l as real / |text| as real <= SpanRatio(text) {
      Share(l, longest, |text|);
    }
  }

  lemma Share(l: nat, m: nat, n: nat)
    requires l <= m && n > 0
    ensures l as real / n as real <= m as real / n as real
  {
  }

  // ---------------------------------------------------------------------------
  // Thinking and answer

  /** The parts graded apart: thinking and answer if the thinking is closed, else the whole text. */
  function Parts(text: string): (parts: seq<string>)
    ensures |parts| == 1 || |parts| == 2
  {
    var tag := Find(text, REASONING_END, 0);
    if tag == -1 then [text] else [text[..tag], text[tag + |REASONING_END|..]]
  }

  predicate BelowFloor(part: string) {
    |part| >= MIN_CHARS && DistinctRatio(part) < MIN_DISTINCT_RATIO
  }

  ghost predicate Loops(part: string) {
    |part| >= MIN_CHARS && SpanRatio(part) >= MAX_SPAN_RATIO
  }

  /** A failure of the n-gram floor in any part counts, whatever the other part shows. */
  ghost function FindingOf(text: string): Finding {
    if exists i :: 0 <= i < |Parts(text)| && BelowFloor(Parts(text)[i]) then Hard
    else if exists i :: 0 <= i < |Parts(text)| && Loops(Parts(text)[i]) then Span
    else Fine
  }

  method PartFails(part: string, checkSpan: bool) returns (fails: bool)
    ensures fails <==> BelowFloor(part) || (checkSpan && Loops(part))
  {
    hide DistinctRatio, SpanRatio;
    if |part| < MIN_CHARS {
      return false;
    }
    if DistinctRatio(part) < MIN_DISTINCT_RATIO {
      return true;
    }
    if !checkSpan {
      return false;
    }
    var ratio := RepeatedSpanRatio(part);
    return ratio >= MAX_SPAN_RATIO;
  }

  /** The first failing part decides. */
  method TextFails(text: string, checkSpan: bool) returns (fails: bool)
    ensures fails <==> exists i :: 0 <= i < |Parts(text)| && (BelowFloor(Parts(text)[i]) || (checkSpan && Loops(Parts(text)[i])))
  {
    hide BelowFloor, Loops, Parts;
    var parts := Parts(text);
    for i := 0 to |parts|
      invariant forall j :: 0 <= j < i ==> !BelowFloor(parts[j]) && !(checkSpan && Loops(parts[j]))
    {
      var bad := PartFails(parts[i], checkSpan);
      if bad {
        return true;
      }
    }
    return false;
  }

  /** Check a text: the reason, if any, is a hard one when the text fails without the span check. */
  method CheckText(text: string) returns (finding: Finding)
    ensures finding == FindingOf(text)
  {
    hide BelowFloor, Loops, Parts;
    var fails := TextFails(text, true);
    if !fails {
      return Fine;
    }
    var hard := TextFails(text, false);
    return if hard then Hard else Span;
  }

  // ---------------------------------------------------------------------------
  // Against the baseline

  /** The lowest distinct and the highest span ratio over the parts that are long enough. */
  ghost function GradedRatios(text: string): (real, real) {
    var parts := Parts(text);
    if |parts| == 1 then (DistinctRatio(text), SpanRatio(text))
    else
      var t, a := parts[0], parts[1];
      if |t| < MIN_CHARS && |a| < MIN_CHARS then (1.0, 0.0)
      else if |t| < MIN_CHARS then (DistinctRatio(a), SpanRatio(a))
      else if |a| < MIN_CHARS then (DistinctRatio(t), SpanRatio(t))
      else (MinReal(DistinctRatio(t), DistinctRatio(a)), MaxReal(SpanRatio(t), SpanRatio(a)))
  }

  method MeasureText(text: string) returns (distinct: real, span: real)
    ensures (distinct, span) == GradedRatios(text)
  {
    hide DistinctRatio, SpanRatio;
    var parts := Parts(text);
    if |parts| == 1 {
      distinct := DistinctRatio(text);
      span := RepeatedSpanRatio(text);
      return;
    }
    distinct, span := 1.0, 0.0;
    var any := false;
    for i := 0 to 2
      invariant any <==> exists j :: 0 <= j < i && |parts[j]| >= MIN_CHARS
      invariant !any ==> (distinct, span) == (1.0, 0.0)
      invariant any && (i == 1 || |parts[1]| < MIN_CHARS) ==> (distinct, span) == (DistinctRatio(parts[0]), SpanRatio(parts[0]))
      invariant i == 2 ==> (distinct, span) == GradedRatios(text)
    {
      if |parts[i]| >= MIN_CHARS {
        var ratio := RepeatedSpanRatio(parts[i]);
        if any {
          distinct, span := MinReal(distinct, DistinctRatio(parts[i])), MaxReal(span, ratio);
        } else {
          distinct, span := DistinctRatio(parts[i]), ratio;
        }
        any := true;
      }
    }
  }

  /** The text repeats itself more than the baseline did on this prompt. */
  ghost predicate FallsBehind(text: string, distinct: real, span: real) {
    var (d, r) := GradedRatios(text);
    && |text| >= MIN_CHARS
    && (|| distinct - d > MAX_DISTINCT_DROP + DROP_SLACK
        || (d < MIN_DISTINCT_RATIO && d < distinct)
        || (r >= MAX_SPAN_RATIO && r > span))
  }

  method CompareText(text: string, distinct: real, span: real) returns (behind: bool)
    ensures behind <==> FallsBehind(text, distinct, span)
  {
    hide GradedRatios;
    if |text| < MIN_CHARS {
      return false;
    }
    var d, r := MeasureText(text);
    if distinct - d > MAX_DISTINCT_DROP + DROP_SLACK {
      return true;
    }
    if d < MIN_DISTINCT_RATIO && d < distinct {
      return true;
    }
    return r >= MAX_SPAN_RATIO && r > span;
  }
}
