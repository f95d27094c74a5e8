/** Grading an engine's outputs for repeat loops: the running flag the loop keeps equals an
    order-free statement about the outputs' texts as a whole. */
module Grading {
  import opened Basics
  import opened Counting
  import opened RepeatedSpan
  import opened Degeneracy

  /** What the baseline's outputs say about a prompt: nothing was measured, its ratios and the forced
      outputs it produced, or that the prompt is left out; a reference may also be missing. */
  datatype Standing = Unmeasured | Measured(distinct: real, span: real, forced: seq<string>) | Dropped | Missing

  /** One captured output: the median text, all repetitions' texts, and the prefix the scorer returns
      for it, if it can score it. */
  datatype Output = Output(
    id: nat, text: string, ignoreEos: bool, samples: seq<string>, standing: Standing, scored: Option<string>)

  const MAX_REPEATED_SPAN_FAILURES := 4
  const MAX_RELATIVE_FAILURES := 4

  /** Only retained, non-empty outputs are graded. */
  predicate IsGraded(o: Output) {
    (o.standing.Unmeasured? || o.standing.Measured?) && o.text != ""
  }

  /** The engine was made to go on past its own end, as the baseline was. */
  predicate ForcedTail(o: Output) {
    o.ignoreEos && o.standing.Measured? && o.standing.forced != []
  }

  function Samples(o: Output): seq<string> {
    if o.samples == [] then [o.text] else o.samples
  }

  ghost function SampleFinding(text: string): Finding {
    if text == "" then Hard else FindingOf(text)
  }

  ghost function SampleFindings(texts: seq<string>): (r: seq<Finding>)
    ensures |r| == |texts| && forall i :: 0 <= i < |texts| ==> r[i] == SampleFinding(texts[i])
  {
    seq(|texts|, i requires 0 <= i < |texts| => SampleFinding(texts[i]))
  }

  /** The absolute checks made before an output is scored: every repetition of a free completion. */
  ghost function ChecksBefore(o: Output): seq<Finding> {
    if o.ignoreEos then [] else SampleFindings(Samples(o))
  }

  function PrefixText(o: Output): string {
    if o.standing.Unmeasured? || o.scored.None? then o.text else o.scored.value
  }

  /** The baseline emitted this prefix itself. */
  predicate Excused(o: Output, prefix: string) {
    ForcedTail(o) && exists i :: 0 <= i < |o.standing.forced| && prefix <= o.standing.forced[i]
  }

  /** The absolute checks made after an output is scored: its prefix, and its whole text unless the
      engine was made to go on. */
  ghost function ChecksAfter(o: Output): seq<Finding> {
    [if Excused(o, PrefixText(o)) then Fine else FindingOf(PrefixText(o))]
    + if ForcedTail(o) then [] else [FindingOf(o.text)]
  }

  ghost predicate FailsRelative(o: Output) {
    o.standing.Measured? && FallsBehind(o.text, o.standing.distinct, o.standing.span) && !ForcedTail(o)
  }

  // ---------------------------------------------------------------------------
  // The specification

  /** The prompts with a repeated-span finding. */
  ghost function SpanPrompts(outputs: seq<Output>): set<nat> {
    set o | o in outputs && IsGraded(o) && Span in ChecksBefore(o) + ChecksAfter(o) :: o.id
  }

  ghost function RelativePrompts(outputs: seq<Output>): set<nat> {
    set o | o in outputs && IsGraded(o) && FailsRelative(o) :: o.id
  }

  ghost predicate SomeHard(outputs: seq<Output>) {
    exists o :: o in outputs && IsGraded(o) && Hard in ChecksBefore(o) + ChecksAfter(o)
  }

  /** A text that fails outright, or too many prompts with a repeated span, or too many prompts more
      repetitive than the baseline. */
  ghost predicate Degenerate(outputs: seq<Output>) {
    SomeHard(outputs) || |SpanPrompts(outputs)| > MAX_REPEATED_SPAN_FAILURES
      || |RelativePrompts(outputs)| > MAX_RELATIVE_FAILURES
  }

  /** The findings on the prompts: on which prompt some check found something amiss, and what. */
  ghost function Findings(outputs: seq<Output>): set<(nat, Finding)> {
    set o, f | o in outputs && IsGraded(o) && f in ChecksBefore(o) + ChecksAfter(o) && f != Fine :: (o.id, f)
  }

  /** Neither the order of the outputs, nor how many repetitions of a prompt fail or pass, matters:
      what is found amiss on which prompt decides. */
  lemma DegenerateIsOrderFree(a: seq<Output>, b: seq<Output>)
    requires Findings(a) == Findings(b) && RelativePrompts(a) == RelativePrompts(b)
    ensures Degenerate(a) <==> Degenerate(b)
  {
    hide IsGraded, ChecksBefore, ChecksAfter, RelativePrompts;
    FindingsDecide(a);
    FindingsDecide(b);
  }

  lemma FindingsDecide(outputs: seq<Output>)
    ensures SpanPrompts(outputs) == set p | p in Findings(outputs) && p.1 == Span :: p.0
    ensures SomeHard(outputs) <==> exists p :: p in Findings(outputs) && p.1 == Hard
  {
    hide IsGraded, ChecksBefore, ChecksAfter;
    var found := Findings(outputs);
    forall id | id in SpanPrompts(outputs) ensures (id, Span) in found {
      var o :| o in outputs && IsGraded(o) && Span in ChecksBefore(o) + ChecksAfter(o) && o.id == id;
    }
    if SomeHard(outputs) {
      var o :| o in outputs && IsGraded(o) && Hard in ChecksBefore(o) + ChecksAfter(o);
      assert (o.id, Hard) in found;
    }
  }

  /** One failing repetition of a prompt weighs as much as any number of them. */
  lemma RepetitionsCountOnce(outputs: seq<Output>, i: nat, samples: seq<string>)
    requires i < |outputs| && outputs[i].samples != [] && samples != [] && !outputs[i].ignoreEos
    requires forall f | f != Fine :: f in SampleFindings(samples) <==> f in SampleFindings(outputs[i].samples)
    ensures Degenerate(outputs[i := outputs[i].(samples := samples)]) <==> Degenerate(outputs)
  {
    hide Degenerate, FindingOf, FallsBehind, Excused, PrefixText, SampleFindings;
    var o, o' := outputs[i], outputs[i].(samples := samples);
    var changed := outputs[i := o'];
    SameFailures(o, o');
    forall x | x in changed ensures x == o' || x in outputs {
    }
    forall x | x in outputs ensures x == o || x in changed {
      var j :| 0 <= j < |outputs| && outputs[j] == x;
      assert j != i ==> changed[j] == x;
    }
    assert o in outputs && changed[i] == o' && o' in changed;
    FindingsOfChanged(outputs, changed, o, o');
    FindingsOfChanged(changed, outputs, o', o);
    DegenerateIsOrderFree(outputs, changed);
  }

  lemma SameFailures(o: Output, o': Output)
    requires o.samples != [] && o'.samples != [] && o' == o.(samples := o'.samples) && !o.ignoreEos
    requires forall f | f != Fine :: f in SampleFindings(o'.samples) <==> f in SampleFindings(o.samples)
    ensures IsGraded(o) == IsGraded(o') && FailsRelative(o) == FailsRelative(o')
    ensures forall f | f != Fine :: f in ChecksBefore(o) + ChecksAfter(o) <==> f in ChecksBefore(o') + ChecksAfter(o')
  {
    hide FindingOf, FallsBehind;
    assert ChecksAfter(o) == ChecksAfter(o');
  }

  lemma FindingsOfChanged(a: seq<Output>, b: seq<Output>, o: Output, o': Output)
    requires o.id == o'.id && o' in b && (forall x | x in a :: x == o || x in b)
    requires IsGraded(o) == IsGraded(o') && FailsRelative(o) == FailsRelative(o')
    requires forall f | f != Fine :: f in ChecksBefore(o) + ChecksAfter(o) <==> f in ChecksBefore(o') + ChecksAfter(o')
    ensures Findings(a) <= Findings(b) && RelativePrompts(a) <= RelativePrompts(b)
  {
    hide IsGraded, ChecksBefore, ChecksAfter, FailsRelative;
    forall p | p in Findings(a) ensures p in Findings(b) {
      var x, f :| x in a && IsGraded(x) && f in ChecksBefore(x) + ChecksAfter(x) && f != Fine && p == (x.id, f);
      assert x == o ==> f in ChecksBefore(o') + ChecksAfter(o');
    }
    forall id | id in RelativePrompts(a) ensures id in RelativePrompts(b) {
      var x :| x in a && IsGraded(x) && FailsRelative(x) && x.id == id;
    }
  }

  /** Some part of the text repeats a span of at least a quarter of its length. */
  ghost predicate RepeatsQuarter(text: string) {
    exists i, l: nat :: 0 <= i < |Parts(text)| && |Parts(text)[i]| >= MIN_CHARS && Repeats(Parts(text)[i], l)
                        && 4 * l >= |Parts(text)[i]|
  }

  /** The prompts of ordinary completions that repeat such a span. */
  ghost function RepeatingPrompts(outputs: seq<Output>): set<nat> {
    set o | o in outputs && IsGraded(o) && !ForcedTail(o) && RepeatsQuarter(o.text) :: o.id
  }

  lemma QuarterLoops(text: string)
    ensures RepeatsQuarter(text) ==> FindingOf(text) != Fine
  {
    hide Repeats, SpanRatio, BelowFloor, Parts;
    if i, l: nat :| 0 <= i < |Parts(text)| && |Parts(text)[i]| >= MIN_CHARS && Repeats(Parts(text)[i], l)
                    && 4 * l >= |Parts(text)[i]| {
      var part := Parts(text)[i];
      QuarterShare(l, |part|);
      SpanReaches(part, MAX_SPAN_RATIO);
      assert Loops(part);
    }
  }

  lemma QuarterShare(l: nat, n: nat)
    requires 4 * l >= n > 0
    ensures l as real / n as real >= MAX_SPAN_RATIO
  {
  }

  /** What outputs that are not degenerate look like: no ordinary completion has a part with too few
      distinct n-grams, and at most four prompts repeat a span of a quarter of a part. */
  lemma NotDegenerate(outputs: seq<Output>)
    requires !Degenerate(outputs)
    ensures forall o, i :: o in outputs && IsGraded(o) && !ForcedTail(o) && 0 <= i < |Parts(o.text)| ==>
              !BelowFloor(Parts(o.text)[i])
    ensures |RepeatingPrompts(outputs)| <= MAX_REPEATED_SPAN_FAILURES
  {
    hide IsGraded, ForcedTail, BelowFloor, Loops, Parts, ChecksBefore, RepeatsQuarter;
    forall o | o in outputs && IsGraded(o) && !ForcedTail(o)
      ensures FindingOf(o.text) in ChecksBefore(o) + ChecksAfter(o)
    {
      assert FindingOf(o.text) in ChecksAfter(o);
    }
    forall id | id in RepeatingPrompts(outputs) ensures id in SpanPrompts(outputs) {
      var o :| o in outputs && IsGraded(o) && !ForcedTail(o) && RepeatsQuarter(o.text) && o.id == id;
      QuarterLoops(o.text);
    }
    SubsetSize(RepeatingPrompts(outputs), SpanPrompts(outputs));
  }

  // ---------------------------------------------------------------------------
  // The loop's state

  /** The flag is up exactly when one of the three conditions holds of what has been recorded. */
  ghost predicate Consistent(degenerate: bool, hard: bool, spans: set<nat>, relative: set<nat>) {
    degenerate <==> hard || |spans| > MAX_REPEATED_SPAN_FAILURES || |relative| > MAX_RELATIVE_FAILURES
  }

  lemma Grows(spans: set<nat>, id: nat)
    ensures |spans| <= |spans + {id}| <= |spans| + 1
  {
    SubsetSize(spans, spans + {id});
    if id in spans {
      assert spans + {id} == spans;
    }
  }

  class Grader {
    var degenerate: bool
    var spanFailures: set<nat>
    var relativeFailures: set<nat>
    ghost var hard: bool

    constructor ()
      ensures Valid() && !hard && spanFailures == {} && relativeFailures == {}
    {
      degenerate, spanFailures, relativeFailures, hard := false, {}, {}, false;
    }

    ghost predicate Valid()
      reads this
    {
      Consistent(degenerate, hard, spanFailures, relativeFailures)
    }

    /** Record one absolute check of a prompt. */
    method RecordAbsoluteCheck(id: nat, finding: Finding)
      requires Valid()
      modifies this
      ensures Valid() && relativeFailures == old(relativeFailures)
      ensures hard == (old(hard) || finding == Hard)
      ensures spanFailures == old(spanFailures) + if finding == Span then {id} else {}
    {
      match finding {
        case Fine =>
        case Hard =>
          degenerate := true;
          hard := true;
        case Span =>
          Grows(spanFailures, id);
          spanFailures := spanFailures + {id};
          if |spanFailures| > MAX_REPEATED_SPAN_FAILURES {
            degenerate := true;
          }
      }
    }

    /** Record several checks of one prompt. */
    method RecordChecks(id: nat, checks: seq<Finding>)
      requires Valid()
      modifies this
      ensures Valid() && relativeFailures == old(relativeFailures)
      ensures hard == (old(hard) || Hard in checks)
      ensures spanFailures == old(spanFailures) + if Span in checks then {id} else {}
    {
      for i := 0 to |checks|
        invariant Valid() && relativeFailures == old(relativeFailures)
        invariant hard == (old(hard) || Hard in checks[..i])
        invariant spanFailures == old(spanFailures) + if Span in checks[..i] then {id} else {}
      {
        assert checks[..i + 1] == checks[..i] + [checks[i]];
        RecordAbsoluteCheck(id, checks[i]);
      }
      assert checks[..|checks|] == checks;
    }

    /** Record a prompt that is more repetitive than its baseline. */
    method RecordRelative(id: nat)
      requires Valid()
      modifies this
      ensures Valid() && hard == old(hard) && spanFailures == old(spanFailures)
      ensures relativeFailures == old(relativeFailures) + {id}
    {
      Grows(relativeFailures, id);
      relativeFailures := relativeFailures + {id};
      if |relativeFailures| > MAX_RELATIVE_FAILURES {
        degenerate := true;
      }
    }
  }

  lemma FlagIsDegenerate(outputs: seq<Output>, degenerate: bool, hard: bool, spans: set<nat>, relative: set<nat>)
    requires Consistent(degenerate, hard, spans, relative) && Reflects(outputs, hard, spans, relative)
    ensures degenerate <==> Degenerate(outputs)
  {
  }

  lemma FlagIsDegenerateBefore(outputs: seq<Output>, o: Output, degenerate: bool, hard: bool, spans: set<nat>,
                               relative: set<nat>)
    requires Consistent(degenerate, hard, spans, relative)
    requires hard == (SomeHard(outputs) || Hard in ChecksBefore(o))
    requires spans == SpanPrompts(outputs) + if Span in ChecksBefore(o) then {o.id} else {}
    requires relative == RelativePrompts(outputs) + if FailsRelative(o) then {o.id} else {}
    ensures degenerate <==> DegenerateBefore(outputs, o)
  {
  }

  /** What the flags stand for after some outputs have been fully graded. */
  ghost predicate Reflects(outputs: seq<Output>, hard: bool, spans: set<nat>, relative: set<nat>) {
    hard == SomeHard(outputs) && spans == SpanPrompts(outputs) && relative == RelativePrompts(outputs)
  }

  /** The flag just before output `o` is scored, after `outputs`. */
  ghost predicate DegenerateBefore(outputs: seq<Output>, o: Output) {
    || SomeHard(outputs) || Hard in ChecksBefore(o)
    || |SpanPrompts(outputs) + if Span in ChecksBefore(o) then {o.id} else {}| > MAX_REPEATED_SPAN_FAILURES
    || |RelativePrompts(outputs) + if FailsRelative(o) then {o.id} else {}| > MAX_RELATIVE_FAILURES
  }

  lemma ReflectsMore(outputs: seq<Output>, o: Output)
    ensures IsGraded(o) ==>
              Reflects(outputs + [o], SomeHard(outputs) || Hard in ChecksBefore(o) || Hard in ChecksAfter(o),
                       SpanPrompts(outputs) + (if Span in ChecksBefore(o) then {o.id} else {})
                         + (if Span in ChecksAfter(o) then {o.id} else {}),
                       RelativePrompts(outputs) + if FailsRelative(o) then {o.id} else {})
    ensures !IsGraded(o) ==>
              Reflects(outputs + [o], SomeHard(outputs), SpanPrompts(outputs), RelativePrompts(outputs))
  {
    hide SomeHard, SpanPrompts, RelativePrompts, IsGraded, FailsRelative, ChecksBefore, ChecksAfter;
    HardMore(outputs, o);
    SpansMore(outputs, o);
    RelativeMore(outputs, o);
    var spans := SpanPrompts(outputs);
    assert spans + {} == spans && RelativePrompts(outputs) + {} == RelativePrompts(outputs);
    assert spans + {o.id} + {o.id} == spans + {o.id};
  }

  lemma HardMore(outputs: seq<Output>, o: Output)
    ensures SomeHard(outputs + [o]) <==>
            SomeHard(outputs) || (IsGraded(o) && (Hard in ChecksBefore(o) || Hard in ChecksAfter(o)))
  {
  }

  lemma SpansMore(outputs: seq<Output>, o: Output)
    ensures SpanPrompts(outputs + [o]) ==
            SpanPrompts(outputs) + if IsGraded(o) && (Span in ChecksBefore(o) || Span in ChecksAfter(o)) then {o.id} else {}
  {
  }

  lemma RelativeMore(outputs: seq<Output>, o: Output)
    ensures RelativePrompts(outputs + [o]) == RelativePrompts(outputs) + if IsGraded(o) && FailsRelative(o) then {o.id} else {}
  {
  }

  datatype Grade = Aborted(index: nat) | Graded(degenerate: bool, upTo: nat)

  /** The loop cannot go past this output: its reference is missing, or the scorer fails on it. */
  predicate Stops(o: Output) {
    o.standing.Missing? || (IsGraded(o) && o.scored.None?)
  }

  /** Where the loop stops, or the number of outputs. */
  function FirstStop(outputs: seq<Output>, from: nat): (k: nat)
    requires from <= |outputs|
    ensures from <= k <= |outputs|
    ensures k < |outputs| ==> Stops(outputs[k])
    ensures forall i :: from <= i < k ==> !Stops(outputs[i])
    decreases |outputs| - from
  {
    if from == |outputs| || Stops(outputs[from]) then from else FirstStop(outputs, from + 1)
  }

  /** How grading ends: all outputs are graded, or a scorer failure comes after the texts have already
      been found degenerate, or grading fails. */
  ghost function GradeOf(outputs: seq<Output>): (g: Grade)
    ensures g.Graded? ==> g.upTo <= |outputs|
  {
    var k := FirstStop(outputs, 0);
    if k == |outputs| then Graded(Degenerate(outputs), k)
    else if outputs[k].standing.Missing? || !DegenerateBefore(outputs[..k], outputs[k]) then Aborted(k)
    else Graded(true, k)
  }

  /** Some output that is graded at all came back empty. */
  predicate SomeEmpty(outputs: seq<Output>) {
    exists i :: 0 <= i < |outputs| && !outputs[i].standing.Dropped? && outputs[i].text == ""
  }

  /** Check every repetition of an output. */
  method CheckSamples(texts: seq<string>) returns (checks: seq<Finding>)
    ensures checks == SampleFindings(texts)
  {
    hide FindingOf;
    checks := [];
    for i := 0 to |texts|
      invariant |checks| == i && forall j :: 0 <= j < i ==> checks[j] == SampleFinding(texts[j])
    {
      var finding := Hard;
      if texts[i] != "" {
        finding := CheckText(texts[i]);
      }
      checks := checks + [finding];
    }
  }

  method CheckScored(o: Output) returns (checks: seq<Finding>)
    requires o.scored.Some?
    ensures checks == ChecksAfter(o)
  {
    hide FindingOf;
    var prefix := if o.standing.Unmeasured? then o.text else o.scored.value;
    var finding := CheckText(prefix);
    if finding != Fine && Excused(o, prefix) {
      finding := Fine;
    }
    checks := [finding];
    if !ForcedTail(o) {
      finding := CheckText(o.text);
      checks := checks + [finding];
    }
  }

  /** Grade all outputs. */
  method GradeOutputs(outputs: seq<Output>) returns (g: Grade)
    ensures g == GradeOf(outputs)
    ensures (forall i :: 0 <= i < |outputs| ==> !Stops(outputs[i])) ==> g == Graded(Degenerate(outputs), |outputs|)
  {
    hide SomeHard, SpanPrompts, RelativePrompts, ChecksBefore, ChecksAfter, Degenerate, DegenerateBefore, Consistent, FailsRelative,
      FindingOf, FallsBehind, FirstStop;
    var grader := new Grader();
    NothingRecorded(outputs[..0]);
    for i := 0 to |outputs|
      invariant fresh(grader) && grader.Valid()
      invariant Reflects(outputs[..i], grader.hard, grader.spanFailures, grader.relativeFailures)
      invariant forall j :: 0 <= j < i ==> !Stops(outputs[j])
    {
      var o := outputs[i];
      assert outputs[..i + 1] == outputs[..i] + [o];
      ReflectsMore(outputs[..i], o);
      if o.standing.Missing? {
        StopsFirst(outputs, i);
        return Aborted(i);
      }
      if o.standing.Dropped? || o.text == "" {
        continue;
      }
      var before := CheckBefore(o);
      grader.RecordChecks(o.id, before);
      var behind := CheckRelative(o);
      if behind {
        grader.RecordRelative(o.id);
      }
      if o.scored.None? {
        StopsFirst(outputs, i);
        FlagIsDegenerateBefore(outputs[..i], o, grader.degenerate, grader.hard, grader.spanFailures, grader.relativeFailures);
        if !grader.degenerate {
          return Aborted(i);
        }
        return Graded(true, i);
      }
      var after := CheckScored(o);
      grader.RecordChecks(o.id, after);
    }
    assert outputs[..|outputs|] == outputs;
    FlagIsDegenerate(outputs, grader.degenerate, grader.hard, grader.spanFailures, grader.relativeFailures);
    return Graded(grader.degenerate, |outputs|);
  }

  method CheckBefore(o: Output) returns (checks: seq<Finding>)
    ensures checks == ChecksBefore(o)
  {
    checks := [];
    if !o.ignoreEos {
      checks := CheckSamples(Samples(o));
    }
  }

  method CheckRelative(o: Output) returns (fails: bool)
    ensures fails <==> FailsRelative(o)
  {
    hide FallsBehind;
    fails := false;
    if o.standing.Measured? && !ForcedTail(o) {
      fails := CompareText(o.text, o.standing.distinct, o.standing.span);
    }
  }

  lemma StopsFirst(outputs: seq<Output>, k: nat)
    requires k < |outputs| && Stops(outputs[k]) && forall j :: 0 <= j < k ==> !Stops(outputs[j])
    ensures FirstStop(outputs, 0) == k
  {
  }

  lemma NothingRecorded(outputs: seq<Output>)
    requires outputs == []
    ensures Reflects(outputs, false, {}, {})
  {
  }
}
