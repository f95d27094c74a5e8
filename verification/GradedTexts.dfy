/** When outputs are degenerate, and how grading ends, in terms of the texts that are judged. */
module GradedTexts {
  import opened Basics
  import opened Degeneracy
  import opened LoopTexts
  import opened Grading

  // ---------------------------------------------------------------------------
  // The texts that are judged

  ghost predicate Answered(o: Output) {
    !o.standing.Dropped? && !o.standing.Missing? && o.text != ""
  }

  ghost predicate Forced(o: Output) {
    o.ignoreEos && o.standing.Measured? && |o.standing.forced| > 0
  }

  /** A repetition of a completion that the engine was free to end. */
  ghost predicate Sampled(o: Output, text: string) {
    !o.ignoreEos && if o.samples == [] then text == o.text else text in o.samples
  }

  /** The prefix the scorer returned, where the baseline was measured and did not emit it itself. */
  ghost predicate ScoredPrefix(o: Output, text: string) {
    && o.standing.Measured?
    && text == (if o.scored.Some? then o.scored.value else o.text)
    && !(Forced(o) && exists f :: f in o.standing.forced && text <= f)
  }

  ghost predicate Judged(o: Output, text: string) {
    Sampled(o, text) || ScoredPrefix(o, text) || (text == o.text && !Forced(o))
  }

  /** An output that fails by itself: an empty repetition, or a judged text with a poor part. */
  ghost predicate Hopeless(o: Output) {
    Answered(o) && (Sampled(o, "") || exists text :: Judged(o, text) && SomePoor(text))
  }

  ghost predicate Loopy(o: Output) {
    Answered(o) && exists text :: Judged(o, text) && SomeLooping(text)
  }

  ghost predicate Trailing(o: Output) {
    Answered(o) && o.standing.Measured? && !Forced(o) && TrailsBaseline(o.text, o.standing.distinct, o.standing.span)
  }

  ghost function LoopyPrompts(outputs: seq<Output>): set<nat> {
    set o | o in outputs && Loopy(o) :: o.id
  }

  ghost function TrailingPrompts(outputs: seq<Output>): set<nat> {
    set o | o in outputs && Trailing(o) :: o.id
  }

  ghost predicate ReadAsLoops(outputs: seq<Output>) {
    (exists o :: o in outputs && Hopeless(o)) || |LoopyPrompts(outputs)| > 4 || |TrailingPrompts(outputs)| > 4
  }

  // ---------------------------------------------------------------------------
  // One output

  lemma SamplesAre(o: Output, f: Finding)
    ensures f in ChecksBefore(o) <==> exists text :: Sampled(o, text) && SampleFinding(text) == f
  {
    hide FindingOf;
    var texts := Samples(o);
    if f in ChecksBefore(o) {
      var i :| 0 <= i < |texts| && ChecksBefore(o)[i] == f;
      assert Sampled(o, texts[i]);
    }
    if text :| Sampled(o, text) && SampleFinding(text) == f {
      assert text in texts;
      var i :| 0 <= i < |texts| && texts[i] == text;
      assert ChecksBefore(o)[i] == f;
    }
  }

  lemma AfterAre(o: Output, f: Finding)
    requires IsGraded(o) && f != Fine
    ensures f in ChecksAfter(o) <==> exists text :: (ScoredPrefix(o, text) || (text == o.text && !Forced(o))) && FindingOf(text) == f
  {
    hide FindingOf;
    var prefix := PrefixText(o);
    var first := if Excused(o, prefix) then Fine else FindingOf(prefix);
    assert ChecksAfter(o)[0] == first;
    if !ForcedTail(o) {
      assert ChecksAfter(o)[1] == FindingOf(o.text);
    }
    assert f in ChecksAfter(o) <==> first == f || (!ForcedTail(o) && FindingOf(o.text) == f);
    if o.standing.Measured? {
      ExcusedIs(o, prefix);
    }
  }

  lemma ExcusedIs(o: Output, prefix: string)
    requires o.standing.Measured?
    ensures Excused(o, prefix) <==> Forced(o) && exists f :: f in o.standing.forced && prefix <= f
  {
    var forced := o.standing.forced;
    if Excused(o, prefix) {
      var i :| 0 <= i < |forced| && prefix <= forced[i];
      assert forced[i] in forced;
    }
    if Forced(o) && exists f :: f in forced && prefix <= f {
      var f :| f in forced && prefix <= f;
      var i :| 0 <= i < |forced| && forced[i] == f;
      assert prefix <= forced[i];
    }
  }

  lemma EmptyIsFine()
    ensures FindingOf("") == Fine && !SomePoor("") && !SomeLooping("")
  {
    hide Again, FewerApart;
    FindingMeans("");
    forall part | IsPart("", part) ensures |part| == 0 {
    }
  }

  /** What the checks of one output find, in terms of its judged texts. */
  lemma FoundOn(o: Output)
    requires IsGraded(o)
    ensures Answered(o) && (ForcedTail(o) <==> Forced(o))
    ensures Hard in ChecksBefore(o) + ChecksAfter(o) <==> Hopeless(o)
    ensures !Hopeless(o) ==> (Span in ChecksBefore(o) + ChecksAfter(o) <==> Loopy(o))
  {
    hide FindingOf, ChecksBefore, ChecksAfter, Sampled, ScoredPrefix, SomePoor, SomeLooping;
    EmptyIsFine();
    forall text ensures (FindingOf(text) == Hard <==> SomePoor(text)) && (FindingOf(text) == Span <==> !SomePoor(text) && SomeLooping(text)) {
      FindingMeans(text);
    }
    SamplesAre(o, Hard);
    SamplesAre(o, Span);
    AfterAre(o, Hard);
    AfterAre(o, Span);
  }

  lemma TrailingIs(o: Output)
    ensures IsGraded(o) && FailsRelative(o) <==> Trailing(o)
  {
    hide FallsBehind, TrailsBaseline;
    if o.standing.Measured? {
      FallsBehindMeans(o.text, o.standing.distinct, o.standing.span);
    }
  }

  // ---------------------------------------------------------------------------
  // All outputs

  lemma PromptsAre(outputs: seq<Output>)
    ensures SomeHard(outputs) <==> exists o :: o in outputs && Hopeless(o)
    ensures !SomeHard(outputs) ==> SpanPrompts(outputs) == LoopyPrompts(outputs)
    ensures RelativePrompts(outputs) == TrailingPrompts(outputs)
  {
    hide ChecksBefore, ChecksAfter, IsGraded, FailsRelative, Hopeless, Loopy, Trailing;
    forall o: Output ensures IsGraded(o) && FailsRelative(o) <==> Trailing(o) {
      TrailingIs(o);
    }
    forall o: Output
      ensures IsGraded(o) && Hard in ChecksBefore(o) + ChecksAfter(o) <==> Hopeless(o)
      ensures !Hopeless(o) ==> (IsGraded(o) && Span in ChecksBefore(o) + ChecksAfter(o) <==> Loopy(o))
    {
      OnOutput(o);
    }
  }

  lemma OnOutput(o: Output)
    ensures IsGraded(o) && Hard in ChecksBefore(o) + ChecksAfter(o) <==> Hopeless(o)
    ensures !Hopeless(o) ==> (IsGraded(o) && Span in ChecksBefore(o) + ChecksAfter(o) <==> Loopy(o))
  {
    hide ChecksBefore, ChecksAfter, Sampled, Judged;
    if IsGraded(o) {
      FoundOn(o);
    }
  }

  /** Outputs are degenerate exactly when they read as loops: some judged text is empty or poor, or
      more than four prompts have a judged text that repeats a quarter of a part, or more than four
      trail the baseline. */
  lemma DegenerateMeans(outputs: seq<Output>)
    ensures Degenerate(outputs) <==> ReadAsLoops(outputs)
  {
    hide SomeHard, SpanPrompts, RelativePrompts, LoopyPrompts, TrailingPrompts, Hopeless;
    PromptsAre(outputs);
  }

  // ---------------------------------------------------------------------------
  // How grading ends

  /** An output that fails, or loops, by its repetitions alone. */
  ghost predicate HopelessSamples(o: Output) {
    Sampled(o, "") || exists text :: Sampled(o, text) && SomePoor(text)
  }

  ghost predicate LoopySamples(o: Output) {
    exists text :: Sampled(o, text) && SomeLooping(text)
  }

  /** What has been read before the scorer is asked about `o` reads as loops. */
  ghost predicate ReadAsLoopsBefore(outputs: seq<Output>, o: Output) {
    || (exists x :: x in outputs && Hopeless(x)) || HopelessSamples(o)
    || |LoopyPrompts(outputs) + if LoopySamples(o) then {o.id} else {}| > 4
    || |TrailingPrompts(outputs) + if Trailing(o) then {o.id} else {}| > 4
  }

  lemma SamplesFound(o: Output)
    ensures Hard in ChecksBefore(o) <==> HopelessSamples(o)
    ensures !HopelessSamples(o) ==> (Span in ChecksBefore(o) <==> LoopySamples(o))
  {
    hide FindingOf, ChecksBefore, Sampled, SomePoor, SomeLooping;
    EmptyIsFine();
    forall text ensures (FindingOf(text) == Hard <==> SomePoor(text)) && (FindingOf(text) == Span <==> !SomePoor(text) && SomeLooping(text)) {
      FindingMeans(text);
    }
    SamplesAre(o, Hard);
    SamplesAre(o, Span);
  }

  lemma DegenerateBeforeMeans(outputs: seq<Output>, o: Output)
    requires IsGraded(o)
    ensures DegenerateBefore(outputs, o) <==> ReadAsLoopsBefore(outputs, o)
  {
    hide SomeHard, SpanPrompts, RelativePrompts, LoopyPrompts, TrailingPrompts, Hopeless, HopelessSamples, LoopySamples, ChecksBefore,
      Trailing, FailsRelative;
    PromptsAre(outputs);
    SamplesFound(o);
    TrailingIs(o);
  }

  /** Grading cannot go past this output. */
  ghost predicate Blocks(o: Output) {
    o.standing.Missing? || (Answered(o) && o.scored.None?)
  }

  /** The outputs up to the first that blocks, which is `k`. */
  ghost predicate BlockedAt(outputs: seq<Output>, k: nat) {
    k < |outputs| && Blocks(outputs[k]) && forall i :: 0 <= i < k ==> !Blocks(outputs[i])
  }

  /** Grading fails exactly when it is blocked, and by a missing reference or before the texts read as
      loops; otherwise it has gone through the outputs up to the block, and finds them degenerate
      exactly when they read as loops. */
  lemma GradeMeans(outputs: seq<Output>)
    ensures forall k: nat :: BlockedAt(outputs, k) ==>
              GradeOf(outputs) == if outputs[k].standing.Missing? || !ReadAsLoopsBefore(outputs[..k], outputs[k]) then Grade.Aborted(k)
                                  else Graded(true, k)
    ensures (forall i :: 0 <= i < |outputs| ==> !Blocks(outputs[i])) ==> GradeOf(outputs) == Graded(ReadAsLoops(outputs), |outputs|)
  {
    hide Degenerate, DegenerateBefore, ReadAsLoops, ReadAsLoopsBefore;
    DegenerateMeans(outputs);
    forall o: Output ensures Stops(o) <==> Blocks(o) {
    }
    forall k: nat | BlockedAt(outputs, k)
      ensures GradeOf(outputs) == if outputs[k].standing.Missing? || !ReadAsLoopsBefore(outputs[..k], outputs[k]) then Grade.Aborted(k)
                                  else Graded(true, k)
    {
      StopsFirst(outputs, k);
      if !outputs[k].standing.Missing? {
        DegenerateBeforeMeans(outputs[..k], outputs[k]);
      }
    }
  }
}
