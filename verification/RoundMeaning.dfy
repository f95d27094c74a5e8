/** What a round comes to, in terms of its legs, texts and scores: when it is set up, when it returns,
    and which status each candidate gets. */
module RoundMeaning {
  import opened Basics
  import opened Counting
  import TierGroups
  import Grading
  import opened GradedTexts
  import opened RoundRun

  // ---------------------------------------------------------------------------
  // Verdicts

  /** Grading has gone through the first `m` outputs; `loops` says whether they read as loops. */
  ghost predicate GradedUpTo(outputs: seq<Grading.Output>, m: nat, loops: bool) {
    || (m == |outputs| && (forall i :: 0 <= i < |outputs| ==> !Blocks(outputs[i])) && (loops <==> ReadAsLoops(outputs)))
    || (BlockedAt(outputs, m) && !outputs[m].standing.Missing? && ReadAsLoopsBefore(outputs[..m], outputs[m]) && loops)
  }

  ghost predicate BelowBar(s: Scores, t: Thresholds, reference: Option<real>) {
    s.positions > 0
    && (s.mean < t.minMean || s.low < t.minToken
        || (t.maxDrop.Some? && reference.Some? && s.mean + t.maxDrop.value < reference.value))
  }

  /** Some output came back empty. */
  ghost predicate SomethingEmpty(outputs: seq<Grading.Output>, m: nat) {
    exists i :: 0 <= i < m && i < |outputs| && outputs[i].text == "" && !outputs[i].standing.Dropped?
  }

  /** The outputs are wrong: one is empty, or they read as loops, or they score below a bar. */
  ghost predicate Wrong(outputs: seq<Grading.Output>, s: Scores, t: Thresholds, reference: Option<real>) {
    exists m, loops :: GradedUpTo(outputs, m, loops) && (SomethingEmpty(outputs, m) || loops || BelowBar(s, t, reference))
  }

  /** Nothing can be said: grading was blocked before the texts read as loops, or, of outputs that are
      not wrong, too little was scored. */
  ghost predicate Unclear(outputs: seq<Grading.Output>, s: Scores, t: Thresholds, reference: Option<real>) {
    || !(exists m, loops :: GradedUpTo(outputs, m, loops))
    || (!Wrong(outputs, s, t, reference) && (s.positions == 0 || s.coverage < t.minCoverage))
  }

  lemma GradedOnce(outputs: seq<Grading.Output>, m: nat, loops: bool, m': nat, loops': bool)
    requires GradedUpTo(outputs, m, loops) && GradedUpTo(outputs, m', loops')
    ensures m == m' && loops == loops'
  {
    hide ReadAsLoops, ReadAsLoopsBefore, Blocks;
  }

  lemma GradeIs(outputs: seq<Grading.Output>)
    ensures Grading.GradeOf(outputs).Graded? ==> GradedUpTo(outputs, Grading.GradeOf(outputs).upTo, Grading.GradeOf(outputs).degenerate)
    ensures Grading.GradeOf(outputs).Aborted? ==> forall m, loops :: !GradedUpTo(outputs, m, loops)
  {
    hide Grading.GradeOf, ReadAsLoops, ReadAsLoopsBefore, Blocks;
    GradeMeans(outputs);
    if !(forall i :: 0 <= i < |outputs| ==> !Blocks(outputs[i])) {
      var k := FirstBlock(outputs, 0);
    }
  }

  lemma FirstBlock(outputs: seq<Grading.Output>, from: nat) returns (k: nat)
    requires exists i :: from <= i < |outputs| && Blocks(outputs[i])
    requires forall i :: 0 <= i < from && i < |outputs| ==> !Blocks(outputs[i])
    ensures BlockedAt(outputs, k)
    decreases |outputs| - from
  {
    hide Blocks;
    if Blocks(outputs[from]) {
      k := from;
    } else {
      k := FirstBlock(outputs, from + 1);
    }
  }

  /** Grading one subject: a failure means wrong outputs, no verdict means nothing can be said, and a
      pass comes with the mean the scorer read. */
  lemma VerdictMeans(w: World, subject: Option<nat>, excluded: set<nat>, reference: Option<real>)
    ensures var r, outputs, s := Grade(w, subject, excluded, reference), w.outputs(subject, excluded), w.scores(subject, excluded);
            && (r.verdict == FailCorrectness <==> Wrong(outputs, s, w.thresholds, reference))
            && (r.verdict == GradeFailed <==> Unclear(outputs, s, w.thresholds, reference))
            && (r.verdict == Pass ==> r.mean == s.mean)
  {
    hide Grading.GradeOf, GradedUpTo;
    var outputs, s := w.outputs(subject, excluded), w.scores(subject, excluded);
    GradeIs(outputs);
    var g := Grading.GradeOf(outputs);
    if g.Graded? {
      forall m, loops | GradedUpTo(outputs, m, loops) ensures m == g.upTo && loops == g.degenerate {
        GradedOnce(outputs, m, loops, g.upTo, g.degenerate);
      }
      assert Grading.SomeEmpty(outputs[..g.upTo]) <==> SomethingEmpty(outputs, g.upTo);
    }
  }

  ghost predicate Passes(outputs: seq<Grading.Output>, s: Scores, t: Thresholds, reference: Option<real>) {
    !Wrong(outputs, s, t, reference) && !Unclear(outputs, s, t, reference)
  }

  /** What candidates are measured against where the baseline counts: the mean it was scored with. */
  ghost function BaselineMean(w: World, excluded: set<nat>): Option<real> {
    if w.thresholds.maxDrop.Some? || w.concurrent then Some(w.scores(None, excluded).mean) else None
  }

  // ---------------------------------------------------------------------------
  // Legs

  /** A leader that comes before candidate `i` has not replayed. */
  ghost predicate LeaderFailedBefore(w: World, s: Setup, i: nat) {
    w.leader.Some? && w.leader.value < i && w.leader.value < w.candidates && !w.leg(w.leader.value, s.requests).Replayed?
  }

  ghost predicate TookPart(w: World, s: Setup, i: nat) {
    !LeaderFailedBefore(w, s, i) && w.leg(i, s.requests).Replayed?
  }

  /** A round with candidates set up returns exactly when, in a concurrent one, every replay can be
      charged, and whatever needs grading meets a working scorer and, where the baseline counts, a
      baseline whose own outputs pass. */
  lemma ReturnsWhen(w: World, s: Setup)
    ensures Completes(w, s) <==>
            && (w.concurrent ==> forall i: nat :: i < w.candidates && TookPart(w, s, i) ==> w.leg(i, s.requests).chargeable)
            && (w.all && (exists i: nat :: i < w.candidates && TookPart(w, s, i)) ==>
                  && w.scorerWorks
                  && (w.thresholds.maxDrop.Some? || w.concurrent ==>
                        Passes(w.outputs(None, s.excluded), w.scores(None, s.excluded), w.thresholds, None)))
  {
    hide Grade, Wrong, Unclear, Whole, NeedsScorer, TookPart;
    VerdictMeans(w, None, s.excluded, None);
    WholeMeans(w, s);
    assert BaselinePasses(w, s.excluded) <==>
           Passes(w.outputs(None, s.excluded), w.scores(None, s.excluded), w.thresholds, None);
  }

  lemma WholeMeans(w: World, s: Setup)
    ensures Whole(w, s) <==> (w.concurrent ==> forall i: nat :: i < w.candidates && TookPart(w, s, i) ==> w.leg(i, s.requests).chargeable)
    ensures NeedsScorer(w, s) <==> exists i: nat :: i < w.candidates && TookPart(w, s, i)
  {
    forall i: nat ensures Replays(w, s, i) <==> TookPart(w, s, i) {
    }
    hide Replays, TookPart;
    if i: nat :| i < w.candidates && TookPart(w, s, i) {
      assert Replays(w, s, i);
    }
    forall i: nat | Whole(w, s) && w.concurrent && i < w.candidates && TookPart(w, s, i) ensures w.leg(i, s.requests).chargeable {
      assert !Breaks(w, s, i);
    }
  }

  /** Which status a candidate of a returned round gets: what failed before or in its leg; then, in
      mode "all", what grading says of its outputs; then whether the measurement was stable. */
  lemma StatusMeans(w: World, s: Setup, i: nat)
    requires Completes(w, s) && i < w.candidates
    ensures EntryOf(w, s, i).index == i
    ensures LeaderFailedBefore(w, s, i) ==> EntryOf(w, s, i).status == InfraFailed
    ensures !LeaderFailedBefore(w, s, i) && w.leg(i, s.requests).Crashed? ==> EntryOf(w, s, i).status == Disqualified
    ensures !LeaderFailedBefore(w, s, i) && w.leg(i, s.requests).LegFailed? ==> EntryOf(w, s, i).status == InfraFailed
    ensures var outputs, scores, mean := w.outputs(Some(i), s.excluded), w.scores(Some(i), s.excluded), BaselineMean(w, s.excluded);
            TookPart(w, s, i) ==>
              && (w.all && Wrong(outputs, scores, w.thresholds, mean) ==> EntryOf(w, s, i).status == Disqualified)
              && (w.all && Unclear(outputs, scores, w.thresholds, mean) ==> EntryOf(w, s, i).status == InfraFailed)
              && (!w.all || Passes(outputs, scores, w.thresholds, mean) ==>
                    EntryOf(w, s, i).status == if w.leg(i, s.requests).unstable then InfraFailed else Scored)
  {
    hide Grade, Wrong, Unclear, Whole;
    VerdictMeans(w, Some(i), s.excluded, ReferenceMean(w, s.excluded));
    VerdictMeans(w, None, s.excluded, None);
    if TookPart(w, s, i) {
      assert Replays(w, s, i);
    }
  }

  // ---------------------------------------------------------------------------
  // Setting up

  /** The unusable prompts among those of the trace. */
  ghost function UnusableOf(w: World, leg: Reference): set<nat>
    requires leg.Referenced?
  {
    set r | r in w.trace && r.id in leg.unusable :: r.id
  }

  /** Everything the two baselines leave out. */
  ghost function LeftOut(w: World): set<nat>
    requires w.baseline(w.trace).Referenced? && w.drift(w.trace).Referenced?
    requires w.all ==> w.stops(UnusableOf(w, w.baseline(w.trace))).Some?
  {
    var first := UnusableOf(w, w.baseline(w.trace));
    first + (if w.all then w.stops(first).value * w.prompts else {}) + UnusableOf(w, w.drift(w.trace))
  }

  ghost predicate BaselinesAnswer(w: World) {
    && w.baseline(w.trace).Referenced? && w.drift(w.trace).Referenced?
    && (w.all ==> w.stops(UnusableOf(w, w.baseline(w.trace))).Some?)
  }

  lemma UnusableIs(w: World, leg: Reference)
    requires leg.Referenced?
    ensures leg.unusable * Ids(w.trace) == UnusableOf(w, leg)
  {
  }

  /** A round is set up exactly when both baselines answer and everything they leave out together is
      within the limit and leaves something to replay and to grade; the checks in between never decide.
      A concurrent round also needs every tier among the retained requests and steady baselines. */
  lemma SetUpWhen(w: World)
    ensures SetupOf(w).Some? <==>
            && BaselinesAnswer(w)
            && var out := LeftOut(w);
               && |out| <= w.maxDrops
               && (w.trace != [] ==> exists r :: r in w.trace && r.id !in out)
               && (w.all ==> exists p :: p in w.prompts && p !in out)
               && (w.concurrent ==> TierGroups.Eligible(Retained(w.trace, out), w.tiers) && !w.unstable(out))
    ensures SetupOf(w).Some? ==>
              SetupOf(w) == Some(Setup(LeftOut(w), if w.concurrent then Retained(w.trace, LeftOut(w)) else w.trace))
  {
    hide Drop, UnusableOf, TierGroups.Eligible, Retained, Ids;
    if BaselinesAnswer(w) {
      var a, c := UnusableOf(w, w.baseline(w.trace)), UnusableOf(w, w.drift(w.trace));
      var b := if w.all then a + w.stops(a).value * w.prompts else a;
      UnusableIs(w, w.baseline(w.trace));
      UnusableIs(w, w.drift(w.trace));
      DropMeans(w, a, {});
      DropMeans(w, c, b);
      assert {} + a == a && LeftOut(w) == b + c;
      WithinLimit(w, a, b);
      WithinLimit(w, b, b + c);
      SubsetOrNot(w.prompts, b);
      SubsetOrNot(w.prompts, b + c);
    } else {
      NoAnswer(w);
    }
  }

  ghost predicate LeavesSome(w: World, out: set<nat>) {
    w.trace != [] ==> exists r :: r in w.trace && r.id !in out
  }

  lemma DropMeans(w: World, unusable: set<nat>, excluded: set<nat>)
    ensures Drop(w, unusable, excluded) ==
            if |excluded + unusable| <= w.maxDrops && LeavesSome(w, excluded + unusable) then Some(excluded + unusable) else None
  {
    var out := excluded + unusable;
    if w.trace != [] && !(Ids(w.trace) <= out) {
      var id :| id in Ids(w.trace) && id !in out;
    }
  }

  /** What holds of more prompts left out holds of fewer. */
  lemma WithinLimit(w: World, a: set<nat>, b: set<nat>)
    requires a <= b
    ensures |a| <= |b| && (LeavesSome(w, b) ==> LeavesSome(w, a))
    ensures w.prompts <= a ==> w.prompts <= b
  {
    SubsetSize(a, b);
  }

  lemma SubsetOrNot(a: set<nat>, b: set<nat>)
    ensures !(a <= b) <==> exists p :: p in a && p !in b
  {
  }

  lemma NoAnswer(w: World)
    requires !BaselinesAnswer(w)
    ensures SetupOf(w).None?
  {
    hide Drop, TierGroups.Eligible, Retained;
    if w.baseline(w.trace).Referenced? {
      var a := UnusableOf(w, w.baseline(w.trace));
      UnusableIs(w, w.baseline(w.trace));
      DropMeans(w, a, {});
      assert {} + a == a;
    }
  }

  // ---------------------------------------------------------------------------
  // What is streamed

  lemma {:induction false} VerdictLogged(w: World, s: Setup, i: nat, m: nat)
    requires i < m && Replays(w, s, i) && VerdictOf(w, s.excluded, i) != Pass
    ensures NotedVerdict(i, EntryOf(w, s, i).status) in VerdictLog(w, s, m)
  {
    hide Replays, VerdictOf, EntryOf;
    if i < m - 1 {
      VerdictLogged(w, s, i, m - 1);
    }
  }

  /** A replayed candidate of a returned round in mode "all" is streamed as disqualified exactly when its
      outputs are wrong, and as infra-failed exactly when nothing can be said of them. */
  lemma VerdictsAreStreamed(w: World, s: Setup, i: nat)
    requires Completes(w, s) && w.all && i < w.candidates && TookPart(w, s, i)
    ensures var outputs, scores, mean := w.outputs(Some(i), s.excluded), w.scores(Some(i), s.excluded), BaselineMean(w, s.excluded);
            && (NotedVerdict(i, Disqualified) in RoundLog(w, s) <==> Wrong(outputs, scores, w.thresholds, mean))
            && (NotedVerdict(i, InfraFailed) in RoundLog(w, s) <==> Unclear(outputs, scores, w.thresholds, mean))
            && NotedVerdict(i, Scored) !in RoundLog(w, s)
  {
    hide Grade, Wrong, Unclear, VerdictLog, TurnsLog, RoundLog;
    StatusMeans(w, s, i);
    VerdictMeans(w, Some(i), s.excluded, ReferenceMean(w, s.excluded));
    VerdictMeans(w, None, s.excluded, None);
    assert Replays(w, s, i);
    VerdictsInLog(w, s);
    if VerdictOf(w, s.excluded, i) != Pass {
      VerdictLogged(w, s, i, w.candidates);
    }
    forall status | NotedVerdict(i, status) in RoundLog(w, s)
      ensures VerdictOf(w, s.excluded, i) != Pass && status == EntryOf(w, s, i).status
    {
      LogExplained(w, s, NotedVerdict(i, status));
    }
  }

  lemma VerdictsInLog(w: World, s: Setup)
    requires Completes(w, s) && w.all && NeedsScorer(w, s)
    ensures forall e :: e in VerdictLog(w, s, w.candidates) ==> e in RoundLog(w, s)
  {
    hide TurnsLog, VerdictLog, BaselinePasses, Whole;
  }

  /** The indices of what is noted rise, so nothing is noted twice. */
  ghost predicate NotesRise(log: seq<Event>) {
    && (forall j, k :: 0 <= j < k < |log| && log[j].Noted? && log[k].Noted? ==> log[j].index < log[k].index)
    && (forall j, k :: 0 <= j < k < |log| && log[j].NotedVerdict? && log[k].NotedVerdict? ==> log[j].index < log[k].index)
  }

  ghost predicate NotedBelow(log: seq<Event>, m: nat) {
    forall k :: 0 <= k < |log| && !log[k].Started? ==> log[k].index < m
  }

  lemma RiseOn(a: seq<Event>, b: seq<Event>, m: nat)
    requires NotesRise(a) && NotesRise(b) && NotedBelow(a, m)
    requires forall k :: 0 <= k < |b| && !b[k].Started? ==> b[k].index == m
    ensures NotesRise(a + b) && NotedBelow(a + b, m + 1)
  {
  }

  lemma {:induction false} TurnsRise(w: World, s: Setup, m: nat)
    ensures NotesRise(TurnsLog(w, s, m)) && NotedBelow(TurnsLog(w, s, m), m)
    ensures forall e :: e in TurnsLog(w, s, m) ==> !e.NotedVerdict?
  {
    hide Skipped, NotesRise;
    if m > 0 {
      TurnsRise(w, s, m - 1);
      TurnRises(w, s, m - 1);
      RiseOn(TurnsLog(w, s, m - 1), TurnLog(w, s, m - 1), m - 1);
    } else {
      StartsRise(TurnsLog(w, s, 0));
    }
  }

  lemma StartsRise(log: seq<Event>)
    requires forall k :: 0 <= k < |log| ==> log[k].Started?
    ensures NotesRise(log)
  {
  }

  lemma TurnRises(w: World, s: Setup, i: nat)
    ensures NotesRise(TurnLog(w, s, i)) && forall k :: 0 <= k < |TurnLog(w, s, i)| && !TurnLog(w, s, i)[k].Started? ==> TurnLog(w, s, i)[k].index == i
    ensures forall e :: e in TurnLog(w, s, i) ==> !e.NotedVerdict?
  {
  }

  lemma {:induction false} VerdictsRise(w: World, s: Setup, m: nat)
    ensures NotesRise(VerdictLog(w, s, m)) && NotedBelow(VerdictLog(w, s, m), m)
    ensures forall e :: e in VerdictLog(w, s, m) ==> e.NotedVerdict?
  {
    hide Replays, VerdictOf, EntryOf, NotesRise;
    if m > 0 {
      VerdictsRise(w, s, m - 1);
      var last := if Replays(w, s, m - 1) && VerdictOf(w, s.excluded, m - 1) != Pass then [NotedVerdict(m - 1, EntryOf(w, s, m - 1).status)] else [];
      OneNote(last);
      RiseOn(VerdictLog(w, s, m - 1), last, m - 1);
    } else {
      OneNote([]);
    }
  }

  lemma OneNote(log: seq<Event>)
    requires |log| <= 1
    ensures NotesRise(log)
  {
  }

  /** Turns first, verdicts last. */
  lemma RiseApart(a: seq<Event>, b: seq<Event>, c: seq<Event>)
    requires NotesRise(a) && NotesRise(c) && (forall e :: e in a ==> !e.NotedVerdict?) && (forall e :: e in c ==> e.NotedVerdict?)
    requires forall e :: e in b ==> e.Started?
    ensures NotesRise(a + b + c)
  {
    var log, n := a + b + c, |a| + |b|;
    forall k | 0 <= k < |log|
      ensures log[k].Noted? ==> k < |a| && log[k] == a[k]
      ensures log[k].NotedVerdict? ==> n <= k && log[k] == c[k - n]
    {
      if k < |a| {
        assert a[k] in a;
      } else if k < n {
        assert b[k - |a|] in b;
      } else {
        assert c[k - n] in c;
      }
    }
  }

  /** No candidate's leg, and no candidate's verdict, is streamed twice, and both go by index. */
  lemma NotedOnce(w: World, s: Setup)
    ensures NotesRise(RoundLog(w, s))
  {
    hide TurnsLog, VerdictLog, NotesRise, NeedsScorer, BaselineHolds, Whole, Turns;
    var m := if Whole(w, s) then w.candidates else Turns(w, s, 0);
    TurnsRise(w, s, m);
    VerdictsRise(w, s, w.candidates);
    OneNote([]);
    var turns, start, verdicts := TurnsLog(w, s, m), [Started(Scorer, [])], VerdictLog(w, s, w.candidates);
    RiseApart(turns, start, verdicts);
    RiseApart(turns, start, []);
    assert turns + (start + verdicts) == turns + start + verdicts && turns + (start + []) == turns + start + [] && turns + [] == turns;
  }
}
