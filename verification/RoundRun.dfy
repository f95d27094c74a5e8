/** Running a round: the planned engine starts are consumed in order. The two baseline starts decide
    which prompts are left out, candidates fail or replay what remains, everything that replayed is
    graded by one scorer against the baseline, and the entries of the round are built. The properties
    hold for every pattern of failures. */
module RoundRun {
  import opened Basics
  import opened TierGroups
  import Grading
  import Degeneracy

  datatype Kind = Baseline | Drift | Candidate(index: nat) | Scorer

  /** How a candidate's engine leg ends. A replay may still turn out to have incomplete tier
      evidence, which aborts the round. */
  datatype Leg = Replayed(unstable: bool, chargeable: bool) | Crashed | LegFailed

  /** How a baseline leg ends: with an engine error, or with the prompts whose outputs were unusable. */
  datatype Reference = ReferenceFailed | Referenced(unusable: set<nat>)

  /** Token log-probabilities of one engine's outputs, as far as the scorer read them. */
  datatype Scores = Scores(positions: nat, mean: real, low: real, coverage: real)

  /** What one engine's outputs are judged by. */
  datatype Evidence = Evidence(empty: bool, positions: nat, mean: real, low: real, degenerate: bool, coverage: real)

  datatype Verdict = Pass | FailCorrectness | GradeFailed

  datatype Report = Report(verdict: Verdict, mean: real)

  datatype Status = Scored | Disqualified | InfraFailed

  datatype Run = Run(index: nat, status: Status, unstable: bool)

  datatype Entry = Entry(index: nat, status: Status)

  /** What the round does that others can see. */
  datatype Event =
    | Started(kind: Kind, requests: seq<Request>)
    | Noted(index: nat, status: Status)         // a leg's outcome, streamed as the leg ends
    | NotedVerdict(index: nat, status: Status)  // a correctness verdict, streamed after grading

  datatype Thresholds = Thresholds(minMean: real, minToken: real, maxDrop: Option<real>, minCoverage: real)

  /** The request, and how engines and scorer answer what they are asked. */
  datatype World = World(
    all: bool, concurrent: bool, leader: Option<nat>, candidates: nat, thresholds: Thresholds,
    trace: seq<Request>, prompts: set<nat>, tiers: nat, maxDrops: nat,
    baseline: seq<Request> -> Reference, drift: seq<Request> -> Reference,
    stops: set<nat> -> Option<set<nat>>,        // prompts to drop for their natural stops, given those dropped
    unstable: set<nat> -> bool,                 // whether the baselines' tier times vary too much
    leg: (nat, seq<Request>) -> Leg,
    scorerWorks: bool,
    outputs: (Option<nat>, set<nat>) -> seq<Grading.Output>,  // the baseline's or a candidate's outputs
    scores: (Option<nat>, set<nat>) -> Scores)                // and what the scorer reads in them
  {
    /** The relative bar and concurrent replay both need the baseline graded. */
    predicate NeedsBaseline() {
      thresholds.maxDrop.Some? || concurrent
    }
  }

  datatype Outcome = Aborted(kind: Kind) | Returned(entries: seq<Entry>)

  /** The prompts left out and the requests candidates replay. */
  datatype Setup = Setup(excluded: set<nat>, requests: seq<Request>)

  // ---------------------------------------------------------------------------
  // The plan

  /** Every engine start of the round in order. */
  function Plan(candidates: nat, all: bool): (r: seq<Kind>)
    ensures forall k :: 0 <= k < |r| ==> Position(candidates, r[k]) == k
    ensures forall kind: Kind :: kind in r <==> (kind.Candidate? ==> kind.index < candidates) && (kind.Scorer? ==> all)
  {
    var r := [Baseline, Drift] + seq(candidates, i requires 0 <= i < candidates => Candidate(i)) + if all then [Scorer] else [];
    assert forall i :: 0 <= i < candidates ==> r[i + 2] == Candidate(i);
    assert r[0] == Baseline && r[1] == Drift && (all ==> r[candidates + 2] == Scorer);
    r
  }

  /** The baselines come first, then the candidates by index, then the scorer. */
  function Position(candidates: nat, kind: Kind): nat {
    match kind
    case Baseline => 0
    case Drift => 1
    case Candidate(i) => i + 2
    case Scorer => candidates + 2
  }

  // ---------------------------------------------------------------------------
  // Prompts left out

  function Ids(requests: seq<Request>): set<nat> {
    set r | r in requests :: r.id
  }

  /** The requests that are not left out, in order. */
  function Retained(requests: seq<Request>, excluded: set<nat>): (r: seq<Request>)
    ensures forall x :: x in r <==> x in requests && x.id !in excluded
  {
    if requests == [] then []
    else (if requests[0].id in excluded then [] else [requests[0]]) + Retained(requests[1..], excluded)
  }

  lemma {:induction false} RetainedConcat(a: seq<Request>, b: seq<Request>, excluded: set<nat>)
    ensures Retained(a + b, excluded) == Retained(a, excluded) + Retained(b, excluded)
  {
    hide Retained;
    if a == [] {
      assert a + b == b;
      RetainedNone(excluded);
    } else {
      RetainedConcat(a[1..], b, excluded);
      assert (a + b)[1..] == a[1..] + b && (a + b)[0] == a[0];
      RetainedFirst(a, excluded);
      RetainedFirst(a + b, excluded);
    }
  }

  lemma RetainedFirst(a: seq<Request>, excluded: set<nat>)
    requires a != []
    ensures Retained(a, excluded) == (if a[0].id in excluded then [] else [a[0]]) + Retained(a[1..], excluded)
  {
  }

  lemma RetainedNone(excluded: set<nat>)
    ensures Retained([], excluded) == []
  {
  }

  /** Each request is kept or left out by itself, in its place. */
  lemma RetainedInOrder(a: seq<Request>, r: Request, b: seq<Request>, excluded: set<nat>)
    ensures Retained(a + [r] + b, excluded)
            == Retained(a, excluded) + (if r.id in excluded then [] else [r]) + Retained(b, excluded)
  {
    hide Retained;
    RetainedConcat(a + [r], b, excluded);
    RetainedConcat(a, [r], excluded);
    RetainedOne(r, excluded);
  }

  lemma RetainedOne(r: Request, excluded: set<nat>)
    ensures Retained([r], excluded) == if r.id in excluded then [] else [r]
  {
  }

  /** Add the unusable prompts of a baseline replay; too many, or all of them, are an error. */
  function Drop(w: World, unusable: set<nat>, excluded: set<nat>): Option<set<nat>> {
    var dropped := excluded + unusable;
    if |dropped| > w.maxDrops || (w.trace != [] && Ids(w.trace) <= dropped) then None else Some(dropped)
  }

  /** What the first baseline leaves out: unusable outputs, then unusable natural stops. */
  function AfterBaseline(w: World): Option<set<nat>> {
    var leg := w.baseline(w.trace);
    if leg.ReferenceFailed? then None
    else
      var dropped := Drop(w, leg.unusable * Ids(w.trace), {});
      if dropped.None? || !w.all then dropped
      else
        var stops := w.stops(dropped.value);
        if stops.None? then None
        else
          var all := dropped.value + stops.value * w.prompts;
          if |all| > w.maxDrops then None
          else if w.prompts <= all then None
          else Some(all)
  }

  /** What candidates are run with, once the second baseline has been run. */
  ghost function AfterDrift(w: World, excluded: set<nat>): Option<Setup> {
    var leg := w.drift(w.trace);
    if leg.ReferenceFailed? then None
    else
      var dropped := Drop(w, leg.unusable * Ids(w.trace), excluded);
      if dropped.None? || (w.all && w.prompts <= dropped.value) then None
      else if !w.concurrent then Some(Setup(dropped.value, w.trace))
      else
        var requests := Retained(w.trace, dropped.value);
        if !Eligible(requests, w.tiers) || w.unstable(dropped.value) then None else Some(Setup(dropped.value, requests))
  }

  /** The second baseline. */
  method RunDrift(w: World, excluded: set<nat>) returns (r: Option<Setup>)
    ensures r == AfterDrift(w, excluded)
  {
    var leg := w.drift(w.trace);
    if leg.ReferenceFailed? {
      return None;
    }
    var dropped := Drop(w, leg.unusable * Ids(w.trace), excluded);
    if dropped.None? || (w.all && w.prompts <= dropped.value) {
      return None;
    }
    if w.concurrent {
      var requests := Retained(w.trace, dropped.value);
      var ok := CheckTiers(requests, w.tiers);
      if !ok || w.unstable(dropped.value) {
        return None;
      }
      return Some(Setup(dropped.value, requests));
    }
    return Some(Setup(dropped.value, w.trace));
  }

  lemma DropOnlyGrows(w: World, unusable: set<nat>, excluded: set<nat>)
    ensures var d := Drop(w, unusable, excluded);
            d.Some? ==> excluded <= d.value && |d.value| <= w.maxDrops && (w.trace != [] ==> exists r :: r in w.trace && r.id !in d.value)
  {
    var d := Drop(w, unusable, excluded);
    if d.Some? && w.trace != [] {
      var id :| id in Ids(w.trace) && id !in d.value;
      var r :| r in w.trace && r.id == id;
    }
  }

  /** However many prompts are left out, the limit holds and something is left to replay; what the
      first baseline left out stays out. */
  lemma SetupIsBounded(w: World, excluded: set<nat>)
    requires AfterBaseline(w) == Some(excluded) && AfterDrift(w, excluded).Some?
    ensures var s := AfterDrift(w, excluded).value;
            && excluded <= s.excluded && |s.excluded| <= w.maxDrops
            && s.requests == (if w.concurrent then Retained(w.trace, s.excluded) else w.trace)
            && (w.concurrent ==> Eligible(s.requests, w.tiers))
            && (w.trace != [] ==> exists r :: r in s.requests && r.id !in s.excluded)
  {
    hide Drop, Eligible;
    DropOnlyGrows(w, w.drift(w.trace).unusable * Ids(w.trace), excluded);
  }

  // ---------------------------------------------------------------------------
  // Verdicts

  /** The verdict on what the scorer found, given the baseline's mean if there is one. */
  function Judge(t: Thresholds, e: Evidence, reference: Option<real>): Verdict {
    if e.empty then FailCorrectness
    else if e.positions == 0 then (if e.degenerate then FailCorrectness else GradeFailed)
    else if e.mean < t.minMean || e.low < t.minToken || e.degenerate then FailCorrectness
    else if t.maxDrop.Some? && reference.Some? && e.mean < reference.value - t.maxDrop.value then FailCorrectness
    else if e.coverage < t.minCoverage then GradeFailed
    else Pass
  }

  /** What a subject's outputs come to: the text checks of the grading loop and the scorer's numbers,
      or nothing when grading fails. */
  ghost function EvidenceOf(w: World, subject: Option<nat>, excluded: set<nat>): Option<Evidence> {
    var outputs, s := w.outputs(subject, excluded), w.scores(subject, excluded);
    match Grading.GradeOf(outputs)
    case Aborted(_) => None
    case Graded(degenerate, upTo) =>
      Some(Evidence(Grading.SomeEmpty(outputs[..upTo]), s.positions, s.mean, s.low, degenerate, s.coverage))
  }

  ghost function Grade(w: World, subject: Option<nat>, excluded: set<nat>, reference: Option<real>): Report {
    var e := EvidenceOf(w, subject, excluded);
    if e.None? then Report(GradeFailed, 0.0) else ReportOn(w.thresholds, e.value, reference)
  }

  function ReportOn(t: Thresholds, e: Evidence, reference: Option<real>): Report {
    Report(Judge(t, e, reference), if e.empty || e.positions == 0 then 0.0 else e.mean)
  }

  /** Grade one subject's outputs; a scorer failure is the subject's own outcome. */
  method GradeSubject(w: World, subject: Option<nat>, excluded: set<nat>, reference: Option<real>) returns (r: Report)
    ensures r == Grade(w, subject, excluded, reference)
  {
    hide Grading.GradeOf;
    var outputs := w.outputs(subject, excluded);
    var g := Grading.GradeOutputs(outputs);
    if g.Aborted? {
      return Report(GradeFailed, 0.0);
    }
    var s := w.scores(subject, excluded);
    var e := Evidence(Grading.SomeEmpty(outputs[..g.upTo]), s.positions, s.mean, s.low, g.degenerate, s.coverage);
    return ReportOn(w.thresholds, e, reference);
  }

  /** The baseline's mean, when it is graded and passes. */
  ghost function ReferenceMean(w: World, excluded: set<nat>): Option<real> {
    if !w.NeedsBaseline() then None
    else
      var report := Grade(w, None, excluded, None);
      if report.verdict == Pass then Some(report.mean) else None
  }

  ghost function VerdictOf(w: World, excluded: set<nat>, i: nat): Verdict {
    Grade(w, Some(i), excluded, ReferenceMean(w, excluded)).verdict
  }

  /** Whether the baseline's own outputs pass. */
  ghost predicate BaselinePasses(w: World, excluded: set<nat>) {
    Grade(w, None, excluded, None).verdict == Pass
  }

  function BaselineFirst(pending: seq<Option<nat>>): (r: seq<Option<nat>>)
    ensures multiset(r) == multiset(pending)
    ensures |r| == |pending| && forall j, k :: 0 <= j < k < |r| && r[k].None? ==> r[j].None?
  {
    if pending == [] then []
    else
      var last := pending[|pending| - 1];
      var rest := BaselineFirst(pending[..|pending| - 1]);
      assert pending == pending[..|pending| - 1] + [last];
      if last.None? then [last] + rest else rest + [last]
  }

  lemma SameSubjects(pending: seq<Option<nat>>, ordered: seq<Option<nat>>)
    requires multiset(pending) == multiset(ordered)
    ensures forall p :: p in pending <==> p in ordered
  {
    forall p ensures p in pending <==> p in ordered {
      assert p in multiset(pending) <==> p in multiset(ordered);
    }
  }

  /** When a candidate's turn comes, the baseline has had its own. */
  lemma BaselineAhead(ordered: seq<Option<nat>>, k: nat)
    requires None in ordered && k < |ordered| && ordered[k].Some?
    requires forall i, j :: 0 <= i < j < |ordered| && ordered[j].None? ==> ordered[i].None?
    ensures None in ordered[..k]
  {
    var j :| 0 <= j < |ordered| && ordered[j] == None;
    assert ordered[..k][j] == None;
  }

  /** Grade everything queued, the baseline first: every candidate is judged against its mean. */
  method GradeAll(w: World, pending: seq<Option<nat>>, excluded: set<nat>) returns (reports: map<Option<nat>, Report>)
    requires None in pending <==> w.NeedsBaseline()
    ensures reports.Keys == set p | p in pending
    ensures None in reports ==> reports[None] == Grade(w, None, excluded, None)
    ensures forall i :: Some(i) in reports ==> reports[Some(i)] == Grade(w, Some(i), excluded, ReferenceMean(w, excluded))
  {
    hide Grade, BaselineFirst;
    reports := map[];
    var mean := None;
    var ordered := BaselineFirst(pending);
    SameSubjects(pending, ordered);
    for k := 0 to |ordered|
      invariant reports.Keys == set p | p in ordered[..k]
      invariant mean == if None in reports then ReferenceMean(w, excluded) else None
      invariant None in reports ==> reports[None] == Grade(w, None, excluded, None)
      invariant forall i :: Some(i) in reports ==>
                  reports[Some(i)] == Grade(w, Some(i), excluded, ReferenceMean(w, excluded))
    {
      var item := ordered[k];
      assert ordered[..k + 1] == ordered[..k] + [item];
      if item.Some? {
        if w.NeedsBaseline() {
          BaselineAhead(ordered, k);
        }
        assert mean == ReferenceMean(w, excluded);
      }
      var report := GradeSubject(w, item, excluded, if item.None? then None else mean);
      if item.None? && report.verdict == Pass {
        mean := Some(report.mean);
      }
      reports := reports[item := report];
    }
    assert ordered[..|ordered|] == ordered;
  }

  // ---------------------------------------------------------------------------
  // Candidates

  /** The leader's leg failed before candidate `i` came up. */
  predicate Skipped(w: World, s: Setup, i: nat) {
    w.leader.Some? && w.leader.value < i && w.leader.value < w.candidates && !w.leg(w.leader.value, s.requests).Replayed?
  }

  predicate Replays(w: World, s: Setup, i: nat) {
    !Skipped(w, s, i) && w.leg(i, s.requests).Replayed?
  }

  ghost function RunOf(w: World, s: Setup, i: nat): Run {
    if Skipped(w, s, i) then Run(i, InfraFailed, false)
    else match w.leg(i, s.requests)
      case Replayed(unstable, _) => Run(i, Scored, unstable)
      case Crashed => Run(i, Disqualified, false)
      case LegFailed => Run(i, InfraFailed, false)
  }

  /** Whether anything was replayed that needs grading. */
  ghost predicate NeedsScorer(w: World, s: Setup) {
    exists i :: 0 <= i < w.candidates && Replays(w, s, i)
  }

  ghost function EntryOf(w: World, s: Setup, i: nat): Entry {
    if !Replays(w, s, i) then Entry(i, RunOf(w, s, i).status)
    else if w.all && VerdictOf(w, s.excluded, i) != Pass then
      Entry(i, if VerdictOf(w, s.excluded, i) == GradeFailed then InfraFailed else Disqualified)
    else if w.leg(i, s.requests).unstable then Entry(i, InfraFailed)
    else Entry(i, Scored)
  }

  // ---------------------------------------------------------------------------
  // What is logged

  /** One candidate's turn: skipped, or started and, if its leg fails, streamed with the status of its
      entry, except that a crashed leader is streamed as infra-failed. */
  ghost function TurnLog(w: World, s: Setup, i: nat): seq<Event> {
    if Skipped(w, s, i) then [Noted(i, InfraFailed)]
    else [Started(Candidate(i), s.requests)] +
         match w.leg(i, s.requests)
         case Replayed(_, _) => []
         case Crashed => [Noted(i, if w.leader == Some(i) then InfraFailed else Disqualified)]
         case LegFailed => [Noted(i, InfraFailed)]
  }

  /** The two baselines on the whole trace, and the turns of the first `m` candidates. */
  ghost function TurnsLog(w: World, s: Setup, m: nat): seq<Event> {
    if m == 0 then [Started(Baseline, w.trace), Started(Drift, w.trace)]
    else TurnsLog(w, s, m - 1) + TurnLog(w, s, m - 1)
  }

  /** The verdicts that are no pass, among the first `m` candidates. */
  ghost function VerdictLog(w: World, s: Setup, m: nat): seq<Event> {
    if m == 0 then []
    else
      VerdictLog(w, s, m - 1) +
      if Replays(w, s, m - 1) && VerdictOf(w, s.excluded, m - 1) != Pass
      then [NotedVerdict(m - 1, EntryOf(w, s, m - 1).status)] else []
  }

  /** A candidate whose tier evidence is incomplete ends the round. */
  ghost predicate Breaks(w: World, s: Setup, i: nat) {
    w.concurrent && Replays(w, s, i) && !w.leg(i, s.requests).chargeable
  }

  /** How many candidates have their turn. */
  ghost function Turns(w: World, s: Setup, from: nat): (m: nat)
    requires from <= w.candidates
    ensures from <= m <= w.candidates
    ensures forall i :: from <= i < m - 1 ==> !Breaks(w, s, i)
    ensures m == w.candidates || (from < m && Breaks(w, s, m - 1))
    decreases w.candidates - from
  {
    if from == w.candidates then from else if Breaks(w, s, from) then from + 1 else Turns(w, s, from + 1)
  }

  ghost predicate Whole(w: World, s: Setup) {
    forall i: nat :: i < w.candidates ==> !Breaks(w, s, i)
  }

  ghost predicate BaselineHolds(w: World, s: Setup) {
    w.NeedsBaseline() ==> BaselinePasses(w, s.excluded)
  }

  /** The log of a round, from the first start to the last verdict. */
  ghost function RoundLog(w: World, s: Setup): seq<Event> {
    if !Whole(w, s) then TurnsLog(w, s, Turns(w, s, 0))
    else TurnsLog(w, s, w.candidates) + ScorerLog(w, s)
  }

  ghost function ScorerLog(w: World, s: Setup): seq<Event> {
    if !w.all || !NeedsScorer(w, s) then []
    else [Started(Scorer, [])] + if w.scorerWorks && BaselineHolds(w, s) then VerdictLog(w, s, w.candidates) else []
  }

  /** The last event is the start of this kind. */
  ghost predicate StoppedAt(log: seq<Event>, kind: Kind) {
    log != [] && log[|log| - 1].Started? && log[|log| - 1].kind == kind
  }

  // ---------------------------------------------------------------------------
  // The candidates' turns

  ghost predicate RunsOf(w: World, s: Setup, runs: seq<Run>, m: nat) {
    |runs| == m && forall i :: 0 <= i < m ==> runs[i] == RunOf(w, s, i)
  }

  /** What is queued for grading: the baseline if it is needed, then the replayed candidates in order. */
  ghost function PendingOf(w: World, s: Setup, m: nat): seq<Option<nat>> {
    if m == 0 then (if w.all && w.NeedsBaseline() then [None] else [])
    else PendingOf(w, s, m - 1) + if Replays(w, s, m - 1) then [Some(m - 1)] else []
  }

  lemma LeaderNotSkipped(w: World, s: Setup, i: nat)
    ensures w.leader == Some(i) ==> !Skipped(w, s, i)
    ensures i < w.candidates ==>
              (Skipped(w, s, i + 1) <==> Skipped(w, s, i) || (w.leader == Some(i) && !w.leg(i, s.requests).Replayed?))
  {
  }

  /** One candidate's leg: skipped once the leader has failed, otherwise started. */
  method RunCandidate(w: World, s: Setup, i: nat, leaderFailed: bool, runs: seq<Run>, pending: seq<Option<nat>>, log: seq<Event>)
    returns (aborted: bool, leaderFailed': bool, runs': seq<Run>, pending': seq<Option<nat>>, log': seq<Event>)
    requires i < w.candidates && leaderFailed == Skipped(w, s, i)
    requires RunsOf(w, s, runs, i) && pending == PendingOf(w, s, i) && log == TurnsLog(w, s, i)
    ensures aborted <==> Breaks(w, s, i)
    ensures aborted ==> StoppedAt(log', Candidate(i))
    ensures !aborted ==> leaderFailed' == Skipped(w, s, i + 1)
    ensures !aborted ==> RunsOf(w, s, runs', i + 1) && pending' == PendingOf(w, s, i + 1)
    ensures log' == TurnsLog(w, s, i + 1)
  {
    hide Skipped;
    LeaderNotSkipped(w, s, i);
    aborted, leaderFailed', runs', pending', log' := false, leaderFailed, runs, pending, log;
    if leaderFailed {
      runs' := runs + [Run(i, InfraFailed, false)];
      log' := log + [Noted(i, InfraFailed)];
      return;
    }
    log' := log + [Started(Candidate(i), s.requests)];
    match w.leg(i, s.requests) {
      case Crashed =>
        runs' := runs + [Run(i, Disqualified, false)];
        if w.leader == Some(i) {
          log' := log' + [Noted(i, InfraFailed)];
          leaderFailed' := true;
        } else {
          log' := log' + [Noted(i, Disqualified)];
        }
      case LegFailed =>
        runs' := runs + [Run(i, InfraFailed, false)];
        log' := log' + [Noted(i, InfraFailed)];
        if w.leader == Some(i) {
          leaderFailed' := true;
        }
      case Replayed(unstable, chargeable) =>
        if w.concurrent && !chargeable {
          return true, leaderFailed', runs', pending', log';
        }
        runs' := runs + [Run(i, Scored, unstable)];
        pending' := pending + [Some(i)];
    }
  }

  // ---------------------------------------------------------------------------
  // The end of the round

  lemma {:induction false} PendingSubjects(w: World, s: Setup, m: nat)
    ensures None in PendingOf(w, s, m) <==> w.all && w.NeedsBaseline()
    ensures forall i: nat :: Some(i) in PendingOf(w, s, m) <==> i < m && Replays(w, s, i)
  {
    hide Replays;
    if m > 0 {
      PendingSubjects(w, s, m - 1);
    }
  }

  /** Stream the verdicts that are not a pass, in the order of the candidates' turns. */
  method StreamVerdicts(w: World, s: Setup, reports: map<Option<nat>, Report>, log: seq<Event>) returns (log': seq<Event>)
    requires w.all
    requires forall i: nat :: i < w.candidates ==> (Some(i) in reports <==> Replays(w, s, i))
    requires forall i: nat :: i < w.candidates && Replays(w, s, i) ==> reports[Some(i)].verdict == VerdictOf(w, s.excluded, i)
    ensures log' == log + VerdictLog(w, s, w.candidates)
  {
    hide VerdictOf, Skipped;
    log' := log;
    for i := 0 to w.candidates
      invariant log' == log + VerdictLog(w, s, i)
    {
      if Some(i) in reports && reports[Some(i)].verdict != Pass {
        log' := log' + [NotedVerdict(i, if reports[Some(i)].verdict == GradeFailed then InfraFailed else Disqualified)];
      }
    }
  }

  /** The entries of a round: correctness is a hard gate, an unstable measurement is not scored. */
  method BuildEntries(w: World, s: Setup, runs: seq<Run>, reports: map<Option<nat>, Report>) returns (entries: seq<Entry>)
    requires RunsOf(w, s, runs, w.candidates)
    requires w.all ==> forall i: nat :: i < w.candidates && Replays(w, s, i) ==>
               Some(i) in reports && reports[Some(i)].verdict == VerdictOf(w, s.excluded, i)
    requires !w.all ==> reports == map[]
    ensures |entries| == w.candidates && forall i :: 0 <= i < w.candidates ==> entries[i] == EntryOf(w, s, i)
  {
    hide Skipped, VerdictOf;
    entries := [];
    for k := 0 to |runs|
      invariant |entries| == k && forall i :: 0 <= i < k ==> entries[i] == EntryOf(w, s, i)
    {
      var run := runs[k];
      assert run == RunOf(w, s, k);
      if run.status == Disqualified {
        entries := entries + [Entry(run.index, Disqualified)];
        continue;
      }
      if run.status == InfraFailed {
        entries := entries + [Entry(run.index, InfraFailed)];
        continue;
      }
      if Some(run.index) in reports && reports[Some(run.index)].verdict == GradeFailed {
        entries := entries + [Entry(run.index, InfraFailed)];
        continue;
      }
      if Some(run.index) in reports && reports[Some(run.index)].verdict != Pass {
        entries := entries + [Entry(run.index, Disqualified)];
        continue;
      }
      if run.unstable {
        entries := entries + [Entry(run.index, InfraFailed)];
        continue;
      }
      entries := entries + [Entry(run.index, Scored)];
    }
  }

  method AnyCandidate(pending: seq<Option<nat>>) returns (some: bool)
    ensures some <==> exists i :: Some(i) in pending
  {
    for k := 0 to |pending|
      invariant forall j :: 0 <= j < k ==> pending[j].None?
    {
      if pending[k].Some? {
        assert Some(pending[k].value) in pending;
        return true;
      }
    }
    return false;
  }

  /** Grade what is pending, and stream the verdicts once the baseline is known to pass. */
  method RunScorer(w: World, s: Setup, pending: seq<Option<nat>>, log: seq<Event>)
    returns (ok: bool, reports: map<Option<nat>, Report>, log': seq<Event>)
    requires w.all && NeedsScorer(w, s) && pending == PendingOf(w, s, w.candidates)
    ensures log' == log + ScorerLog(w, s)
    ensures ok <==> w.scorerWorks && BaselineHolds(w, s)
    ensures !ok ==> StoppedAt(log', Scorer)
    ensures ok ==> forall i: nat :: i < w.candidates && Replays(w, s, i) ==>
              Some(i) in reports && reports[Some(i)].verdict == VerdictOf(w, s.excluded, i)
  {
    hide Grade, Skipped, EntryOf, Replays, NeedsScorer, ReferenceMean, PendingOf, VerdictLog;
    PendingSubjects(w, s, w.candidates);
    reports := map[];
    log' := log + [Started(Scorer, [])];
    if !w.scorerWorks {
      return false, reports, log';
    }
    reports := GradeAll(w, pending, s.excluded);
    if w.NeedsBaseline() && reports[None].verdict != Pass {
      return false, reports, log';
    }
    log' := StreamVerdicts(w, s, reports, log');
    return true, reports, log';
  }

  /** What it takes for a round to return: every replay has whole tier evidence, and whatever needs
      grading meets a working scorer and, where the baseline counts, a baseline that passes. */
  ghost predicate Completes(w: World, s: Setup) {
    Whole(w, s) && (w.all && NeedsScorer(w, s) ==> w.scorerWorks && BaselineHolds(w, s))
  }

  lemma ScorerNeeded(w: World, s: Setup)
    ensures NeedsScorer(w, s) <==> exists i :: Some(i) in PendingOf(w, s, w.candidates)
  {
    hide Replays, PendingOf;
    PendingSubjects(w, s, w.candidates);
  }

  /** The candidates' part of a round. */
  method RunCandidates(w: World, s: Setup, plan: seq<Kind>, log: seq<Event>) returns (outcome: Outcome, log': seq<Event>)
    requires plan == Plan(w.candidates, w.all) && log == TurnsLog(w, s, 0)
    ensures log' == RoundLog(w, s)
    ensures outcome.Returned? <==> Completes(w, s)
    ensures outcome.Aborted? ==> StoppedAt(log', outcome.kind)
    ensures outcome.Returned? ==>
              |outcome.entries| == w.candidates && forall i :: 0 <= i < w.candidates ==> outcome.entries[i] == EntryOf(w, s, i)
  {
    hide RunsOf, PendingOf, EntryOf, Skipped, Replays, NeedsScorer, TurnsLog, VerdictOf, Breaks, Turns, ScorerLog, BaselineHolds;
    var runs: seq<Run>, leaderFailed := [], false;
    var pending: seq<Option<nat>> := if w.all && w.NeedsBaseline() then [None] else [];
    log' := log;
    NothingRun(w, s);
    for k := 0 to w.candidates
      invariant leaderFailed == Skipped(w, s, k)
      invariant RunsOf(w, s, runs, k) && pending == PendingOf(w, s, k) && log' == TurnsLog(w, s, k)
      invariant forall i: nat :: i < k ==> !Breaks(w, s, i)
    {
      var start := plan[k + 2];
      PlanAt(w.candidates, w.all, k);
      var aborted;
      aborted, leaderFailed, runs, pending, log' := RunCandidate(w, s, start.index, leaderFailed, runs, pending, log');
      if aborted {
        return Aborted(start), log';
      }
    }
    ScorerNeeded(w, s);
    var reports: map<Option<nat>, Report> := map[];
    var any := AnyCandidate(pending);
    if w.all && any {
      var ok;
      ok, reports, log' := RunScorer(w, s, pending, log');
      if !ok {
        return Aborted(Scorer), log';
      }
    } else {
      NoScorerLog(w, s);
      assert log' + [] == log';
    }
    NothingPending(w, s);
    var entries := BuildEntries(w, s, runs, reports);
    return Returned(entries), log';
  }

  lemma PlanAt(candidates: nat, all: bool, k: nat)
    requires k < candidates
    ensures |Plan(candidates, all)| >= candidates + 2 && Plan(candidates, all)[k + 2] == Candidate(k)
  {
  }

  lemma NoScorerLog(w: World, s: Setup)
    ensures !w.all || !NeedsScorer(w, s) ==> ScorerLog(w, s) == []
  {
  }

  lemma NothingRun(w: World, s: Setup)
    ensures !Skipped(w, s, 0) && RunsOf(w, s, [], 0)
    ensures PendingOf(w, s, 0) == if w.all && w.NeedsBaseline() then [None] else []
  {
  }

  lemma NothingPending(w: World, s: Setup)
    ensures !NeedsScorer(w, s) ==> forall i: nat :: i < w.candidates ==> !Replays(w, s, i)
  {
  }

  /** What the two baselines set up, if they do. */
  ghost function SetupOf(w: World): Option<Setup> {
    if AfterBaseline(w).None? then None else AfterDrift(w, AfterBaseline(w).value)
  }

  /** Run a whole round: it is set up by the baselines, or aborted by them before any candidate starts.
      A round that aborts does so at what was started last. */
  method RunRound(w: World) returns (outcome: Outcome, log: seq<Event>)
    ensures SetupOf(w).None? ==>
              outcome.Aborted? && log == [Started(Baseline, w.trace)] + if AfterBaseline(w).None? then [] else [Started(Drift, w.trace)]
    ensures outcome.Aborted? ==> StoppedAt(log, outcome.kind)
    ensures SetupOf(w).Some? ==> log == RoundLog(w, SetupOf(w).value)
    ensures outcome.Returned? <==> SetupOf(w).Some? && Completes(w, SetupOf(w).value)
    ensures outcome.Returned? ==>
              && |outcome.entries| == w.candidates
              && forall i :: 0 <= i < w.candidates ==> outcome.entries[i] == EntryOf(w, SetupOf(w).value, i)
  {
    hide AfterBaseline, AfterDrift, RoundLog, EntryOf, Completes;
    var plan := Plan(w.candidates, w.all);
    log := [Started(Baseline, w.trace)];
    var excluded := AfterBaseline(w);
    if excluded.None? {
      return Aborted(Baseline), log;
    }
    log := log + [Started(Drift, w.trace)];
    var s := RunDrift(w, excluded.value);
    if s.None? {
      return Aborted(Drift), log;
    }
    outcome, log := RunCandidates(w, s.value, plan, log);
  }

  // ---------------------------------------------------------------------------
  // The order of events

  /** The engine starts among the events. */
  ghost function Starts(log: seq<Event>): seq<Kind> {
    if log == [] then []
    else
      var last := log[|log| - 1];
      Starts(log[..|log| - 1]) + if last.Started? then [last.kind] else []
  }

  lemma StartsSnoc(log: seq<Event>, e: Event)
    ensures Starts(log + [e]) == Starts(log) + if e.Started? then [e.kind] else []
  {
    assert (log + [e])[..|log|] == log;
  }

  lemma {:induction false} StartsConcat(a: seq<Event>, b: seq<Event>)
    ensures Starts(a + b) == Starts(a) + Starts(b)
    decreases |b|
  {
    hide Starts;
    if b == [] {
      assert a + b == a;
      NoStarts();
    } else {
      var init, last := b[..|b| - 1], b[|b| - 1];
      StartsConcat(a, init);
      assert b == init + [last] && a + b == (a + init) + [last];
      StartsSnoc(a + init, last);
      StartsSnoc(init, last);
    }
  }

  lemma NoStarts()
    ensures Starts([]) == []
  {
  }

  /** Each start comes later in the plan than the one before. */
  ghost predicate Rising(candidates: nat, starts: seq<Kind>) {
    forall i, j :: 0 <= i < j < |starts| ==> Position(candidates, starts[i]) < Position(candidates, starts[j])
  }

  lemma TurnStarts(w: World, s: Setup, i: nat)
    ensures Starts(TurnLog(w, s, i)) == if Skipped(w, s, i) then [] else [Candidate(i)]
  {
    hide Skipped;
    var log := TurnLog(w, s, i);
    assert |log| == 2 ==> log[..1] == [log[0]];
    assert |log| >= 1 ==> log[..1][..0] == [];
    assert Starts([]) == [];
    assert Starts(log[..0]) == [];
  }

  lemma {:induction false} TurnsStarts(w: World, s: Setup, m: nat)
    ensures var k := Starts(TurnsLog(w, s, m));
            && Rising(w.candidates, k) && |k| >= 2 && k[0] == Baseline && k[1] == Drift
            && forall i :: 2 <= i < |k| ==> k[i].Candidate? && k[i].index < m
  {
    hide TurnLog, Starts;
    if m == 0 {
      BaselineStarts(w);
    } else {
      TurnsStarts(w, s, m - 1);
      StartsConcat(TurnsLog(w, s, m - 1), TurnLog(w, s, m - 1));
      TurnStarts(w, s, m - 1);
    }
  }

  lemma BaselineStarts(w: World)
    ensures Starts([Started(Baseline, w.trace), Started(Drift, w.trace)]) == [Baseline, Drift]
  {
    var log := [Started(Baseline, w.trace), Started(Drift, w.trace)];
    var first := [Started(Baseline, w.trace)];
    assert log[..1] == first && first[..0] == [];
    assert Starts([]) == [] && Starts(first) == [Baseline];
  }

  lemma {:induction false} VerdictsStartNothing(w: World, s: Setup, m: nat)
    ensures Starts(VerdictLog(w, s, m)) == []
    ensures forall e :: e in VerdictLog(w, s, m) ==> e.NotedVerdict?
  {
    hide Replays, VerdictOf, EntryOf;
    if m > 0 {
      VerdictsStartNothing(w, s, m - 1);
      var init, log := VerdictLog(w, s, m - 1), VerdictLog(w, s, m);
      if |log| > |init| {
        assert log[..|log| - 1] == init;
      } else {
        assert log == init;
      }
    }
  }

  lemma ScorerStarts(w: World, s: Setup)
    ensures Starts(ScorerLog(w, s)) == if w.all && NeedsScorer(w, s) then [Scorer] else []
  {
    hide NeedsScorer, VerdictLog, BaselineHolds;
    VerdictsStartNothing(w, s, w.candidates);
    if w.all && NeedsScorer(w, s) {
      var first := [Started(Scorer, [])];
      assert first[..0] == [];
      StartsConcat(first, VerdictLog(w, s, w.candidates));
      assert first + [] == first;
    }
  }

  /** The engine starts of a round are the plan with starts left out: in the plan's order, none twice,
      the scorer only after all candidates. */
  lemma StartsFollowPlan(w: World, s: Setup)
    ensures var k := Starts(RoundLog(w, s));
            && Rising(w.candidates, k)
            && (forall i :: 0 <= i < |k| ==> k[i] in Plan(w.candidates, w.all))
            && (forall i :: 0 <= i < |k| && k[i].Scorer? ==> i == |k| - 1 && Whole(w, s) && NeedsScorer(w, s))
  {
    hide Starts, TurnsLog, ScorerLog, NeedsScorer, Whole, Turns;
    TurnsStarts(w, s, if Whole(w, s) then w.candidates else Turns(w, s, 0));
    if Whole(w, s) {
      StartsConcat(TurnsLog(w, s, w.candidates), ScorerLog(w, s));
      ScorerStarts(w, s);
    }
  }

  lemma {:induction false} TurnIsLogged(w: World, s: Setup, i: nat, m: nat)
    requires i < m
    ensures forall e :: e in TurnLog(w, s, i) ==> e in TurnsLog(w, s, m)
  {
    hide TurnLog;
    if i < m - 1 {
      TurnIsLogged(w, s, i, m - 1);
    }
  }

  /** Where a turn stands in the log. */
  lemma {:induction false} TurnStandsIn(w: World, s: Setup, i: nat, m: nat) returns (k: nat)
    requires i < m
    ensures k + |TurnLog(w, s, i)| <= |TurnsLog(w, s, m)| && TurnsLog(w, s, m)[k..k + |TurnLog(w, s, i)|] == TurnLog(w, s, i)
  {
    hide TurnLog;
    if i == m - 1 {
      k := |TurnsLog(w, s, i)|;
    } else {
      k := TurnStandsIn(w, s, i, m - 1);
      assert TurnsLog(w, s, m)[k..k + |TurnLog(w, s, i)|] == TurnsLog(w, s, m - 1)[k..k + |TurnLog(w, s, i)|];
    }
  }

  /** Every candidate of a round with whole evidence is started, on the common requests, unless the leader
      came before it and has failed; and it is noted as soon as its leg has failed or been skipped. */
  lemma EveryCandidateHasItsTurn(w: World, s: Setup, i: nat)
    requires Whole(w, s) && i < w.candidates
    ensures Started(Candidate(i), s.requests) in RoundLog(w, s) <==>
            !(w.leader.Some? && w.leader.value < i && !w.leg(w.leader.value, s.requests).Replayed?)
    ensures Started(Candidate(i), s.requests) !in RoundLog(w, s) ==> Noted(i, InfraFailed) in RoundLog(w, s)
    ensures Started(Candidate(i), s.requests) in RoundLog(w, s) && !w.leg(i, s.requests).Replayed? ==>
              exists k :: 0 < k < |RoundLog(w, s)| && RoundLog(w, s)[k - 1] == Started(Candidate(i), s.requests)
                          && RoundLog(w, s)[k].Noted? && RoundLog(w, s)[k].index == i
  {
    hide TurnsLog, ScorerLog, Whole;
    TurnIsLogged(w, s, i, w.candidates);
    if Skipped(w, s, i) {
      assert Noted(i, InfraFailed) in TurnLog(w, s, i);
      NotStarted(w, s, i);
    } else {
      assert Started(Candidate(i), s.requests) in TurnLog(w, s, i);
      if !w.leg(i, s.requests).Replayed? {
        var k := TurnStandsIn(w, s, i, w.candidates);
        var turn, log := TurnLog(w, s, i), RoundLog(w, s);
        assert log[k] == log[..|TurnsLog(w, s, w.candidates)|][k..k + 2][0] == turn[0];
        assert log[k + 1] == log[..|TurnsLog(w, s, w.candidates)|][k..k + 2][1] == turn[1];
      }
    }
  }

  lemma {:induction false} TurnsEvents(w: World, s: Setup, m: nat, e: Event)
    requires e in TurnsLog(w, s, m)
    ensures e == Started(Baseline, w.trace) || e == Started(Drift, w.trace)
            || exists i: nat :: i < m && e in TurnLog(w, s, i)
  {
    hide TurnLog;
    if m > 0 && e !in TurnLog(w, s, m - 1) {
      TurnsEvents(w, s, m - 1, e);
    }
  }

  lemma {:induction false} VerdictEvents(w: World, s: Setup, m: nat, e: Event)
    requires e in VerdictLog(w, s, m)
    ensures e.NotedVerdict? && e.index < m && Replays(w, s, e.index) && VerdictOf(w, s.excluded, e.index) != Pass
    ensures e.status == EntryOf(w, s, e.index).status
  {
    hide Replays, VerdictOf, EntryOf;
    if e in VerdictLog(w, s, m - 1) {
      VerdictEvents(w, s, m - 1, e);
    }
  }

  /** What each event of a round means. */
  ghost predicate Explained(w: World, s: Setup, e: Event) {
    match e
    case Started(Candidate(i), requests) => i < w.candidates && !Skipped(w, s, i) && requests == s.requests
    case Started(Scorer, _) => w.all && NeedsScorer(w, s)
    case Started(_, requests) => requests == w.trace
    case Noted(i, _) => i < w.candidates && !Replays(w, s, i) && e in TurnLog(w, s, i)
    case NotedVerdict(i, status) =>
      && w.all && i < w.candidates && Replays(w, s, i) && w.scorerWorks && BaselineHolds(w, s)
      && VerdictOf(w, s.excluded, i) != Pass && status == EntryOf(w, s, i).status
  }

  lemma LogExplained(w: World, s: Setup, e: Event)
    requires e in RoundLog(w, s)
    ensures Explained(w, s, e)
  {
    hide Skipped, NeedsScorer, VerdictOf, EntryOf, TurnsLog, VerdictLog, Whole, Turns, BaselineHolds;
    var m := if Whole(w, s) then w.candidates else Turns(w, s, 0);
    if e in TurnsLog(w, s, m) {
      TurnsEvents(w, s, m, e);
    } else if e != Started(Scorer, []) {
      VerdictEvents(w, s, w.candidates, e);
    }
  }

  lemma NotStarted(w: World, s: Setup, i: nat)
    requires Skipped(w, s, i)
    ensures Started(Candidate(i), s.requests) !in RoundLog(w, s)
  {
    hide RoundLog, Skipped;
    if Started(Candidate(i), s.requests) in RoundLog(w, s) {
      LogExplained(w, s, Started(Candidate(i), s.requests));
    }
  }

  /** Where a verdict stands in the log: behind the turns and the scorer's start. */
  lemma VerdictsBehind(w: World, s: Setup, k: nat)
    requires k < |RoundLog(w, s)| && RoundLog(w, s)[k].NotedVerdict?
    ensures Whole(w, s) && w.all && NeedsScorer(w, s) && w.scorerWorks && BaselineHolds(w, s)
    ensures k > |TurnsLog(w, s, w.candidates)|
  {
    hide NeedsScorer, TurnsLog, VerdictLog, Whole, Turns, TurnLog, BaselineHolds;
    var m := if Whole(w, s) then w.candidates else Turns(w, s, 0);
    var turns := TurnsLog(w, s, m);
    if k < |turns| {
      TurnsNoteNoVerdict(w, s, m, turns[k]);
    }
  }

  /** Correctness verdicts come last: after the scorer's start, and before nothing but verdicts. */
  lemma VerdictsComeLast(w: World, s: Setup, k: nat)
    requires k < |RoundLog(w, s)| && RoundLog(w, s)[k].NotedVerdict?
    ensures w.all && w.scorerWorks && (w.NeedsBaseline() ==> BaselinePasses(w, s.excluded))
    ensures exists j :: 0 <= j < k && RoundLog(w, s)[j] == Started(Scorer, [])
    ensures forall j :: k < j < |RoundLog(w, s)| ==> RoundLog(w, s)[j].NotedVerdict?
  {
    hide NeedsScorer, TurnsLog, VerdictLog, Whole, Turns, TurnLog, BaselinePasses;
    VerdictsBehind(w, s, k);
    var turns, verdicts := TurnsLog(w, s, w.candidates), VerdictLog(w, s, w.candidates);
    var log := RoundLog(w, s);
    assert log == turns + ([Started(Scorer, [])] + verdicts);
    assert log[|turns|] == Started(Scorer, []);
    VerdictsStartNothing(w, s, w.candidates);
    forall j | k < j < |log| ensures log[j].NotedVerdict? {
      assert log[j] == verdicts[j - |turns| - 1];
    }
  }

  lemma TurnsNoteNoVerdict(w: World, s: Setup, m: nat, e: Event)
    requires e in TurnsLog(w, s, m)
    ensures !e.NotedVerdict?
  {
    hide Skipped, TurnsLog;
    TurnsEvents(w, s, m, e);
  }

  // ---------------------------------------------------------------------------
  // What a round guarantees

  /** An entry is scored only if its candidate replayed stably and, in mode "all", was graded a pass,
      with the baseline graded a pass whenever it has to be. */
  lemma ScoredMeansPassed(w: World, s: Setup, i: nat)
    requires i < w.candidates && Completes(w, s) && EntryOf(w, s, i).status == Scored
    ensures Replays(w, s, i) && !w.leg(i, s.requests).unstable
    ensures w.all ==> VerdictOf(w, s.excluded, i) == Pass
    ensures w.all && w.NeedsBaseline() ==> BaselinePasses(w, s.excluded)
  {
    hide VerdictOf, BaselinePasses, Whole, Skipped;
  }

  /** What a pass means: every output was graded, none was empty, the texts are not degenerate, and
      every bar is cleared, the relative one against the reference. */
  lemma PassMeans(w: World, subject: Option<nat>, excluded: set<nat>, reference: Option<real>)
    requires Grade(w, subject, excluded, reference).verdict == Pass
    ensures var outputs, s, t := w.outputs(subject, excluded), w.scores(subject, excluded), w.thresholds;
            && !Grading.Degenerate(outputs) && !Grading.SomeEmpty(outputs)
            && (forall i :: 0 <= i < |outputs| ==> !Grading.Stops(outputs[i]))
            && s.positions > 0 && s.mean >= t.minMean && s.low >= t.minToken && s.coverage >= t.minCoverage
            && (t.maxDrop.Some? && reference.Some? ==> s.mean >= reference.value - t.maxDrop.value)
    ensures Grade(w, subject, excluded, reference).mean == w.scores(subject, excluded).mean
  {
    hide Grading.Degenerate, Grading.DegenerateBefore, Grading.Stops;
    var outputs := w.outputs(subject, excluded);
    assert outputs[..|outputs|] == outputs;
  }

  /** A scored candidate's texts: no ordinary completion has a part with too few distinct n-grams, at
      most four prompts repeat a span of a quarter of a part, and under the relative bar the mean is
      within the allowed drop of the mean of a baseline that meets the same conditions. */
  lemma ScoredTexts(w: World, s: Setup, i: nat)
    requires i < w.candidates && Completes(w, s) && EntryOf(w, s, i).status == Scored && w.all
    ensures |Grading.RepeatingPrompts(w.outputs(Some(i), s.excluded))| <= Grading.MAX_REPEATED_SPAN_FAILURES
    ensures forall o, k ::
              o in w.outputs(Some(i), s.excluded) && Grading.IsGraded(o) && !Grading.ForcedTail(o) && 0 <= k < |Degeneracy.Parts(o.text)|
              ==> !Degeneracy.BelowFloor(Degeneracy.Parts(o.text)[k])
    ensures w.NeedsBaseline() ==>
              |Grading.RepeatingPrompts(w.outputs(None, s.excluded))| <= Grading.MAX_REPEATED_SPAN_FAILURES
    ensures w.thresholds.maxDrop.Some? ==>
              w.scores(Some(i), s.excluded).mean >= w.scores(None, s.excluded).mean - w.thresholds.maxDrop.value
  {
    hide Grade, Completes, EntryOf, Grading.Degenerate, Grading.RepeatingPrompts, Degeneracy.BelowFloor, Degeneracy.Parts;
    ScoredMeansPassed(w, s, i);
    PassMeans(w, Some(i), s.excluded, ReferenceMean(w, s.excluded));
    Grading.NotDegenerate(w.outputs(Some(i), s.excluded));
    if w.NeedsBaseline() {
      PassMeans(w, None, s.excluded, None);
      Grading.NotDegenerate(w.outputs(None, s.excluded));
    }
  }

  /** Once the leader's leg has failed, no later candidate starts, and each gets an infra-failed entry. */
  lemma LeaderFailureStops(w: World, s: Setup, i: nat)
    requires w.leader.Some? && w.leader.value < i < w.candidates && !w.leg(w.leader.value, s.requests).Replayed?
    ensures forall requests :: Started(Candidate(i), requests) !in RoundLog(w, s)
    ensures EntryOf(w, s, i) == Entry(i, InfraFailed)
  {
    hide RoundLog;
    assert Skipped(w, s, i);
    forall requests ensures Started(Candidate(i), requests) !in RoundLog(w, s) {
      if Started(Candidate(i), requests) in RoundLog(w, s) {
        LogExplained(w, s, Started(Candidate(i), requests));
      }
    }
  }

  /** What is streamed about a candidate is never "scored", and it is the status of its entry unless
      the candidate is the leader and has crashed. */
  lemma StreamedIsFinal(w: World, s: Setup, e: Event)
    requires e in RoundLog(w, s) && !e.Started?
    ensures e.index < w.candidates && EntryOf(w, s, e.index).status != Scored
    ensures e.status == EntryOf(w, s, e.index).status <==>
            !(e.Noted? && w.leader == Some(e.index) && w.leg(e.index, s.requests).Crashed?)
  {
    hide RoundLog, NeedsScorer, VerdictOf, BaselineHolds;
    LogExplained(w, s, e);
  }

  /** A crashed leader is streamed as infra-failed, while its entry is disqualified. */
  lemma CrashedLeader(w: World, s: Setup, i: nat)
    requires Whole(w, s) && w.leader == Some(i) && i < w.candidates && w.leg(i, s.requests).Crashed?
    ensures Noted(i, InfraFailed) in RoundLog(w, s) && EntryOf(w, s, i) == Entry(i, Disqualified)
  {
    hide TurnsLog, ScorerLog, Whole;
    TurnIsLogged(w, s, i, w.candidates);
    assert TurnLog(w, s, i)[1] == Noted(i, InfraFailed);
    assert TurnLog(w, s, i)[1] in TurnLog(w, s, i);
  }

  /** Such rounds exist, in mode "all" and on a workload: the leader crashes, and a challenger is
      skipped. */
  lemma CrashedLeaderExample() returns (w: World)
    ensures w.all && w.trace != [] && w.leader == Some(0) && w.candidates == 2
    ensures SetupOf(w).Some? && Completes(w, SetupOf(w).value)
    ensures Noted(0, InfraFailed) in RoundLog(w, SetupOf(w).value)
    ensures EntryOf(w, SetupOf(w).value, 0) == Entry(0, Disqualified)
    ensures EntryOf(w, SetupOf(w).value, 1) == Entry(1, InfraFailed)
  {
    hide RoundLog, TurnsLog, VerdictOf;
    var trace := [Request(0, 0)];
    w := World(
      true, false, Some(0), 2, Thresholds(-1.0, -9.0, Some(0.1), 0.5), trace, {0}, 1, 8,
      _ => Referenced({}), _ => Referenced({}), _ => Some({}), _ => false, (_, _) => Crashed, true, (_, _) => [],
      (_, _) => Scores(1, -0.5, -2.0, 1.0));
    assert trace[0] in trace && 0 in Ids(w.trace);
    NothingUnusable(w);
    var s := SetupOf(w).value;
    assert !Replays(w, s, 0) && Skipped(w, s, 1) && !Replays(w, s, 1);
    CrashedLeader(w, s, 0);
  }

  /** Baselines without unusable prompts set a round up with the whole trace. */
  lemma NothingUnusable(w: World)
    requires w.baseline(w.trace) == Referenced({}) && w.drift(w.trace) == Referenced({}) && w.stops({}) == Some({})
    requires !w.concurrent && w.trace != [] && w.prompts != {}
    ensures SetupOf(w) == Some(Setup({}, w.trace))
  {
    var ids := Ids(w.trace);
    assert w.trace[0].id in ids;
    assert {} * ids == {} && {} * w.prompts == {};
    assert forall x: set<nat> :: {} + x == x;
  }

  /** All candidates replay the same requests; in a concurrent round each of these is in the group it
      was in when the baselines replayed the whole trace. */
  lemma SameWorkload(w: World, s: Setup, e: Event, f: Event, perGroup: nat,
                     groups: seq<seq<Request>>, groups': seq<seq<Request>>, x: Request, g: nat)
    requires e in RoundLog(w, s) && f in RoundLog(w, s)
    requires e.Started? && e.kind.Candidate? && f.Started? && f.kind.Candidate?
    requires perGroup >= 1 && GroupsOf(groups, w.trace, perGroup, w.tiers) && GroupsOf(groups', e.requests, perGroup, w.tiers)
    requires g < |groups| && x in groups[g] && x in e.requests && x.tier < w.tiers
    ensures e.requests == f.requests
    ensures g < |groups'| && x in groups'[g]
  {
    hide GroupsOf, RoundLog, Skipped, NeedsScorer;
    LogExplained(w, s, e);
    LogExplained(w, s, f);
    SurvivorStays(groups, w.trace, groups', e.requests, perGroup, w.tiers, x, g);
  }
}
