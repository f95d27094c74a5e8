/** What sampling selects and which error it raises, row by row, in terms of the rows alone: a row is
    taken exactly when nothing taken before it stands in its way. */
module LongformMeaning {
  import opened Basics
  import opened LongformSampling

  // ---------------------------------------------------------------------------
  // Which rows are taken

  /** The candidates of the rows taken among the first `n`. */
  ghost function Taken(views: int -> View, rows: seq<int>, chosen: seq<bool>, n: nat): seq<Candidate>
    requires n <= |chosen| <= |rows|
  {
    if n == 0 then []
    else Taken(views, rows, chosen, n - 1) +
         if chosen[n - 1] && views(rows[n - 1]).Eligible? then [views(rows[n - 1]).candidate] else []
  }

  ghost function OfTier(taken: seq<Candidate>, t: nat): set<nat> {
    set i: nat | i < |taken| && taken[i].tier == t
  }

  ghost predicate PromptTaken(taken: seq<Candidate>, c: Candidate) {
    exists d :: d in taken && d.prompt == c.prompt
  }

  ghost predicate SessionTaken(taken: seq<Candidate>, c: Candidate) {
    exists d :: d in taken && d.session == c.session
  }

  ghost predicate RoomFor(rule: Rule, taken: seq<Candidate>, c: Candidate) {
    c.tier < |rule.counts| && |OfTier(taken, c.tier)| < rule.counts[c.tier]
  }

  /** Nothing taken before stands in the way: not its prompt, from version 6 not its session, and not
      the number of its tier. */
  ghost predicate Welcome(rule: Rule, taken: seq<Candidate>, view: View) {
    && view.Eligible?
    && !PromptTaken(taken, view.candidate)
    && (rule.v6 ==> !SessionTaken(taken, view.candidate))
    && RoomFor(rule, taken, view.candidate)
  }

  /** Rows are taken exactly when they are welcome, and looked at only while prompts are missing. */
  ghost predicate Greedy(rule: Rule, views: int -> View, rows: seq<int>, chosen: seq<bool>) {
    && |chosen| <= |rows|
    && forall n :: 0 <= n < |chosen| ==>
         && !views(rows[n]).FetchFailed?
         && (chosen[n] <==> Welcome(rule, Taken(views, rows, chosen, n), views(rows[n])))
         && Missing(rule, Taken(views, rows, chosen, n))
  }

  ghost predicate Missing(rule: Rule, taken: seq<Candidate>) {
    |taken| < Total(rule.counts) || Total(rule.counts) == 0
  }

  // ---------------------------------------------------------------------------
  // The selection's state

  /** What the state of the selection stands for. */
  ghost predicate Tracks(rule: Rule, taken: seq<Candidate>, s: Selection) {
    && s.selected == taken
    && s.prompts == (set c | c in taken :: c.prompt) && s.sessions == (set c | c in taken :: c.session)
    && |s.remaining| == |rule.counts|
    && forall t :: 0 <= t < |rule.counts| ==> s.remaining[t] + |OfTier(taken, t)| == rule.counts[t]
  }

  lemma TracksStart(rule: Rule)
    ensures Tracks(rule, [], Start(rule))
  {
    forall t: nat | t < |rule.counts| ensures |OfTier([], t)| == 0 {
      assert OfTier([], t) == {};
    }
  }

  lemma OneMore(taken: seq<Candidate>, c: Candidate, t: nat)
    ensures |OfTier(taken + [c], t)| == |OfTier(taken, t)| + if c.tier == t then 1 else 0
  {
    if c.tier == t {
      assert OfTier(taken + [c], t) == OfTier(taken, t) + {|taken|};
    } else {
      assert OfTier(taken + [c], t) == OfTier(taken, t);
    }
  }

  lemma TracksMore(rule: Rule, taken: seq<Candidate>, s: Selection, c: Candidate)
    requires Tracks(rule, taken, s) && c.tier < |s.remaining| && s.remaining[c.tier] > 0
    ensures Tracks(rule, taken + [c], Add(s, c))
  {
    hide OfTier;
    SetsGrow(taken, c);
    forall t: nat | t < |rule.counts| ensures Add(s, c).remaining[t] + |OfTier(taken + [c], t)| == rule.counts[t] {
      OneMore(taken, c, t);
    }
  }

  /** What looking at a row comes to. */
  lemma LookMeans(rule: Rule, view: View, replay: bool, taken: seq<Candidate>, s: Selection)
    requires Tracks(rule, taken, s)
    ensures view.FetchFailed? ==> LookAt(rule, view, replay, s) == Fail(RowFetchFailed)
    ensures Welcome(rule, taken, view) ==> LookAt(rule, view, replay, s) == Take(view.candidate)
    ensures !view.FetchFailed? && !Welcome(rule, taken, view) && !replay ==> LookAt(rule, view, replay, s) == Skip
    ensures !view.FetchFailed? && !Welcome(rule, taken, view) && replay ==> LookAt(rule, view, replay, s) == Fail(Refusal(rule, view, taken))
  {
    hide OfTier;
  }

  /** Why a row of a receipt is refused. */
  ghost function Refusal(rule: Rule, view: View, taken: seq<Candidate>): Error {
    if view.RenderFailed? then PromptRenderFailed
    else if view.Ineligible? || (view.Eligible? && PromptTaken(taken, view.candidate)) then IneligibleReceiptRow
    else if view.Eligible? && rule.v6 && SessionTaken(taken, view.candidate) then RepeatedSession
    else TierQuotaExceeded
  }

  // ---------------------------------------------------------------------------
  // Going through the rows

  lemma TakenSnoc(views: int -> View, rows: seq<int>, chosen: seq<bool>, b: bool, n: nat)
    requires n <= |chosen| < |rows|
    ensures Taken(views, rows, chosen + [b], n) == Taken(views, rows, chosen, n)
    decreases n
  {
    if n > 0 {
      TakenSnoc(views, rows, chosen, b, n - 1);
    }
  }

  lemma GreedySnoc(rule: Rule, views: int -> View, rows: seq<int>, chosen: seq<bool>, b: bool)
    requires Greedy(rule, views, rows, chosen) && |chosen| < |rows|
    requires var taken := Taken(views, rows, chosen, |chosen|);
             !views(rows[|chosen|]).FetchFailed? && Missing(rule, taken) && (b <==> Welcome(rule, taken, views(rows[|chosen|])))
    ensures Greedy(rule, views, rows, chosen + [b])
    ensures Taken(views, rows, chosen + [b], |chosen| + 1) ==
            Taken(views, rows, chosen, |chosen|) + if b then [views(rows[|chosen|]).candidate] else []
  {
    hide Taken, Missing, Welcome;
    var more := chosen + [b];
    forall n | 0 <= n < |more|
      ensures !views(rows[n]).FetchFailed? && (more[n] <==> Welcome(rule, Taken(views, rows, more, n), views(rows[n])))
      ensures Missing(rule, Taken(views, rows, more, n))
    {
      TakenSnoc(views, rows, chosen, b, n);
    }
    TakenSnoc(views, rows, chosen, b, |chosen|);
    TakenLast(views, rows, more);
    OnlyEligible(rule, Taken(views, rows, chosen, |chosen|), views(rows[|chosen|]));
  }

  lemma TakenLast(views: int -> View, rows: seq<int>, chosen: seq<bool>)
    requires 0 < |chosen| <= |rows|
    ensures var n := |chosen| - 1;
            Taken(views, rows, chosen, |chosen|) ==
            Taken(views, rows, chosen, n) + if chosen[n] && views(rows[n]).Eligible? then [views(rows[n]).candidate] else []
  {
  }

  lemma OnlyEligible(rule: Rule, taken: seq<Candidate>, view: View)
    ensures Welcome(rule, taken, view) ==> view.Eligible?
  {
  }

  /** How going through rows ends. `chosen` tells which rows were taken of those looked at; unless
      `replay`, the others were passed over. */
  ghost predicate Ends(rule: Rule, views: int -> View, rows: seq<int>, replay: bool, chosen: seq<bool>, r: Result<Selection, Error>) {
    && Greedy(rule, views, rows, chosen)
    && (replay ==> forall n :: 0 <= n < |chosen| ==> chosen[n])
    && var taken := Taken(views, rows, chosen, |chosen|);
       if r.Ok? then r.value.selected == taken && |taken| == Total(rule.counts) && (Missing(rule, taken) ==> |chosen| == |rows|)
       else if |chosen| == |rows| then r.error == InsufficientPrompts && |taken| != Total(rule.counts)
       else
         && Missing(rule, taken)
         && var view := views(rows[|chosen|]);
            if view.FetchFailed? then r.error == RowFetchFailed
            else replay && !Welcome(rule, taken, view) && r.error == Refusal(rule, view, taken)
  }

  lemma {:induction false} PickEnds(rule: Rule, views: int -> View, rows: seq<int>, replay: bool, chosen: seq<bool>, s: Selection)
    returns (all: seq<bool>)
    requires Greedy(rule, views, rows, chosen) && (replay ==> forall n :: 0 <= n < |chosen| ==> chosen[n])
    requires Tracks(rule, Taken(views, rows, chosen, |chosen|), s) && Missing(rule, s.selected)
    ensures Ends(rule, views, rows, replay, all, Pick(rule, views, rows[|chosen|..], replay, s))
    decreases |rows| - |chosen|
  {
    hide Welcome, Taken, LookAt, Refusal, Greedy, Tracks;
    all := chosen;
    GreedyWithin(rule, views, rows, chosen);
    StateTracks(rule, Taken(views, rows, chosen, |chosen|), s);
    if |chosen| < |rows| {
      var n, taken := |chosen|, Taken(views, rows, chosen, |chosen|);
      var view, rest := views(rows[n]), rows[n..];
      assert rest[0] == rows[n] && rest[1..] == rows[n + 1..];
      LookMeans(rule, view, replay, taken, s);
      OnlyEligible(rule, taken, view);
      TakeFits(rule, view, replay, s);
      if !view.FetchFailed? && (Welcome(rule, taken, view) || !replay) {
        var b := Welcome(rule, taken, view);
        GreedySnoc(rule, views, rows, chosen, b);
        if b {
          TracksMore(rule, taken, s, view.candidate);
          var s' := Add(s, view.candidate);
          StateTracks(rule, taken + [view.candidate], s');
          SomeTotal(rule, taken, view);
          if |s'.selected| == Total(rule.counts) {
            all := chosen + [b];
          } else {
            StillMissing(rule, s, s');
            all := PickEnds(rule, views, rows, replay, chosen + [b], s');
          }
        } else {
          assert taken + [] == taken;
          all := PickEnds(rule, views, rows, replay, chosen + [b], s);
        }
      }
    }
  }

  lemma StateTracks(rule: Rule, taken: seq<Candidate>, s: Selection)
    requires Tracks(rule, taken, s)
    ensures s.selected == taken
  {
  }

  lemma GreedyWithin(rule: Rule, views: int -> View, rows: seq<int>, chosen: seq<bool>)
    requires Greedy(rule, views, rows, chosen)
    ensures |chosen| <= |rows|
  {
  }

  /** Where a row is taken, the tiers have room for some prompts. */
  lemma SomeTotal(rule: Rule, taken: seq<Candidate>, view: View)
    requires Welcome(rule, taken, view)
    ensures Total(rule.counts) > 0
  {
    hide OfTier;
    if Total(rule.counts) == 0 {
      ZeroTotal(rule.counts, view.candidate.tier);
    }
  }

  lemma StillMissing(rule: Rule, s: Selection, s': Selection)
    requires Missing(rule, s.selected) && |s'.selected| == |s.selected| + 1 != Total(rule.counts) && Total(rule.counts) > 0
    ensures Missing(rule, s'.selected)
  {
  }

  // ---------------------------------------------------------------------------
  // Sampling and replaying

  /** A fresh sampling takes greedily from the seed order until nothing is missing; it fails where a row
      it looks at cannot be fetched, or when the order is at its end. */
  lemma SamplingMeans(rule: Rule, views: int -> View, digest: seq<Candidate> -> int) returns (chosen: seq<bool>)
    ensures var r := Generate(rule, views, digest, None);
            && Greedy(rule, views, rule.order, chosen)
            && var taken := Taken(views, rule.order, chosen, |chosen|);
               if r.Ok? then
                 r.value == Receipt(seq(|taken|, i requires 0 <= i < |taken| => taken[i].row), taken, digest(taken))
                 && |taken| == Total(rule.counts) && (Missing(rule, taken) ==> |chosen| == |rule.order|)
               else if |chosen| == |rule.order| then r.error == InsufficientPrompts && |taken| != Total(rule.counts)
               else Missing(rule, taken) && views(rule.order[|chosen|]).FetchFailed? && r.error == RowFetchFailed
  {
    hide Greedy, Taken, Pick, Welcome, Refusal, Missing;
    chosen := Walk(rule, views, rule.order, false);
  }

  /** Replaying a receipt takes all of its rows or fails at the first that is not welcome, and says why;
      what it takes must be the receipt again. */
  lemma ReplayMeans(rule: Rule, views: int -> View, digest: seq<Candidate> -> int, receipt: Receipt) returns (chosen: seq<bool>)
    ensures var r, rows := Generate(rule, views, digest, Some(receipt)), receipt.rows;
            if |rows| != Total(rule.counts) || !(forall i, j :: 0 <= i < j < |rows| ==> rows[i] != rows[j]) || !(forall x :: x in rows ==> x in rule.order)
            then r == Err(InvalidReceiptRows)
            else
              && Greedy(rule, views, rows, chosen) && (forall n :: 0 <= n < |chosen| ==> chosen[n])
              && var taken := Taken(views, rows, chosen, |chosen|);
                 if |chosen| < |rows| then
                   Missing(rule, taken) && !Welcome(rule, taken, views(rows[|chosen|]))
                   && r == Err(if views(rows[|chosen|]).FetchFailed? then RowFetchFailed else Refusal(rule, views(rows[|chosen|]), taken))
                 else if receipt == Receipt(seq(|taken|, i requires 0 <= i < |taken| => taken[i].row), taken, digest(taken)) then r == Ok(receipt)
                 else r == Err(ReceiptNotReproduced)
  {
    hide Taken, Pick, Refusal, Total;
    var rows := receipt.rows;
    chosen := [];
    GoodRowsMeans(rule, rows);
    if GoodRows(rule, rows) {
      chosen := Walk(rule, views, rows, true);
      AllTaken(rule, views, rows, chosen, |chosen|);
    }
  }

  lemma GoodRowsMeans(rule: Rule, rows: seq<int>)
    ensures GoodRows(rule, rows) <==>
            |rows| == Total(rule.counts) && (forall i, j :: 0 <= i < j < |rows| ==> rows[i] != rows[j]) && forall x :: x in rows ==> x in rule.order
  {
    hide Total;
    forall i | 0 <= i < |rows| ensures rows[i] in rows {
    }
    forall x | x in rows ensures exists i :: 0 <= i < |rows| && rows[i] == x {
    }
  }

  lemma Walk(rule: Rule, views: int -> View, rows: seq<int>, replay: bool) returns (chosen: seq<bool>)
    ensures Ends(rule, views, rows, replay, chosen, Pick(rule, views, rows, replay, Start(rule)))
  {
    hide Pick, Welcome, Refusal, LookAt, Ends;
    TracksStart(rule);
    assert rows[0..] == rows;
    chosen := PickEnds(rule, views, rows, replay, [], Start(rule));
  }

  lemma {:induction false} AllTaken(rule: Rule, views: int -> View, rows: seq<int>, chosen: seq<bool>, n: nat)
    requires Greedy(rule, views, rows, chosen) && n <= |chosen| && forall i :: 0 <= i < |chosen| ==> chosen[i]
    ensures |Taken(views, rows, chosen, n)| == n
  {
    hide OfTier;
    if n > 0 {
      AllTaken(rule, views, rows, chosen, n - 1);
    }
  }
}
