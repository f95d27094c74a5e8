/** Sampling long-form prompts, and replaying a sampling receipt: the receipt of any successful
    sampling selects the same prompts in the same order again and is reproduced exactly. */
module LongformSampling {
  import opened Basics
  import opened Counting

  datatype Candidate = Candidate(row: int, prompt: int, tier: nat, session: int)

  /** What fetching and rendering one row gives, the same every time. */
  datatype View = FetchFailed | RenderFailed | Ineligible | Eligible(candidate: Candidate)

  datatype Error =
    | RowFetchFailed | PromptRenderFailed | InvalidReceiptRows | IneligibleReceiptRow | RepeatedSession | TierQuotaExceeded
    | InsufficientPrompts | ReceiptNotReproduced

  /** The sampling rule: prompts per tier, whether sessions must differ, and the rows in seed order. */
  datatype Rule = Rule(counts: seq<nat>, v6: bool, order: seq<int>)

  datatype Receipt = Receipt(rows: seq<int>, requests: seq<Candidate>, digest: int)

  // ---------------------------------------------------------------------------
  // The selection

  datatype Selection = Selection(remaining: seq<nat>, selected: seq<Candidate>, prompts: set<int>, sessions: set<int>)

  function Total(counts: seq<nat>): nat {
    if counts == [] then 0 else Total(counts[..|counts| - 1]) + counts[|counts| - 1]
  }

  function Start(rule: Rule): Selection {
    Selection(rule.counts, [], {}, {})
  }

  /** What looking at one row does: nothing, an error, or one more selected prompt. */
  datatype Look = Skip | Fail(error: Error) | Take(candidate: Candidate)

  function LookAt(rule: Rule, view: View, replay: bool, s: Selection): Look {
    match view
    case FetchFailed => Fail(RowFetchFailed)
    case RenderFailed => if replay then Fail(PromptRenderFailed) else Skip
    case Ineligible => if replay then Fail(IneligibleReceiptRow) else Skip
    case Eligible(c) =>
      if c.prompt in s.prompts then (if replay then Fail(IneligibleReceiptRow) else Skip)
      else if rule.v6 && c.session in s.sessions then (if replay then Fail(RepeatedSession) else Skip)
      else if c.tier >= |s.remaining| || s.remaining[c.tier] == 0 then (if replay then Fail(TierQuotaExceeded) else Skip)
      else Take(c)
  }

  function Add(s: Selection, c: Candidate): Selection
    requires c.tier < |s.remaining| && s.remaining[c.tier] > 0
  {
    Selection(s.remaining[c.tier := s.remaining[c.tier] - 1], s.selected + [c], s.prompts + {c.prompt}, s.sessions + {c.session})
  }

  /** Go through the rows until enough prompts are selected. */
  ghost function Pick(rule: Rule, views: int -> View, indices: seq<int>, replay: bool, s: Selection): Result<Selection, Error>
    decreases |indices|
  {
    if indices == [] then
      if |s.selected| == Total(rule.counts) then Ok(s) else Err(InsufficientPrompts)
    else
      match LookAt(rule, views(indices[0]), replay, s)
      case Fail(error) => Err(error)
      case Skip => Pick(rule, views, indices[1..], replay, s)
      case Take(c) =>
        var s' := Add(s, c);
        if |s'.selected| == Total(rule.counts) then Ok(s') else Pick(rule, views, indices[1..], replay, s')
  }

  function Rows(selected: seq<Candidate>): seq<int> {
    seq(|selected|, i requires 0 <= i < |selected| => selected[i].row)
  }

  /** A view of a row is of that row. */
  ghost predicate Faithful(views: int -> View) {
    forall i :: views(i).Eligible? ==> views(i).candidate.row == i
  }

  // ---------------------------------------------------------------------------
  // What a selection satisfies

  ghost predicate Sound(rule: Rule, s: Selection) {
    && |s.remaining| == |rule.counts|
    && |s.selected| + Total(s.remaining) == Total(rule.counts)
    && (forall t :: 0 <= t < |rule.counts| ==> InTier(s.selected, t) + s.remaining[t] == rule.counts[t])
    && (forall i, j :: 0 <= i < j < |s.selected| ==> s.selected[i].prompt != s.selected[j].prompt)
    && (rule.v6 ==> forall i, j :: 0 <= i < j < |s.selected| ==> s.selected[i].session != s.selected[j].session)
    && s.prompts == (set c | c in s.selected :: c.prompt)
    && s.sessions == (set c | c in s.selected :: c.session)
  }

  ghost function InTier(selected: seq<Candidate>, t: nat): nat {
    if selected == [] then 0
    else InTier(selected[..|selected| - 1], t) + if selected[|selected| - 1].tier == t then 1 else 0
  }

  lemma {:induction false} TotalUpdate(counts: seq<nat>, t: nat, x: nat)
    requires t < |counts|
    ensures Total(counts[t := x]) == Total(counts) - counts[t] + x
  {
    var last := |counts| - 1;
    if t == last {
      assert counts[t := x][..last] == counts[..last];
    } else {
      TotalUpdate(counts[..last], t, x);
      assert counts[t := x][..last] == counts[..last][t := x];
    }
  }

  lemma StartSound(rule: Rule)
    ensures Sound(rule, Start(rule))
  {
  }

  lemma AddSound(rule: Rule, s: Selection, c: Candidate)
    requires Sound(rule, s) && c.tier < |s.remaining| && s.remaining[c.tier] > 0
    requires c.prompt !in s.prompts && (rule.v6 ==> c.session !in s.sessions)
    ensures Sound(rule, Add(s, c))
  {
    hide Total;
    var s' := Add(s, c);
    assert s'.selected[..|s.selected|] == s.selected;
    TotalUpdate(s.remaining, c.tier, s.remaining[c.tier] - 1);
    SetsGrow(s.selected, c);
    forall i | 0 <= i < |s.selected| ensures s.selected[i].prompt != c.prompt && (rule.v6 ==> s.selected[i].session != c.session) {
      assert s.selected[i] in s.selected;
      assert s.selected[i].prompt in s.prompts && s.selected[i].session in s.sessions;
    }
  }

  lemma SetsGrow(selected: seq<Candidate>, c: Candidate)
    ensures (set d | d in selected + [c] :: d.prompt) == (set d | d in selected :: d.prompt) + {c.prompt}
    ensures (set d | d in selected + [c] :: d.session) == (set d | d in selected :: d.session) + {c.session}
  {
  }

  lemma {:induction false} ZeroTotal(counts: seq<nat>, t: nat)
    requires Total(counts) == 0 && t < |counts|
    ensures counts[t] == 0
  {
    if t < |counts| - 1 {
      ZeroTotal(counts[..|counts| - 1], t);
    }
  }

  /** Every successful selection fills each tier exactly with distinct prompts, from distinct
      sessions in version 6. */
  lemma {:induction false} PickSound(rule: Rule, views: int -> View, indices: seq<int>, replay: bool, s: Selection)
    requires Sound(rule, s) && Pick(rule, views, indices, replay, s).Ok?
    ensures Sound(rule, Pick(rule, views, indices, replay, s).value)
    ensures forall t: nat :: t < |rule.counts| ==>
              InTier(Pick(rule, views, indices, replay, s).value.selected, t) == rule.counts[t]
    decreases |indices|
  {
    hide Sound;
    if indices == [] {
      FullTiers(rule, s);
    } else {
      match LookAt(rule, views(indices[0]), replay, s)
      case Skip => PickSound(rule, views, indices[1..], replay, s);
      case Take(c) =>
        SoundShape(rule, s);
        AddSound(rule, s, c);
        if |Add(s, c).selected| == Total(rule.counts) {
          FullTiers(rule, Add(s, c));
        } else {
          PickSound(rule, views, indices[1..], replay, Add(s, c));
        }
    }
  }

  lemma SoundShape(rule: Rule, s: Selection)
    requires Sound(rule, s)
    ensures |s.remaining| == |rule.counts|
  {
  }

  lemma FullTiers(rule: Rule, s: Selection)
    requires Sound(rule, s) && |s.selected| == Total(rule.counts)
    ensures forall t: nat :: t < |rule.counts| ==> InTier(s.selected, t) == rule.counts[t]
  {
    forall t: nat | t < |rule.counts| ensures s.remaining[t] == 0 {
      ZeroTotal(s.remaining, t);
    }
  }

  // ---------------------------------------------------------------------------
  // Replay

  /** A taken row's candidate is the next of the list. */
  lemma TakenRow(rule: Rule, views: int -> View, i: int, replay: bool, s: Selection)
    requires Faithful(views)
    ensures LookAt(rule, views(i), replay, s).Take? ==> LookAt(rule, views(i), replay, s).candidate.row == i
  {
  }

  /** Selections only ever grow at the end, by rows of the list. */
  lemma {:induction false} PickExtends(rule: Rule, views: int -> View, indices: seq<int>, replay: bool, s: Selection)
    requires Faithful(views) && Pick(rule, views, indices, replay, s).Ok?
    ensures s.selected <= Pick(rule, views, indices, replay, s).value.selected
    ensures forall r :: r in Rows(Pick(rule, views, indices, replay, s).value.selected[|s.selected|..]) ==> r in indices
    ensures Distinct(indices) ==>
              Distinct(Rows(Pick(rule, views, indices, replay, s).value.selected[|s.selected|..]))
    decreases |indices|
  {
    hide Faithful, LookAt, Add, Distinct;
    var all := Pick(rule, views, indices, replay, s).value.selected;
    if indices == [] {
      assert Rows(all[|s.selected|..]) == [];
      NothingRepeats();
    } else {
      var head, rest := indices[0], indices[1..];
      assert indices == [head] + rest;
      TakenRow(rule, views, head, replay, s);
      TakeFits(rule, views(head), replay, s);
      DistinctTail(head, rest);
      match LookAt(rule, views(head), replay, s)
      case Skip => PickExtends(rule, views, rest, replay, s);
      case Take(c) =>
        var s' := Add(s, c);
        AddAppends(s, c);
        if |s'.selected| != Total(rule.counts) {
          PickExtends(rule, views, rest, replay, s');
        }
        var tail := Rows(all[|s'.selected|..]);
        assert all[|s.selected|] == c;
        assert Rows(all[|s.selected|..]) == [c.row] + tail;
        if |s'.selected| == Total(rule.counts) {
          assert tail == [];
          NothingRepeats();
        }
        DistinctTail(c.row, tail);
    }
  }

  lemma NothingRepeats()
    ensures Distinct<int>([])
  {
  }

  lemma DistinctTail(x: int, s: seq<int>)
    ensures Distinct([x] + s) <==> x !in s && Distinct(s)
  {
    var all := [x] + s;
    assert all[0] == x && forall i :: 0 <= i < |s| ==> all[i + 1] == s[i];
    if Distinct(all) {
      forall i, j | 0 <= i < j < |s| ensures s[i] != s[j] {
        assert all[i + 1] != all[j + 1];
      }
    }
  }

  /** Going through exactly the selected rows, without permission to skip, selects them again. */
  lemma {:induction false} ReplaySelects(rule: Rule, views: int -> View, indices: seq<int>, s: Selection)
    requires Faithful(views) && Pick(rule, views, indices, false, s).Ok? && |s.selected| < Total(rule.counts)
    ensures var picked := Pick(rule, views, indices, false, s).value;
            && s.selected <= picked.selected
            && Pick(rule, views, Rows(picked.selected[|s.selected|..]), true, s) == Ok(picked)
    decreases |indices|
  {
    hide Add;
    var picked := Pick(rule, views, indices, false, s).value;
    PickExtends(rule, views, indices, false, s);
    match LookAt(rule, views(indices[0]), false, s)
    case Skip => ReplaySelects(rule, views, indices[1..], s);
    case Take(c) =>
      var s' := Add(s, c);
      AddAppends(s, c);
      if |s'.selected| != Total(rule.counts) {
        ReplaySelects(rule, views, indices[1..], s');
      }
      var rows := Rows(picked.selected[|s.selected|..]);
      assert picked.selected[|s.selected|] == c;
      assert rows[0] == c.row == indices[0];
      assert rows[1..] == Rows(picked.selected[|s'.selected|..]);
      assert LookAt(rule, views(rows[0]), true, s) == Take(c);
  }

  lemma AddAppends(s: Selection, c: Candidate)
    requires c.tier < |s.remaining| && s.remaining[c.tier] > 0
    ensures Add(s, c).selected == s.selected + [c]
  {
  }

  // ---------------------------------------------------------------------------
  // The whole generation

  function MakeReceipt(selected: seq<Candidate>, digest: seq<Candidate> -> int): Receipt {
    Receipt(Rows(selected), selected, digest(selected))
  }

  predicate GoodRows(rule: Rule, rows: seq<int>) {
    |rows| == Total(rule.counts) && (forall i, j :: 0 <= i < j < |rows| ==> rows[i] != rows[j])
      && forall i :: 0 <= i < |rows| ==> rows[i] in rule.order
  }

  /** Generate a trace's receipt from the seed order, or from a receipt to be reproduced. */
  ghost function Generate(rule: Rule, views: int -> View, digest: seq<Candidate> -> int, receipt: Option<Receipt>)
    : Result<Receipt, Error>
  {
    if receipt.Some? && !GoodRows(rule, receipt.value.rows) then Err(InvalidReceiptRows)
    else
      var indices := if receipt.Some? then receipt.value.rows else rule.order;
      match Pick(rule, views, indices, receipt.Some?, Start(rule))
      case Err(error) => Err(error)
      case Ok(s) =>
        var made := MakeReceipt(s.selected, digest);
        if receipt.Some? && made != receipt.value then Err(ReceiptNotReproduced) else Ok(made)
  }

  /** The generation loop. */
  method GenerateTrace(rule: Rule, views: int -> View, digest: seq<Candidate> -> int, receipt: Option<Receipt>)
    returns (r: Result<Receipt, Error>)
    ensures r == Generate(rule, views, digest, receipt)
    ensures r.Ok? ==> Sampled(rule, r.value)
  {
    hide LookAt, Add, Sampled;
    if Generate(rule, views, digest, receipt).Ok? {
      GeneratedIsSampled(rule, views, digest, receipt);
    }
    var indices := rule.order;
    if receipt.Some? {
      indices := receipt.value.rows;
      if !GoodRows(rule, indices) {
        return Err(InvalidReceiptRows);
      }
    }
    var replay, n := receipt.Some?, Total(rule.counts);
    var s := Start(rule);
    ghost var all := Pick(rule, views, indices, replay, s);
    var k, full := 0, false;
    while k < |indices| && !full
      invariant 0 <= k <= |indices|
      invariant full ==> |s.selected| == n && all == Ok(s)
      invariant !full ==> all == Pick(rule, views, indices[k..], replay, s)
    {
      var look := LookAt(rule, views(indices[k]), replay, s);
      assert indices[k..][1..] == indices[k + 1..];
      match look {
        case Fail(error) => return Err(error);
        case Skip =>
        case Take(candidate) =>
          TakeFits(rule, views(indices[k]), replay, s);
          s := Add(s, candidate);
          full := |s.selected| == n;
      }
      k := k + 1;
    }
    if |s.selected| != n {
      return Err(InsufficientPrompts);
    }
    var made := MakeReceipt(s.selected, digest);
    if receipt.Some? && made != receipt.value {
      return Err(ReceiptNotReproduced);
    }
    return Ok(made);
  }

  lemma TakeFits(rule: Rule, view: View, replay: bool, s: Selection)
    ensures LookAt(rule, view, replay, s).Take? ==>
              var c := LookAt(rule, view, replay, s).candidate;
              c.tier < |s.remaining| && s.remaining[c.tier] > 0
  {
  }

  /** What the requests of a receipt have to be: every tier exactly full, no prompt twice and, in
      version 6, no session twice; and the receipt names their rows. */
  ghost predicate Sampled(rule: Rule, receipt: Receipt) {
    && receipt.rows == Rows(receipt.requests) && |receipt.requests| == Total(rule.counts)
    && (forall t: nat :: t < |rule.counts| ==> InTier(receipt.requests, t) == rule.counts[t])
    && (forall i, j :: 0 <= i < j < |receipt.requests| ==> receipt.requests[i].prompt != receipt.requests[j].prompt)
    && (rule.v6 ==> forall i, j :: 0 <= i < j < |receipt.requests| ==>
                      receipt.requests[i].session != receipt.requests[j].session)
  }

  /** Every generated selection, fresh or replayed, fills each tier exactly with distinct prompts and,
      in version 6, distinct sessions. */
  lemma GeneratedIsSampled(rule: Rule, views: int -> View, digest: seq<Candidate> -> int, receipt: Option<Receipt>)
    requires Generate(rule, views, digest, receipt).Ok?
    ensures Sampled(rule, Generate(rule, views, digest, receipt).value)
  {
    hide LookAt, Total, InTier;
    var indices := if receipt.Some? then receipt.value.rows else rule.order;
    StartSound(rule);
    PickSound(rule, views, indices, receipt.Some?, Start(rule));
    PickCount(rule, views, indices, receipt.Some?, Start(rule));
  }

  /** Replaying a receipt that sampling produced reproduces that receipt, and never raises. */
  lemma ReplayReproduces(rule: Rule, views: int -> View, digest: seq<Candidate> -> int)
    requires Faithful(views) && Distinct(rule.order)
    requires Generate(rule, views, digest, None).Ok?
    ensures var receipt := Generate(rule, views, digest, None).value;
            Generate(rule, views, digest, Some(receipt)) == Ok(receipt)
  {
    hide LookAt;
    var receipt := Generate(rule, views, digest, None).value;
    var s := Start(rule);
    var picked := Pick(rule, views, rule.order, false, s).value;
    PickExtends(rule, views, rule.order, false, s);
    PickCount(rule, views, rule.order, false, s);
    if Total(rule.counts) > 0 {
      ReplaySelects(rule, views, rule.order, s);
    }
    assert picked.selected[0..] == picked.selected;
    forall i | 0 <= i < |receipt.rows| ensures receipt.rows[i] in rule.order {
      assert receipt.rows[i] in Rows(picked.selected);
    }
  }

  lemma {:induction false} PickCount(rule: Rule, views: int -> View, indices: seq<int>, replay: bool, s: Selection)
    requires Pick(rule, views, indices, replay, s).Ok?
    ensures |Pick(rule, views, indices, replay, s).value.selected| == Total(rule.counts)
    decreases |indices|
  {
    hide LookAt;
    if indices != [] {
      match LookAt(rule, views(indices[0]), replay, s)
      case Skip => PickCount(rule, views, indices[1..], replay, s);
      case Take(c) =>
        TakeFits(rule, views(indices[0]), replay, s);
        if |Add(s, c).selected| != Total(rule.counts) {
          PickCount(rule, views, indices[1..], replay, Add(s, c));
        }
    }
  }
}
