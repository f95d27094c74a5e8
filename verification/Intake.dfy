/** Taking in submissions: one sequential watcher looks at commitments and inserts submissions,
    while operators carry submissions over, exclude hotkeys and waive exclusions in between. Each
    database transaction is one atomic step. */
module Intake {
  import opened Basics
  import opened Sorting

  /** A fee payment: block and extrinsic index. */
  datatype PaymentRef = PaymentRef(block: nat, tx: nat)

  datatype Submission = Submission(
    campaign: nat, patch: nat, hotkey: nat, fingerprint: Option<nat>, payment: Option<PaymentRef>,
    duplicate: bool, job: bool)

  /** What a caller asks to insert. */
  datatype Request = Request(campaign: nat, patch: nat, hotkey: nat, fingerprint: Option<nat>, payment: Option<PaymentRef>)

  /** An operator's entry about a hotkey in a campaign: a disqualification or its waiver. */
  datatype Action = Action(campaign: nat, hotkey: nat, waived: bool)

  /** The tables: submissions and operator actions, both in order of insertion and append-only. */
  datatype Database = Database(submissions: seq<Submission>, actions: seq<Action>)

  /** A commitment on chain, with what the watcher's checks on it come out as. */
  datatype Commitment = Commitment(
    campaign: nat, patch: nat, hotkey: nat, commitBlock: nat, payment: Option<PaymentRef>,
    campaignOpen: bool, eligible: bool, exempt: bool, feeDue: bool, paymentVerified: bool, intact: bool, fingerprint: nat)

  // ---------------------------------------------------------------------------
  // Single transactions

  /** Some submission of the campaign already has this fingerprint. */
  predicate Seen(submissions: seq<Submission>, campaign: nat, fingerprint: Option<nat>) {
    fingerprint.Some? && exists s :: s in submissions && s.campaign == campaign && s.fingerprint == fingerprint
  }

  predicate Present(submissions: seq<Submission>, campaign: nat, patch: nat) {
    exists s :: s in submissions && s.campaign == campaign && s.patch == patch
  }

  predicate Consumed(submissions: seq<Submission>, payment: PaymentRef) {
    exists s :: s in submissions && s.payment == Some(payment)
  }

  /** The latest entry about the hotkey, if any, is a disqualification. */
  predicate Excluded(actions: seq<Action>, campaign: nat, hotkey: nat) {
    if actions == [] then false
    else
      var last := actions[|actions| - 1];
      if last.campaign == campaign && last.hotkey == hotkey then !last.waived
      else Excluded(actions[..|actions| - 1], campaign, hotkey)
  }

  ghost predicate About(a: Action, campaign: nat, hotkey: nat) {
    a.campaign == campaign && a.hotkey == hotkey
  }

  /** A hotkey is excluded exactly when some disqualification of it has no later entry. */
  lemma {:induction false} ExcludedMeans(actions: seq<Action>, campaign: nat, hotkey: nat)
    ensures Excluded(actions, campaign, hotkey) <==>
            exists i :: 0 <= i < |actions| && About(actions[i], campaign, hotkey) && !actions[i].waived
                        && forall j :: i < j < |actions| ==> !About(actions[j], campaign, hotkey)
  {
    if actions != [] {
      var n := |actions| - 1;
      var init := actions[..n];
      if About(actions[n], campaign, hotkey) {
        assert !actions[n].waived ==> exists i :: i == n && About(actions[i], campaign, hotkey) && !actions[i].waived;
      } else {
        ExcludedMeans(init, campaign, hotkey);
        if Excluded(init, campaign, hotkey) {
          var i :| 0 <= i < n && About(init[i], campaign, hotkey) && !init[i].waived
                   && forall j :: i < j < n ==> !About(init[j], campaign, hotkey);
          assert About(actions[i], campaign, hotkey);
          forall j | i < j < |actions| ensures !About(actions[j], campaign, hotkey) {
            assert j < n ==> actions[j] == init[j];
          }
        }
        if i :| 0 <= i < |actions| && About(actions[i], campaign, hotkey) && !actions[i].waived
                && forall j :: i < j < |actions| ==> !About(actions[j], campaign, hotkey) {
          assert init[i] == actions[i];
        }
      }
    }
  }

  /** The insert transaction: refused for an excluded hotkey and for a patch already present; a
      fingerprint seen before makes the submission a rejected duplicate without a job. */
  ghost function Inserted(db: Database, r: Request): Database {
    if Excluded(db.actions, r.campaign, r.hotkey) || Present(db.submissions, r.campaign, r.patch) then db
    else db.(submissions := db.submissions + [Recorded(db, r)])
  }

  ghost function Recorded(db: Database, r: Request): Submission {
    var duplicate := Seen(db.submissions, r.campaign, r.fingerprint);
    Submission(r.campaign, r.patch, r.hotkey, r.fingerprint, r.payment, duplicate, !duplicate)
  }

  class Store {
    var submissions: seq<Submission>
    var actions: seq<Action>

    ghost function State(): Database
      reads this
    {
      Database(submissions, actions)
    }

    constructor ()
      ensures State() == Database([], [])
    {
      submissions, actions := [], [];
    }

    /** Insert a submission in one transaction; returns its position unless it is refused or a
        duplicate. */
    method InsertSubmission(r: Request) returns (id: Option<nat>)
      modifies this`submissions
      ensures State() == Inserted(old(State()), r)
      ensures id.Some? <==> |submissions| > |old(submissions)| && submissions[|old(submissions)|].job
      ensures id.Some? ==> id.value == |old(submissions)|
    {
      if Excluded(actions, r.campaign, r.hotkey) {
        return None;
      }
      var duplicate := r.fingerprint.Some? && Seen(submissions, r.campaign, r.fingerprint);
      if Present(submissions, r.campaign, r.patch) {
        return None;
      }
      id := if duplicate then None else Some(|submissions|);
      submissions := submissions
        + [Submission(r.campaign, r.patch, r.hotkey, r.fingerprint, r.payment, duplicate, !duplicate)];
    }

    /** Whether the commitment's fee proof holds up. */
    method CheckFeeProof(c: Commitment) returns (ok: bool)
      ensures ok <==> ProofHolds(State(), c)
    {
      if c.payment.None? {
        return false;
      }
      if c.payment.value.block > c.commitBlock {
        return false;
      }
      if Consumed(submissions, c.payment.value) {
        return false;
      }
      return c.paymentVerified;
    }

    /** The watcher's checks on a commitment, up to the insert. */
    method CheckCommitment(c: Commitment) returns (request: Option<Request>)
      ensures request == Checked(State(), c)
    {
      if !c.campaignOpen || Present(submissions, c.campaign, c.patch) || !c.eligible {
        return None;
      }
      var payment := None;
      if !c.exempt {
        var ok := true;
        if c.feeDue || c.payment.Some? {
          ok := CheckFeeProof(c);
        }
        if !ok {
          return None;
        }
        payment := c.payment;
      }
      if !c.intact {
        return None;
      }
      return Some(Request(c.campaign, c.patch, c.hotkey, Some(c.fingerprint), payment));
    }

    /** The watcher takes in one commitment while nobody else writes. */
    method IngestCommitment(c: Commitment) returns (id: Option<nat>)
      modifies this`submissions
      ensures State() == Ingested(old(State()), c)
      ensures id.Some? <==> |submissions| > |old(submissions)| && submissions[|old(submissions)|].job
    {
      var request := CheckCommitment(c);
      if request.None? {
        return None;
      }
      id := InsertSubmission(request.value);
    }

    /** One scan of the chain: commitments are taken in by commit block, then hotkey. */
    method ScanChain(commitments: seq<Commitment>) returns (ordered: seq<Commitment>, ghost states: seq<Database>)
      modifies this`submissions
      ensures multiset(ordered) == multiset(commitments) && Ascending(ordered, Chronological)
      ensures Scan(states, ordered) && states[0] == old(State()) && states[|ordered|] == State()
    {
      ChronologicalTotal();
      SortAscending(commitments, Chronological);
      ordered := Sort(commitments, Chronological);
      states := [State()];
      for k := 0 to |ordered|
        invariant |states| == k + 1 && states[0] == old(State()) && states[k] == State()
        invariant forall i :: 0 <= i < k ==> states[i + 1] == Ingested(states[i], ordered[i])
      {
        var _ := IngestCommitment(ordered[k]);
        states := states + [State()];
      }
    }
  }

  /** Chain order: by block, ties by hotkey. */
  predicate Chronological(a: Commitment, b: Commitment) {
    a.commitBlock < b.commitBlock || (a.commitBlock == b.commitBlock && a.hotkey <= b.hotkey)
  }

  ghost predicate ProofHolds(db: Database, c: Commitment) {
    && c.payment.Some? && c.payment.value.block <= c.commitBlock
    && !Consumed(db.submissions, c.payment.value) && c.paymentVerified
  }

  /** Nothing but a patch that is already present stands in the way of the commitment. */
  ghost predicate Acceptable(db: Database, c: Commitment) {
    && c.campaignOpen && c.eligible && c.intact
    && (c.exempt || (!c.feeDue && c.payment.None?) || ProofHolds(db, c))
  }

  ghost function RequestOf(c: Commitment): Request {
    Request(c.campaign, c.patch, c.hotkey, Some(c.fingerprint), if c.exempt then None else c.payment)
  }

  /** What the watcher decides to insert for a commitment, if anything. */
  ghost function Checked(db: Database, c: Commitment): Option<Request> {
    if Acceptable(db, c) && !Present(db.submissions, c.campaign, c.patch) then Some(RequestOf(c)) else None
  }

  ghost function Ingested(db: Database, c: Commitment): Database {
    if Checked(db, c).Some? then Inserted(db, Checked(db, c).value) else db
  }

  // ---------------------------------------------------------------------------
  // One scan

  /** The tables before and after each commitment of a scan. */
  ghost predicate Scan(states: seq<Database>, ordered: seq<Commitment>) {
    && |states| == |ordered| + 1
    && forall i :: 0 <= i < |ordered| ==> states[i + 1] == Ingested(states[i], ordered[i])
  }

  /** At its turn nothing but an earlier copy of the patch stands in the way of commitment `k`. */
  ghost predicate Admissible(states: seq<Database>, ordered: seq<Commitment>, k: nat)
    requires k < |ordered| && |states| == |ordered| + 1
  {
    Acceptable(states[k], ordered[k]) && !Excluded(states[k].actions, ordered[k].campaign, ordered[k].hotkey)
  }

  ghost predicate For(c: Commitment, campaign: nat, patch: nat) {
    c.campaign == campaign && c.patch == patch
  }

  lemma IngestPresence(db: Database, c: Commitment, campaign: nat, patch: nat)
    ensures Present(Ingested(db, c).submissions, campaign, patch) <==>
            Present(db.submissions, campaign, patch)
            || (For(c, campaign, patch) && Acceptable(db, c) && !Excluded(db.actions, campaign, c.hotkey))
  {
    hide Excluded, Acceptable;
    var after := Ingested(db, c);
    if after.submissions != db.submissions {
      assert after.submissions == db.submissions + [Recorded(db, RequestOf(c))];
      assert Recorded(db, RequestOf(c)) in after.submissions;
      forall s | s in db.submissions ensures s in after.submissions {
      }
    }
  }

  /** A patch absent before commitment `k` was not admissible from anyone earlier, and from then on
      the other way round. */
  lemma {:induction false} PresentAfter(states: seq<Database>, ordered: seq<Commitment>, k: nat, campaign: nat, patch: nat)
    requires Scan(states, ordered) && k <= |ordered|
    requires !Present(states[0].submissions, campaign, patch)
    ensures Present(states[k].submissions, campaign, patch) <==>
            exists i :: 0 <= i < k && For(ordered[i], campaign, patch) && Admissible(states, ordered, i)
  {
    hide Present, Excluded, Acceptable, Ingested;
    if k > 0 {
      PresentAfter(states, ordered, k - 1, campaign, patch);
      IngestPresence(states[k - 1], ordered[k - 1], campaign, patch);
    }
  }

  /** A patch that was not there before the scan is won by the earliest admissible commitment for it:
      commitment `k` adds a submission exactly when it is admissible and no earlier one for the same
      patch was. */
  lemma EarliestWins(states: seq<Database>, ordered: seq<Commitment>, k: nat)
    requires Scan(states, ordered) && k < |ordered|
    requires !Present(states[0].submissions, ordered[k].campaign, ordered[k].patch)
    ensures (states[k + 1] != states[k]) <==>
            Admissible(states, ordered, k)
            && forall i :: 0 <= i < k && For(ordered[i], ordered[k].campaign, ordered[k].patch) ==>
                             !Admissible(states, ordered, i)
    ensures states[k + 1] != states[k] ==>
              states[k + 1] == states[k].(submissions := states[k].submissions + [Recorded(states[k], RequestOf(ordered[k]))])
  {
    hide Present, Excluded, Acceptable, Recorded;
    PresentAfter(states, ordered, k, ordered[k].campaign, ordered[k].patch);
    var grown := states[k].submissions + [Recorded(states[k], RequestOf(ordered[k]))];
    assert |grown| == |states[k].submissions| + 1;
  }

  lemma ChronologicalTotal()
    ensures TotalOrder(Chronological)
  {
  }

  // ---------------------------------------------------------------------------
  // Runs

  /** The tables and what the watcher has checked but not inserted yet. */
  datatype State = State(db: Database, pending: Option<Request>)

  datatype Step =
    | Look(commitment: Commitment)              // the watcher checks a commitment
    | Insert                                    // the watcher inserts what it has checked
    | CarryOver(request: Request)               // an operator carries a submission over, without a payment
    | Exclude(campaign: nat, hotkey: nat)       // an operator excludes a hotkey
    | Waive(campaign: nat, hotkey: nat)         // an operator waives an exclusion

  ghost predicate Enabled(s: State, step: Step) {
    match step
    case Look(_) => s.pending.None?
    case Insert => s.pending.Some?
    case CarryOver(r) => r.payment.None?
    case _ => true
  }

  ghost function Apply(s: State, step: Step): State
    requires Enabled(s, step)
  {
    match step
    case Look(c) => s.(pending := Checked(s.db, c))
    case Insert => State(Inserted(s.db, s.pending.value), None)
    case CarryOver(r) => s.(db := Inserted(s.db, r))
    case Exclude(c, h) => s.(db := s.db.(actions := s.db.actions + [Action(c, h, false)]))
    case Waive(c, h) => s.(db := s.db.(actions := s.db.actions + [Action(c, h, true)]))
  }

  ghost predicate Run(states: seq<State>, steps: seq<Step>) {
    && |states| == |steps| + 1
    && states[0] == State(Database([], []), None)
    && forall i :: 0 <= i < |steps| ==> Enabled(states[i], steps[i]) && states[i + 1] == Apply(states[i], steps[i])
  }

  /** One campaign never holds a patch twice. */
  ghost predicate PatchesUnique(submissions: seq<Submission>) {
    forall i, j :: 0 <= i < j < |submissions| ==>
      submissions[i].campaign != submissions[j].campaign || submissions[i].patch != submissions[j].patch
  }

  /** Of the submissions with one fingerprint in a campaign the first has a job, and the rest are
      rejected duplicates without one. */
  ghost predicate FirstWins(submissions: seq<Submission>) {
    forall j :: 0 <= j < |submissions| ==>
      && submissions[j].job == !submissions[j].duplicate
      && submissions[j].duplicate == Seen(submissions[..j], submissions[j].campaign, submissions[j].fingerprint)
  }

  /** No payment backs two submissions. */
  ghost predicate PaymentsUnique(submissions: seq<Submission>) {
    forall i, j :: 0 <= i < j < |submissions| && submissions[i].payment.Some? ==>
      submissions[i].payment != submissions[j].payment
  }

  ghost predicate Inv(s: State) {
    && PatchesUnique(s.db.submissions)
    && FirstWins(s.db.submissions)
    && PaymentsUnique(s.db.submissions)
    && (s.pending.Some? && s.pending.value.payment.Some? ==> !Consumed(s.db.submissions, s.pending.value.payment.value))
  }

  lemma InsertFirstWins(db: Database, r: Request)
    requires FirstWins(db.submissions)
    ensures FirstWins(Inserted(db, r).submissions)
  {
    hide Seen, Present, Excluded;
    var before, after := db.submissions, Inserted(db, r).submissions;
    if after != before {
      forall j | 0 <= j < |after|
        ensures after[j].job == !after[j].duplicate
        ensures after[j].duplicate == Seen(after[..j], after[j].campaign, after[j].fingerprint)
      {
        assert after[..j] == before[..j];
        assert before[..|before|] == before;
      }
    }
  }

  lemma InsertKeeps(db: Database, r: Request)
    requires PatchesUnique(db.submissions) && FirstWins(db.submissions) && PaymentsUnique(db.submissions)
    requires r.payment.Some? ==> !Consumed(db.submissions, r.payment.value)
    ensures PatchesUnique(Inserted(db, r).submissions) && FirstWins(Inserted(db, r).submissions)
    ensures PaymentsUnique(Inserted(db, r).submissions)
  {
    hide FirstWins, Excluded, Seen;
    InsertFirstWins(db, r);
    forall i | 0 <= i < |db.submissions| ensures db.submissions[i] in db.submissions {
    }
  }

  /** Submissions without a payment consume none. */
  lemma InsertConsumes(db: Database, r: Request, payment: PaymentRef)
    requires !Consumed(db.submissions, payment) && r.payment.None?
    ensures !Consumed(Inserted(db, r).submissions, payment)
  {
  }

  lemma StepKeeps(s: State, step: Step)
    requires Inv(s) && Enabled(s, step)
    ensures Inv(Apply(s, step))
  {
    hide Inserted, PatchesUnique, FirstWins, PaymentsUnique, Consumed;
    match step
    case Look(c) =>
    case Insert => InsertKeeps(s.db, s.pending.value);
    case CarryOver(r) =>
      InsertKeeps(s.db, r);
      if s.pending.Some? && s.pending.value.payment.Some? {
        InsertConsumes(s.db, r, s.pending.value.payment.value);
      }
    case Exclude(_, _) =>
    case Waive(_, _) =>
  }

  /** Every state of every run keeps patches unique, lets only the first of a fingerprint have a job,
      and uses no payment twice. */
  lemma {:induction false} RunIsSafe(states: seq<State>, steps: seq<Step>, i: nat)
    requires Run(states, steps) && i < |states|
    ensures Inv(states[i])
  {
    hide Inv, Apply, Enabled;
    if i == 0 {
      InitialHolds();
    } else {
      RunIsSafe(states, steps, i - 1);
      assert Enabled(states[i - 1], steps[i - 1]);
      StepKeeps(states[i - 1], steps[i - 1]);
    }
  }

  lemma InitialHolds()
    ensures Inv(State(Database([], []), None))
  {
  }

  /** A step only ever adds at the end, and never for a hotkey that is excluded at that moment. */
  lemma NeverForExcluded(states: seq<State>, steps: seq<Step>, i: nat)
    requires Run(states, steps) && i < |steps|
    ensures states[i].db.submissions <= states[i + 1].db.submissions
    ensures |states[i + 1].db.submissions| <= |states[i].db.submissions| + 1
    ensures |states[i + 1].db.submissions| > |states[i].db.submissions| ==>
              var added := states[i + 1].db.submissions[|states[i].db.submissions|];
              !Excluded(states[i].db.actions, added.campaign, added.hotkey)
  {
    assert Enabled(states[i], steps[i]);
  }
}
