/** What taking in a commitment comes to, entry by entry, and where every submission of a run comes from. */
module IntakeMeaning {
  import opened Basics
  import opened Sorting
  import opened Intake

  // ---------------------------------------------------------------------------
  // One commitment

  ghost predicate HasPatch(s: seq<Submission>, i: int, campaign: nat, patch: nat) {
    0 <= i < |s| && s[i].campaign == campaign && s[i].patch == patch
  }

  ghost predicate HasFingerprint(s: seq<Submission>, i: int, campaign: nat, fingerprint: nat) {
    0 <= i < |s| && s[i].campaign == campaign && s[i].fingerprint == Some(fingerprint)
  }

  /** The payment of any campaign's submission. */
  ghost predicate HasPayment(s: seq<Submission>, i: int, block: nat, tx: nat) {
    0 <= i < |s| && s[i].payment.Some? && s[i].payment.value.block == block && s[i].payment.value.tx == tx
  }

  /** A disqualification of the hotkey that no later entry about it follows. */
  ghost predicate Bars(actions: seq<Action>, i: int, campaign: nat, hotkey: nat) {
    && 0 <= i < |actions| && actions[i] == Action(campaign, hotkey, false)
    && forall j :: i < j < |actions| ==> actions[j].campaign != campaign || actions[j].hotkey != hotkey
  }

  /** The fee is waived, not due and not paid, or paid in time by a payment that checks out and is new. */
  ghost predicate FeeSettled(s: seq<Submission>, c: Commitment) {
    if c.exempt then true
    else if c.payment.None? then !c.feeDue
    else
      && c.payment.value.block <= c.commitBlock && c.paymentVerified
      && !exists i :: HasPayment(s, i, c.payment.value.block, c.payment.value.tx)
  }

  lemma PresentIs(s: seq<Submission>, campaign: nat, patch: nat)
    ensures Present(s, campaign, patch) <==> exists i :: HasPatch(s, i, campaign, patch)
  {
    if x :| x in s && x.campaign == campaign && x.patch == patch {
      var i :| 0 <= i < |s| && s[i] == x;
      assert HasPatch(s, i, campaign, patch);
    }
    if i :| HasPatch(s, i, campaign, patch) {
      assert s[i] in s;
    }
  }

  lemma SeenIs(s: seq<Submission>, campaign: nat, fingerprint: nat)
    ensures Seen(s, campaign, Some(fingerprint)) <==> exists i :: HasFingerprint(s, i, campaign, fingerprint)
  {
    if x :| x in s && x.campaign == campaign && x.fingerprint == Some(fingerprint) {
      var i :| 0 <= i < |s| && s[i] == x;
      assert HasFingerprint(s, i, campaign, fingerprint);
    }
    if i :| HasFingerprint(s, i, campaign, fingerprint) {
      assert s[i] in s;
    }
  }

  lemma ConsumedIs(s: seq<Submission>, p: PaymentRef)
    ensures Consumed(s, p) <==> exists i :: HasPayment(s, i, p.block, p.tx)
  {
    if x :| x in s && x.payment == Some(p) {
      var i :| 0 <= i < |s| && s[i] == x;
      assert HasPayment(s, i, p.block, p.tx);
    }
    if i :| HasPayment(s, i, p.block, p.tx) {
      assert s[i] in s;
    }
  }

  lemma ExcludedIs(actions: seq<Action>, campaign: nat, hotkey: nat)
    ensures Excluded(actions, campaign, hotkey) <==> exists i :: Bars(actions, i, campaign, hotkey)
  {
    hide Excluded;
    ExcludedMeans(actions, campaign, hotkey);
    if Excluded(actions, campaign, hotkey) {
      var i :| 0 <= i < |actions| && About(actions[i], campaign, hotkey) && !actions[i].waived
               && forall j :: i < j < |actions| ==> !About(actions[j], campaign, hotkey);
      assert Bars(actions, i, campaign, hotkey);
    }
    if i :| Bars(actions, i, campaign, hotkey) {
      assert About(actions[i], campaign, hotkey);
      assert forall j :: i < j < |actions| ==> !About(actions[j], campaign, hotkey);
    }
  }

  /** A commitment is taken in exactly when its campaign is open, it is eligible and intact, its fee is
      settled, its hotkey is not barred, and its patch is new. It adds one submission at the end, which
      holds what was committed and, unless exempt, the payment, and is a duplicate without a job exactly
      when its fingerprint is known in the campaign. */
  lemma IngestMeans(db: Database, c: Commitment)
    ensures var n, after := |db.submissions|, Ingested(db, c);
            && after.actions == db.actions && n <= |after.submissions| <= n + 1 && after.submissions[..n] == db.submissions
            && (|after.submissions| == n + 1 <==>
                  && c.campaignOpen && c.eligible && c.intact && FeeSettled(db.submissions, c)
                  && (!exists i :: Bars(db.actions, i, c.campaign, c.hotkey))
                  && !exists i :: HasPatch(db.submissions, i, c.campaign, c.patch))
            && (|after.submissions| == n + 1 ==>
                  var s := after.submissions[n];
                  && s.campaign == c.campaign && s.patch == c.patch && s.hotkey == c.hotkey && s.fingerprint == Some(c.fingerprint)
                  && s.payment == (if c.exempt then None else c.payment)
                  && (s.duplicate <==> exists i :: HasFingerprint(db.submissions, i, c.campaign, c.fingerprint))
                  && (s.job <==> !s.duplicate))
  {
    hide Present, Seen, Consumed, Excluded;
    PresentIs(db.submissions, c.campaign, c.patch);
    SeenIs(db.submissions, c.campaign, c.fingerprint);
    ExcludedIs(db.actions, c.campaign, c.hotkey);
    if c.payment.Some? {
      ConsumedIs(db.submissions, c.payment.value);
    }
  }

  /** A scan goes through the chain block by block, and within a block by hotkey. */
  lemma ScanOrder(ordered: seq<Commitment>, i: nat, j: nat)
    requires Ascending(ordered, Chronological) && i < j < |ordered|
    ensures ordered[i].commitBlock <= ordered[j].commitBlock
    ensures ordered[i].commitBlock == ordered[j].commitBlock ==> ordered[i].hotkey <= ordered[j].hotkey
  {
  }

  // ---------------------------------------------------------------------------
  // Runs

  /** The submission is what an operator carried over, or what the watcher found in order at a look at
      its commitment: nothing is admitted otherwise, and no payment that was not verified. */
  ghost predicate Admits(step: Step, campaign: nat, patch: nat, hotkey: nat, payment: Option<PaymentRef>) {
    match step
    case CarryOver(r) => r.campaign == campaign && r.patch == patch && r.hotkey == hotkey && payment.None?
    case Look(c) =>
      && c.campaign == campaign && c.patch == patch && c.hotkey == hotkey && c.campaignOpen && c.eligible && c.intact
      && (if c.exempt then payment.None?
          else payment == c.payment && (payment.None? ==> !c.feeDue)
               && (payment.Some? ==> payment.value.block <= c.commitBlock && c.paymentVerified))
    case _ => false
  }

  ghost predicate Came(steps: seq<Step>, i: nat, campaign: nat, patch: nat, hotkey: nat, payment: Option<PaymentRef>) {
    exists k :: 0 <= k < i && k < |steps| && Admits(steps[k], campaign, patch, hotkey, payment)
  }

  ghost predicate AllCame(steps: seq<Step>, i: nat, s: State) {
    && (forall k :: 0 <= k < |s.db.submissions| ==>
          var x := s.db.submissions[k]; Came(steps, i, x.campaign, x.patch, x.hotkey, x.payment))
    && (s.pending.Some? ==>
          var r := s.pending.value; Came(steps, i, r.campaign, r.patch, r.hotkey, r.payment))
  }

  lemma CameLater(steps: seq<Step>, i: nat, campaign: nat, patch: nat, hotkey: nat, payment: Option<PaymentRef>)
    requires i < |steps|
    ensures Came(steps, i, campaign, patch, hotkey, payment) || Admits(steps[i], campaign, patch, hotkey, payment)
            ==> Came(steps, i + 1, campaign, patch, hotkey, payment)
  {
    hide Admits;
  }

  lemma InsertedFrom(steps: seq<Step>, i: nat, db: Database, r: Request)
    requires forall k :: 0 <= k < |db.submissions| ==>
               var x := db.submissions[k]; Came(steps, i, x.campaign, x.patch, x.hotkey, x.payment)
    requires Came(steps, i, r.campaign, r.patch, r.hotkey, r.payment)
    ensures forall k :: 0 <= k < |Inserted(db, r).submissions| ==>
              var x := Inserted(db, r).submissions[k]; Came(steps, i, x.campaign, x.patch, x.hotkey, x.payment)
  {
    hide Came, Present, Seen, Excluded;
  }

  lemma CameStep(steps: seq<Step>, i: nat, s: State)
    requires i < |steps| && Enabled(s, steps[i]) && AllCame(steps, i, s)
    ensures AllCame(steps, i + 1, Apply(s, steps[i]))
  {
    hide Came, Inserted, Checked, Admits;
    forall k | 0 <= k < |s.db.submissions|
      ensures var x := s.db.submissions[k]; Came(steps, i + 1, x.campaign, x.patch, x.hotkey, x.payment)
    {
      var x := s.db.submissions[k];
      CameLater(steps, i, x.campaign, x.patch, x.hotkey, x.payment);
    }
    if s.pending.Some? {
      var r := s.pending.value;
      CameLater(steps, i, r.campaign, r.patch, r.hotkey, r.payment);
    }
    match steps[i]
    case Look(c) => LookAdmits(steps, i, s.db, c);
    case Insert => InsertedFrom(steps, i + 1, s.db, s.pending.value);
    case CarryOver(r) => CarryAdmits(steps, i, r); InsertedFrom(steps, i + 1, s.db, r);
    case Exclude(_, _) =>
    case Waive(_, _) =>
  }

  lemma LookAdmits(steps: seq<Step>, i: nat, db: Database, c: Commitment)
    requires i < |steps| && steps[i] == Look(c)
    ensures Checked(db, c).Some? ==> var r := Checked(db, c).value; Came(steps, i + 1, r.campaign, r.patch, r.hotkey, r.payment)
  {
    hide Came;
    if Checked(db, c).Some? {
      var r := Checked(db, c).value;
      CameLater(steps, i, r.campaign, r.patch, r.hotkey, r.payment);
    }
  }

  lemma CarryAdmits(steps: seq<Step>, i: nat, r: Request)
    requires i < |steps| && steps[i] == CarryOver(r) && r.payment.None?
    ensures Came(steps, i + 1, r.campaign, r.patch, r.hotkey, r.payment)
  {
    hide Came;
    CameLater(steps, i, r.campaign, r.patch, r.hotkey, r.payment);
  }

  /** Every submission in every state of every run was carried over or looked at before, and its payment,
      if it has one, was verified and made in time. */
  lemma {:induction false} EverySubmissionCame(states: seq<State>, steps: seq<Step>, i: nat)
    requires Run(states, steps) && i < |states|
    ensures AllCame(steps, i, states[i])
  {
    hide AllCame, Apply, Enabled;
    if i == 0 {
      NothingCame(steps);
    } else {
      EverySubmissionCame(states, steps, i - 1);
      assert Enabled(states[i - 1], steps[i - 1]);
      CameStep(steps, i - 1, states[i - 1]);
    }
  }

  lemma NothingCame(steps: seq<Step>)
    ensures AllCame(steps, 0, State(Database([], []), None))
  {
  }

  // ---------------------------------------------------------------------------
  // Exclusions

  /** An exclusion among the first `i` steps that has not been waived since. */
  ghost predicate Stands(steps: seq<Step>, k: int, i: nat, campaign: nat, hotkey: nat) {
    && 0 <= k < i && k < |steps| && steps[k] == Exclude(campaign, hotkey)
    && forall j :: k < j < i && j < |steps| ==> steps[j] != Waive(campaign, hotkey)
  }

  lemma ExcludedStep(s: State, step: Step, campaign: nat, hotkey: nat)
    requires Enabled(s, step)
    ensures Excluded(Apply(s, step).db.actions, campaign, hotkey)
            <==> step == Exclude(campaign, hotkey) || (step != Waive(campaign, hotkey) && Excluded(s.db.actions, campaign, hotkey))
  {
    hide Present, Seen, Checked, Recorded;
    var before, after := s.db.actions, Apply(s, step).db.actions;
    assert |after| == |before| + 1 ==> after[..|before|] == before;
  }

  lemma StandsStep(steps: seq<Step>, i: nat, later: nat, campaign: nat, hotkey: nat)
    requires i < |steps| && later == i + 1
    ensures (exists k :: Stands(steps, k, later, campaign, hotkey))
            <==> steps[i] == Exclude(campaign, hotkey) || (steps[i] != Waive(campaign, hotkey) && exists k :: Stands(steps, k, i, campaign, hotkey))
  {
    if steps[i] == Exclude(campaign, hotkey) {
      assert Stands(steps, i, later, campaign, hotkey);
    } else if k :| steps[i] != Waive(campaign, hotkey) && Stands(steps, k, i, campaign, hotkey) {
      assert Stands(steps, k, later, campaign, hotkey);
    }
    if k :| Stands(steps, k, later, campaign, hotkey) {
      assert k < i ==> Stands(steps, k, i, campaign, hotkey);
    }
  }

  /** In every state of every run a hotkey is excluded exactly when an exclusion of it stands. */
  lemma {:induction false} ExcludedSince(states: seq<State>, steps: seq<Step>, i: nat, campaign: nat, hotkey: nat)
    requires Run(states, steps) && i < |states|
    ensures Excluded(states[i].db.actions, campaign, hotkey) <==> exists k :: Stands(steps, k, i, campaign, hotkey)
  {
    hide Excluded, Apply, Enabled, Stands;
    if i == 0 {
      NoneStands(steps, campaign, hotkey);
    } else {
      ExcludedSince(states, steps, i - 1, campaign, hotkey);
      assert Enabled(states[i - 1], steps[i - 1]);
      ExcludedStep(states[i - 1], steps[i - 1], campaign, hotkey);
      StandsStep(steps, i - 1, i, campaign, hotkey);
    }
  }

  lemma NoneStands(steps: seq<Step>, campaign: nat, hotkey: nat)
    ensures !Excluded([], campaign, hotkey) && !exists k :: Stands(steps, k, 0, campaign, hotkey)
  {
  }
}
