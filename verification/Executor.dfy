/** The executor object: run and its parts, updating the plan and the bindings in place. */
module Executor {
  import opened Results
  import opened ReviewCertificate
  import opened RowContract
  import opened OtpChallenge
  import opened ReadyRun
  import opened ReadyTheorems

  datatype Stage = Discovered | ProfileResolved | FormFilled | Validated | BlockedBy(why: Why) | ReadyToSubmit

  class ApplicationExecutor {
    const task: Task
    var stage: Stage
    var fields: seq<Field>
    var unresolved: seq<Field>
    var attachment: Option<Attachment>
    var slots: seq<string>
    var rows: seq<RowBinding>
    /** The private review state that READY leaves behind. */
    var proof: Option<Proof>

    constructor (t: Task)
      ensures task == t && stage == Stage.Discovered && Now() == State([], [], None, [], []) && proof == None
    {
      task := t;
      stage := Stage.Discovered;
      fields, unresolved, attachment, slots, rows := [], [], None, [], [];
      proof := None;
    }

    function Now(): State
      reads this
    {
      State(fields, unresolved, attachment, slots, rows)
    }

    /** What a part of run does: go on in the state that the specification names, or stop for its reason. */
    ghost predicate Follows(spec: Result<State, Halt>, outcome: Outcome<Halt>)
      reads this
    {
      match spec
      case Ok(s) => outcome == Pass && Now() == s
      case Refused(why) => outcome == Fail(why)
    }

    method Begin() returns (outcome: Outcome<Halt>)
      requires fields == [] && unresolved == []
      modifies `attachment, `slots, `rows
      ensures Follows(StartState(task), outcome)
    {
      attachment, slots, rows := None, [], [];
      if task.journal && task.unscopedJournal { return Fail(Blocked(RowsUnverified)); }
      if task.manifest.BadManifest? { return Fail(Blocked(ManifestUnverified)); }
      if task.manifest.Loaded? {
        attachment := Some(task.manifest.attachment);
        slots := task.manifest.slots;
      }
      if !task.resumable { return Fail(Raised); }
      return Pass;
    }

    /** The contracts of one page: all are validated before the first one is reconciled. */
    method ReconcileOffer(offer: Offer) returns (outcome: Outcome<Halt>)
      modifies `rows
      ensures Follows(BindRows(task, old(Now()), offer), outcome)
      ensures outcome.Fail? && (!offer.Offered? || !AdmitContracts(task, old(Now()), offer.contracts)) ==>
                rows == old(rows)
    {
      hide AdmitContracts;
      match offer {
        case NoBuilder => return Pass;
        case OfferBlocked => return Fail(Blocked(RowsUnverified));
        case OfferRaised => return Fail(Raised);
        case Offered(contracts, receipts) =>
          if !AdmitContracts(task, Now(), contracts) { return Fail(Blocked(RowsUnverified)); }
          var i := 0;
          while i < |contracts|
            invariant i <= |contracts|
            invariant Reconcile(contracts, receipts, i, rows) == Reconcile(contracts, receipts, 0, old(rows))
          {
            if i >= |receipts| { return Fail(Raised); }
            if receipts[i].Unproved? { return Fail(Blocked(RowsUnverified)); }
            rows := rows + [BindingOf(contracts[i], receipts[i].observed)];
            i := i + 1;
          }
          return Pass;
      }
    }

    method ExtendPlan(added: seq<Field>)
      modifies `fields, `unresolved
      ensures Now() == Extend(old(Now()), added)
    {
      fields := fields + added;
      unresolved := unresolved + OpenFields(added);
    }

    /** The fills of one page and of the fields that they reveal. */
    method Fill(page: Page) returns (outcome: Outcome<Halt>, resolutions: seq<Field>)
      requires !page.form.Unobservable?
      modifies `fields, `unresolved, `stage
      ensures match FillPage(task, old(Now()), page)
              case Ok(f) => outcome == Pass && resolutions == f.resolutions && Now() == f.state && stage == FormFilled
              case Refused(why) =>
                outcome == Fail(why) && (stage == old(stage) || stage == ProfileResolved || stage == FormFilled)
    {
      hide Bindable, Supported, Reselects, Extend, Added, Selectors;
      resolutions := page.form.fields;
      if Reselects(Now(), resolutions) { return Fail(Blocked(AttachmentUnverified)), resolutions; }
      if page.form.Observation? && !Bindable(page.form, resolutions) {
        return Fail(Blocked(FillPlanUnverified)), resolutions;
      }
      ExtendPlan(resolutions);
      stage := ProfileResolved;
      if page.filled.None? { return Fail(Raised), resolutions; }
      var ok := page.filled.value;
      if page.form.Observation? {
        ghost var spec := FillChildren(Filled(Now(), resolutions, ok), Selectors(resolutions), page.rounds,
                                       CHILD_ROUNDS);
        var known := Selectors(resolutions);
        var round, bound := 0, true;
        while bound && round < CHILD_ROUNDS && ok
          invariant round <= CHILD_ROUNDS && stage == ProfileResolved
          invariant bound ==>
                      && round <= |page.rounds|
                      && spec == FillChildren(Filled(Now(), resolutions, ok), known, page.rounds[round..],
                                              CHILD_ROUNDS - round)
          invariant !bound ==> spec == Ok(Filled(Now(), resolutions, ok))
          decreases bound, CHILD_ROUNDS - round
        {
          if round == |page.rounds| { return Fail(Raised), resolutions; }
          var next := page.rounds[round];
          if next.form.Discovered? { return Fail(Raised), resolutions; }
          if next.form.Unobservable? { return Fail(Blocked(ObservationUnavailable)), resolutions; }
          var added := Added(next.form.fields, known);
          if !Supported(next.form) || added == [] {
            bound := false;
          } else {
            if !Bindable(next.form, added) { return Fail(Blocked(FillPlanUnverified)), resolutions; }
            ExtendPlan(added);
            if next.filled.None? { return Fail(Raised), resolutions; }
            resolutions := resolutions + added;
            known := known + Selectors(added);
            ok := next.filled.value;
            round := round + 1;
          }
        }
      }
      stage := FormFilled;
      if !ok { return Fail(Blocked(FillFailed)), resolutions; }
      return Pass, resolutions;
    }

    method BindAttachments(resolutions: seq<Field>, page: Page) returns (outcome: Outcome<Halt>)
      modifies `attachment, `slots
      ensures Follows(ReadAttachments(task, old(Now()), resolutions, page), outcome)
      ensures outcome.Fail? ==> Now() == old(Now())
    {
      var selected := SelectedSlots(resolutions);
      if selected == [] { return Pass; }
      if page.uploaded.None? { return Fail(Blocked(AttachmentUnverified)); }
      var binding := page.uploaded.value;
      if rows != [] && binding.draft != rows[0].draft { return Fail(Blocked(AttachmentUnverified)); }
      if attachment.Some? && attachment.value.draft != binding.draft { return Fail(Blocked(AttachmentUnverified)); }
      if !page.manifestSaved { return Fail(Blocked(AttachmentUnverified)); }
      attachment := Some(binding);
      slots := slots + selected;
      return Pass;
    }

    /** The last checks before READY; on success the proof is kept. */
    method ReviewFinal(f: FinalAnswers) returns (outcome: Outcome<Halt>)
      modifies `attachment, `proof, `stage
      ensures match FinalReview(task, old(Now()), f)
              case Ok(move) => move.Done? && outcome == Pass && stage == ReadyToSubmit && Now() == move.state
                               && proof == Some(move.proof)
              case Refused(why) => outcome == Fail(why) && stage == old(stage)
    {
      hide Certify, Recheck, ExpectationOf, DraftProved;
      if !(Prior(task) <= Keys(rows)) { return Fail(Blocked(RowsUnverified)); }
      var revisions: seq<int> := [];
      if rows != [] {
        if !AllRead(f.revisions, rows) { return Fail(Blocked(RowsUnverified)); }
        revisions := Values(f.revisions);
      }
      if attachment.Some? {
        if f.retained.None? || f.retained.value.draft != attachment.value.draft {
          return Fail(Blocked(AttachmentUnverified));
        }
        attachment := f.retained;
      }
      if (attachment.Some? || rows != []) && !f.verifier { return Fail(Blocked(DraftUnverified)); }
      if f.verifier && !DraftProved(Now(), if revisions == [] then 0 else Highest(revisions), f.evidence) {
        return Fail(Blocked(DraftUnverified));
      }
      if !f.covered { return Fail(Blocked(ProjectCoverageUnproven)); }
      if task.account.None? || !SlotsKnown(task, slots) { return Fail(Blocked(ReviewFailed)); }
      var expected := ExpectationOf(task, Now(), revisions);
      var first := Certify(PlanOf(task, Now()), f.first, expected);
      if first.Refused? { return Fail(Blocked(ReviewFailed)); }
      var second := Recheck(first.value, PlanOf(task, Now()), f.second, expected);
      if second.Refused? || !f.profileUnchanged || f.first.None? || f.second.None? {
        return Fail(Blocked(ReviewFailed));
      }
      proof := Some(Proof(if f.verifier then f.evidence else None, revisions, expected, first.value,
                          f.first.value, f.second.value));
      stage := ReadyToSubmit;
      return Pass;
    }

    /** One iteration of the page loop; ready tells whether it ended in READY. */
    method VisitPage(page: Page) returns (outcome: Outcome<Halt>, ready: bool)
      requires stage != ReadyToSubmit
      modifies `stage, `fields, `unresolved, `attachment, `slots, `rows, `proof
      ensures match PageStep(task, old(Now()), page)
              case Ok(Turn(s)) => outcome == Pass && !ready && Now() == s && stage != ReadyToSubmit
              case Ok(Done(s, p)) => outcome == Pass && ready && Now() == s && stage == ReadyToSubmit
                  && proof == Some(p)
              case Refused(why) => outcome == Fail(why) && !ready && stage != ReadyToSubmit
    {
      hide BindRows, FillPage, ReadAttachments, CheckPage, FinalReview, DraftProved, EnterPage, CheckStructure;
      ready := false;
      outcome := EnterPage(task, page);
      if outcome.Fail? { return; }
      outcome := ReconcileOffer(page.offer);
      if outcome.Fail? { return; }
      if page.form.Unobservable? { return Fail(Blocked(ObservationUnavailable)), false; }
      if page.authField { return Fail(Blocked(AuthenticationField)), false; }
      if OnlyStarts(page) {
        if page.started.None? { return Fail(Raised), false; }
        if page.started.value { return Pass, false; }
      }
      if page.form.Observation? {
        outcome := CheckStructure(page);
        if outcome.Fail? { return; }
      }
      var resolutions;
      outcome, resolutions := Fill(page);
      if outcome.Fail? { return; }
      outcome := BindAttachments(resolutions, page);
      if outcome.Fail? { return; }
      outcome := CheckPage(resolutions, page);
      if outcome.Fail? { return; }
      stage := Validated;
      if page.finalControl.None? { return Fail(Raised), false; }
      if page.finalControl.value {
        if page.final.None? { return Fail(Raised), false; }
        outcome := ReviewFinal(page.final.value);
        ready := outcome.Pass?;
        return;
      }
      if page.nextControl.None? { return Fail(Raised), false; }
      if page.nextControl.value && !DraftProved(Now(), page.journalRevision, page.evidence) {
        return Fail(Blocked(DraftUnverified)), false;
      }
      if page.advanced.None? { return Fail(Raised), false; }
      if page.advanced.value { return Pass, false; }
      return Fail(Blocked(NoControl)), false;
    }

    /** run: a run that returns leaves the plan BLOCKED or READY_TO_SUBMIT, and READY only with the specified proof. */
    method Run(pages: seq<Page>, maxPages: nat) returns (raised: bool)
      requires fields == [] && unresolved == [] && stage != ReadyToSubmit
      modifies this
      ensures !raised ==> stage.BlockedBy? || stage == ReadyToSubmit
      ensures stage == ReadyToSubmit ==> proof.Some? && Proved(task, Now(), proof.value)
      ensures match RunSpec(task, pages, maxPages)
              case Ok((s, p)) => !raised && stage == ReadyToSubmit && Now() == s && proof == Some(p)
              case Refused(Blocked(why)) => !raised && stage == BlockedBy(why)
              case Refused(Raised) => raised && stage != ReadyToSubmit
    {
      hide PageStep, StartState, Proved, Kept;
      ghost var start := StartState(task);
      if start.Ok? { StartKept(task); }
      var outcome := Begin();
      var index, ready := 0, false;
      ghost var spec := RunSpec(task, pages, maxPages);
      assert outcome.Pass? ==> spec == RunFrom(task, Now(), pages, maxPages);
      while outcome.Pass? && !ready && index < maxPages
        invariant index <= maxPages && (ready || stage != ReadyToSubmit)
        invariant outcome.Pass? && !ready ==>
                    index <= |pages| && spec == RunFrom(task, Now(), pages[index..], maxPages - index)
        invariant outcome.Fail? ==> spec == Refused(outcome.reason) && !ready
        invariant ready ==> stage == ReadyToSubmit && proof.Some? && spec == Ok((Now(), proof.value)) && outcome.Pass?
        decreases outcome.Pass?, !ready, maxPages - index
      {
        if index == |pages| {
          outcome := Fail(Raised);
        } else {
          outcome, ready := VisitPage(pages[index]);
          index := index + 1;
        }
      }
      if spec.Ok? { RunProves(task, start.value, pages, maxPages); }
      if outcome.Pass? && !ready { outcome := Fail(Blocked(PageLimit)); }
      if outcome.Fail? && outcome.reason.Blocked? { stage := BlockedBy(outcome.reason.reason); }
      raised := outcome == Fail(Raised);
    }
  }
}
