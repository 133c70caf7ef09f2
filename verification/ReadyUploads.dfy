/** Runs that become READY below an attachment revision that they have bound. */
module ReadyUploads {
  import opened Results
  import opened ReviewCertificate
  import opened FillIdentity
  import opened OtpChallenge
  import opened ReadyRun
  import opened ReadyTheorems
  import opened ReadyMirror
  import opened ReadyRevisions

  /** What a page needs to resolve these fields and to upload the files among them. */
  predicate Uploads(s: State, fields: seq<Field>, upload: Attachment) {
    && fields != [] && UniqueFillIdentity(Identities(fields)) && (forall f | f in fields :: Settled(f.status))
    && !Reselects(s, fields) && s.rows == []
    && (s.attachment.Some? ==> s.attachment.value.draft == upload.draft)
  }

  /** The state after the page. */
  function AfterUpload(s: State, fields: seq<Field>, upload: Attachment): State {
    var e, slots := Extend(s, fields), SelectedSlots(fields);
    if slots == [] then e else e.(attachment := Some(upload), slots := e.slots + slots)
  }

  /** A page of an adapter with or without observe_form, whose fills reveal nothing. */
  ghost function UploadPage(otp: OtpAnswers, observed: bool, fields: seq<Field>, upload: Attachment): Page {
    var form := if observed then Observation(fields, true, false, false, false, false) else Discovered(fields);
    Page(true, NoAuth, otp, true, NoBuilder, form, false, Some(false), false, Some(false), Some(true),
         [Round(form, Some(true))], Some(upload), true, Some(true), true, None, None, None, None, 0, None)
  }

  ghost function ReviewPage(otp: OtpAnswers, observed: bool, fields: seq<Field>, upload: Attachment,
                            f: FinalAnswers): Page {
    UploadPage(otp, observed, fields, upload).(finalControl := Some(true), final := Some(f))
  }

  /** The same page with a next control, after a draft receipt at this revision. */
  ghost function NextPage(otp: OtpAnswers, observed: bool, fields: seq<Field>, upload: Attachment,
                          revision: int): Page {
    UploadPage(otp, observed, fields, upload)
      .(finalControl := Some(false), nextControl := Some(true), advanced := Some(true),
        evidence := Some(Evidence(true, true, Some(upload.draft), Some(revision))))
  }

  lemma {:induction false} NothingAdded(fields: seq<Field>, known: set<string>)
    requires forall f | f in fields :: f.selector in known
    ensures Added(fields, known) == []
  {
    if fields != [] {
      assert fields[0] in fields;
      NothingAdded(fields[1..], known);
    }
  }

  lemma FillsOnce(t: Task, s: State, otp: OtpAnswers, observed: bool, fields: seq<Field>, upload: Attachment)
    requires Uploads(s, fields, upload)
    ensures FillPage(t, s, UploadPage(otp, observed, fields, upload)) == Ok(Filled(Extend(s, fields), fields, true))
  {
    hide UniqueFillIdentity, Identities, Extend, Reselects, Added;
    var page := UploadPage(otp, observed, fields, upload);
    NothingAdded(fields, Selectors(fields));
    assert FillChildren(Filled(Extend(s, fields), fields, true), Selectors(fields), page.rounds, CHILD_ROUNDS)
           == Ok(Filled(Extend(s, fields), fields, true)) || !observed;
  }

  /** CompletePage asks nothing of the controls after the page. */
  lemma UploadCompletes(t: Task, s: State, otp: OtpAnswers, observed: bool, fields: seq<Field>, upload: Attachment,
                        page: Page)
    requires Uploads(s, fields, upload)
    requires var p := UploadPage(otp, observed, fields, upload);
             page == p.(finalControl := page.finalControl, final := page.final, nextControl := page.nextControl,
                        advanced := page.advanced, evidence := page.evidence)
    ensures CompletePage(t, s, page) == Ok(AfterUpload(s, fields, upload))
  {
    var p := UploadPage(otp, observed, fields, upload);
    FillsOnce(t, s, otp, observed, fields, upload);
    assert FillPage(t, s, page) == FillPage(t, s, p) by { SameFill(t, s, page, p); }
    hide FillPage, UniqueFillIdentity, Identities, Extend, Reselects, SelectedSlots;
  }

  lemma SameFill(t: Task, s: State, p: Page, q: Page)
    requires p.form == q.form && p.filled == q.filled && p.rounds == q.rounds && !p.form.Unobservable?
    ensures FillPage(t, s, p) == FillPage(t, s, q)
  {
    hide FillChildren, Bindable, Reselects, Extend, Selectors;
  }

  lemma UploadReviews(t: Task, s: State, otp: OtpAnswers, observed: bool, fields: seq<Field>, upload: Attachment,
                      f: FinalAnswers)
    requires Uploads(s, fields, upload)
    ensures var page := ReviewPage(otp, observed, fields, upload, f);
            && ReviewedOn(t, s, page) == Some(AfterUpload(s, fields, upload))
            && PageStep(t, s, page) == FinalReview(t, AfterUpload(s, fields, upload), f)
  {
    var page := ReviewPage(otp, observed, fields, upload, f);
    UploadCompletes(t, s, otp, observed, fields, upload, page);
    hide CompletePage, FinalReview, AfterUpload, Reselects, UniqueFillIdentity, Identities;
    StepIsReview(t, s, page, f);
  }

  lemma UploadTurns(t: Task, s: State, otp: OtpAnswers, observed: bool, fields: seq<Field>, upload: Attachment,
                    revision: int)
    requires Uploads(s, fields, upload)
    requires var c := AfterUpload(s, fields, upload);
             c.attachment.Some? ==> c.attachment.value.revision <= revision
    ensures var page, c := NextPage(otp, observed, fields, upload, revision), AfterUpload(s, fields, upload);
            ReviewedOn(t, s, page).None? && CompletedOn(t, s, page) == Some(c) && PageStep(t, s, page) == Ok(Turn(c))
  {
    hide CompletePage, AfterUpload, FinalReview, Uploads, Reselects, UniqueFillIdentity, Identities, DraftProved;
    var page, c := NextPage(otp, observed, fields, upload, revision), AfterUpload(s, fields, upload);
    UploadCompletes(t, s, otp, observed, fields, upload, page);
    UploadsStay(s, fields, upload, revision);
    assert fields != [] by { UploadsStay(s, fields, upload, revision); }
  }

  /** The draft receipt before the next page. */
  lemma UploadsStay(s: State, fields: seq<Field>, upload: Attachment, revision: int)
    requires Uploads(s, fields, upload)
    requires var c := AfterUpload(s, fields, upload);
             c.attachment.Some? ==> c.attachment.value.revision <= revision
    ensures DraftProved(AfterUpload(s, fields, upload), 0,
                        Some(Evidence(true, true, Some(upload.draft), Some(revision))))
    ensures fields != []
  {
    hide Extend, SelectedSlots, Reselects, UniqueFillIdentity, Identities;
    ExtendOnlyFields(s, fields);
  }

  lemma ExtendOnlyFields(s: State, fields: seq<Field>)
    ensures Extend(s, fields).rows == s.rows && Extend(s, fields).attachment == s.attachment
  {
    hide OpenFields;
  }

  /** The certificate of a run of one page, and the first revisions that it binds. */
  lemma OnePage(t: Task, page: Page)
    requires StartState(t).Ok? && ReviewedOn(t, StartState(t).value, page).Some?
    ensures Certified(t, [page], 1) == CertifiedBy(t, ReviewedOn(t, StartState(t).value, page).value, page.final.value)
    ensures forall v | v in BoundRevision(ReviewedOn(t, StartState(t).value, page).value) ::
            v in Revisions(t, [page], 1)
  {
    hide PageStep, FinalReview, StartState, CompletePage, ReReads;
    var s := StartState(t).value;
    var c, f := ReviewedOn(t, s, page).value, page.final.value;
    StepIsReview(t, s, page, f);
    ReviewEnds(t, c, f);
    assert CompletedOn(t, s, page) == Some(c);
  }

  /** An upload, recovered or made on the page, whose last re-read is lower: for every such task, on both kinds of
      adapter, some answers make the run READY at the lower revision. */
  lemma LowerReReadIsReady(t: Task, otp: OtpAnswers, observed: bool, fields: seq<Field>, upload: Attachment,
                           revision: int)
    returns (pages: seq<Page>)
    requires StartState(t).Ok? && Uploads(StartState(t).value, fields, upload)
    requires var s := AfterUpload(StartState(t).value, fields, upload);
             Reviewable(t, s) && s.attachment.Some? && 1 <= revision < s.attachment.value.revision
    ensures Certified(t, pages, 1) == Some(revision)
    ensures AfterUpload(StartState(t).value, fields, upload).attachment.value.revision in Revisions(t, pages, 1)
  {
    var start := StartState(t).value;
    var s := AfterUpload(start, fields, upload);
    var f := MirrorAnswers(t, s, revision);
    var page := ReviewPage(otp, observed, fields, upload, f);
    pages := [page];
    ReviewableIsReady(t, s, revision);
    UploadReviews(t, start, otp, observed, fields, upload, f);
    OnePage(t, page);
    ReviewEnds(t, s, f);
    assert BoundRevision(s) == [s.attachment.value.revision];
    hide StartState, Reviewable, FinalReview, MirrorAnswers, ReviewPage, AfterUpload, Revisions, Uploads;
  }

  lemma TwoPages(t: Task, first: Page, second: Page, c: State)
    requires StartState(t).Ok? && ReviewedOn(t, StartState(t).value, first).None?
    requires CompletedOn(t, StartState(t).value, first) == Some(c)
             && PageStep(t, StartState(t).value, first) == Ok(Turn(c))
    requires ReviewedOn(t, c, second).Some?
    ensures Certified(t, [first, second], 2) == CertifiedBy(t, ReviewedOn(t, c, second).value, second.final.value)
    ensures forall v | v in BoundRevision(c) :: v in Revisions(t, [first, second], 2)
  {
    hide PageStep, FinalReview, StartState, ReviewedOn, CompletedOn, ReReads;
    var f := second.final.value;
    StepIsReview(t, c, second, f);
    ReviewEnds(t, ReviewedOn(t, c, second).value, f);
    assert [first, second][1..] == [second];
    assert RunFrom(t, StartState(t).value, [first, second], 2) == RunFrom(t, c, [second], 1);
  }

  /** A second upload at a lower revision, read again unchanged: some answers make the run READY below the first. */
  lemma LowerUploadIsReady(t: Task, otp: OtpAnswers, observed: bool, fields: seq<Field>, upload: Attachment,
                           more: seq<Field>, second: Attachment) returns (pages: seq<Page>)
    requires StartState(t).Ok? && Uploads(StartState(t).value, fields, upload) && SelectedSlots(fields) != []
    requires Uploads(AfterUpload(StartState(t).value, fields, upload), more, second) && SelectedSlots(more) != []
    requires Reviewable(t, AfterUpload(AfterUpload(StartState(t).value, fields, upload), more, second))
    requires 1 <= second.revision < upload.revision
    ensures Certified(t, pages, 2) == Some(second.revision) && upload.revision in Revisions(t, pages, 2)
  {
    var start := StartState(t).value;
    var c := AfterUpload(start, fields, upload);
    var s := AfterUpload(c, more, second);
    var f := MirrorAnswers(t, s, second.revision);
    var next, last := NextPage(otp, observed, fields, upload, upload.revision),
        ReviewPage(otp, observed, more, second, f);
    pages := [next, last];
    ReviewableIsReady(t, s, second.revision);
    UploadTurns(t, start, otp, observed, fields, upload, upload.revision);
    UploadReviews(t, c, otp, observed, more, second, f);
    TwoPages(t, next, last, c);
    ReviewEnds(t, s, f);
    assert BoundRevision(c) == [upload.revision];
    hide StartState, Reviewable, FinalReview, MirrorAnswers, ReviewPage, NextPage, AfterUpload, Revisions, Uploads,
      SelectedSlots;
  }
}
