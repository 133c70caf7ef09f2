/** The attachment revisions that a run binds, and when the certified revision covers them. */
module ReadyRevisions {
  import opened Results
  import opened ReviewCertificate
  import opened OtpChallenge
  import opened ReadyRun
  import opened ReadyTheorems
  import opened ReadyMirror

  /** The state after the page's last check, if the page gets there. */
  function CompletedOn(t: Task, s: State, page: Page): Option<State> {
    var bound := BindRows(t, s, page.offer);
    if bound.Refused? || page.form.Unobservable? || (OnlyStarts(page) && page.started == Some(true)) then None
    else
      match CompletePage(t, bound.value, page)
      case Ok(c) => Some(c)
      case Refused(_) => None
  }

  function BoundRevision(s: State): seq<int> {
    if s.attachment.Some? then [s.attachment.value.revision] else []
  }

  /** The state in which a page comes to its final review, if it does. */
  function ReviewedOn(t: Task, s: State, page: Page): (c: Option<State>)
    ensures c.Some? ==> page.final.Some?
  {
    if EnterPage(t, page).Fail? || page.form.Unobservable? || page.authField
       || (OnlyStarts(page) && page.started != Some(false))
       || (page.form.Observation? && CheckStructure(page).Fail?)
       || page.finalControl != Some(true) || page.final.None?
    then None
    else CompletedOn(t, s, page)
  }

  /** The revisions that one page binds: by its uploads, and by the last re-read before the review. */
  function PageRevisions(t: Task, s: State, page: Page): seq<int> {
    var completed, reviewed := CompletedOn(t, s, page), ReviewedOn(t, s, page);
    (if completed.Some? then BoundRevision(completed.value) else [])
    + (if reviewed.Some? && ReReads(t, reviewed.value, page.final.value)
       then BoundRevision(Rebound(reviewed.value, page.final.value)) else [])
  }

  function RevisionsFrom(t: Task, s: State, pages: seq<Page>, left: nat): seq<int>
    decreases left
  {
    if left == 0 || pages == [] then []
    else
      PageRevisions(t, s, pages[0])
      + match PageStep(t, s, pages[0])
        case Ok(Turn(s')) => RevisionsFrom(t, s', pages[1..], left - 1)
        case _ => []
  }

  /** Every attachment revision that the run ever binds, in order, from the recovered manifest on. */
  function Revisions(t: Task, pages: seq<Page>, maxPages: nat): seq<int>
    requires StartState(t).Ok?
  {
    BoundRevision(StartState(t).value) + RevisionsFrom(t, StartState(t).value, pages, maxPages)
  }

  // ----- where the run is reviewed

  /** The page on which a run comes to its final review, the state there, and the answers. */
  datatype Arrival = Arrival(index: nat, state: State, answers: FinalAnswers)

  function ArrivalFrom(t: Task, s: State, pages: seq<Page>, left: nat): (a: Option<Arrival>)
    ensures a.Some? ==> a.value.index < |pages|
    decreases left
  {
    if left == 0 || pages == [] then None
    else if ReviewedOn(t, s, pages[0]).Some? then
      Some(Arrival(0, ReviewedOn(t, s, pages[0]).value, pages[0].final.value))
    else
      match PageStep(t, s, pages[0])
      case Ok(Turn(s')) =>
        (match ArrivalFrom(t, s', pages[1..], left - 1)
         case Some(a) => Some(a.(index := a.index + 1))
         case None => None)
      case _ => None
  }

  function ArrivalOf(t: Task, pages: seq<Page>, maxPages: nat): (a: Option<Arrival>)
    requires StartState(t).Ok?
    ensures a.Some? ==> a.value.index < |pages|
  {
    ArrivalFrom(t, StartState(t).value, pages, maxPages)
  }

  /** The same run with other answers in its final review. */
  function WithFinal(pages: seq<Page>, i: nat, g: FinalAnswers): seq<Page>
    requires i < |pages|
  {
    pages[i := pages[i].(final := Some(g))]
  }

  /** The revision at which a run becomes READY, if it does. */
  function Certified(t: Task, pages: seq<Page>, maxPages: nat): Option<int> {
    match RunSpec(t, pages, maxPages)
    case Ok((_, p)) => Some(p.certificate.revision)
    case Refused(_) => None
  }

  lemma StepIsReview(t: Task, s: State, page: Page, g: FinalAnswers)
    ensures PageStep(t, s, page).Ok? && PageStep(t, s, page).value.Done? ==> ReviewedOn(t, s, page).Some?
    ensures ReviewedOn(t, s, page).Some? ==>
              PageStep(t, s, page) == FinalReview(t, ReviewedOn(t, s, page).value, page.final.value)
    ensures page.final.Some? ==> ReviewedOn(t, s, page.(final := Some(g))) == ReviewedOn(t, s, page)
    ensures CompletedOn(t, s, page.(final := Some(g))) == CompletedOn(t, s, page)
  {
    hide BindRows, FinalReview;
    SamePage(t, s, page, g);
    hide CompletePage, EnterPage, CheckStructure;
  }

  lemma SamePage(t: Task, s: State, page: Page, g: FinalAnswers)
    ensures var other := page.(final := Some(g));
            && EnterPage(t, other) == EnterPage(t, page) && other.offer == page.offer && other.form == page.form
            && (page.form.Observation? ==> CheckStructure(other) == CheckStructure(page))
            && forall b | !page.form.Unobservable? :: CompletePage(t, b, other) == CompletePage(t, b, page)
  {
    hide FillChildren, Bindable, Reselects, ResolveOtp, Extend, SelectedSlots, Selectors;
  }

  lemma ReviewEnds(t: Task, s: State, f: FinalAnswers)
    ensures FinalReview(t, s, f).Ok? ==> FinalReview(t, s, f).value.Done?
    ensures CertifiedBy(t, s, f).Some? <==> FinalReview(t, s, f).Ok?
  {
    hide ReadBack, Review;
  }

  /** Whatever the final answers, the run from here is as good as the review that it comes to. */
  lemma {:induction false} ArrivalRuns(t: Task, s: State, pages: seq<Page>, left: nat, g: FinalAnswers)
    requires ArrivalFrom(t, s, pages, left).Some?
    ensures var a := ArrivalFrom(t, s, pages, left).value;
            var r := RunFrom(t, s, WithFinal(pages, a.index, g), left);
            && (r.Ok? <==> CertifiedBy(t, a.state, g).Some?)
            && (r.Ok? ==> r.value.1.certificate.revision == CertifiedBy(t, a.state, g).value)
            && (SameReads(a.answers, g) ==>
                  RevisionsFrom(t, s, WithFinal(pages, a.index, g), left) == RevisionsFrom(t, s, pages, left))
    decreases left
  {
    hide PageStep, ReviewedOn, FinalReview, CompletedOn, ReReads, Rebound;
    var a := ArrivalFrom(t, s, pages, left).value;
    var varied := WithFinal(pages, a.index, g);
    if a.index == 0 {
      FirstArrives(t, s, pages, left, g);
    } else {
      LaterArrives(t, s, pages, left);
      var next := PageStep(t, s, pages[0]).value.state;
      assert varied[0] == pages[0] && varied[1..] == WithFinal(pages[1..], a.index - 1, g);
      ArrivalRuns(t, next, pages[1..], left - 1, g);
    }
  }

  lemma LaterArrives(t: Task, s: State, pages: seq<Page>, left: nat)
    requires ArrivalFrom(t, s, pages, left).Some? && ArrivalFrom(t, s, pages, left).value.index > 0
    ensures left > 0 && pages != [] && PageStep(t, s, pages[0]).Ok? && PageStep(t, s, pages[0]).value.Turn?
    ensures var a := ArrivalFrom(t, s, pages, left).value;
            var rest := ArrivalFrom(t, PageStep(t, s, pages[0]).value.state, pages[1..], left - 1);
            rest == Some(a.(index := a.index - 1))
  {
    hide PageStep, ReviewedOn;
  }

  lemma FirstArrives(t: Task, s: State, pages: seq<Page>, left: nat, g: FinalAnswers)
    requires ArrivalFrom(t, s, pages, left).Some? && ArrivalFrom(t, s, pages, left).value.index == 0
    ensures var a := ArrivalFrom(t, s, pages, left).value;
            var r := RunFrom(t, s, WithFinal(pages, a.index, g), left);
            && ReviewedOn(t, s, pages[0]) == Some(a.state) && pages[0].final == Some(a.answers)
            && (r.Ok? <==> CertifiedBy(t, a.state, g).Some?)
            && (r.Ok? ==> r.value.1.certificate.revision == CertifiedBy(t, a.state, g).value)
            && (SameReads(a.answers, g) ==>
                  RevisionsFrom(t, s, WithFinal(pages, a.index, g), left) == RevisionsFrom(t, s, pages, left))
  {
    hide PageStep, ReviewedOn, FinalReview, CompletedOn;
    var a := ArrivalFrom(t, s, pages, left).value;
    var page := pages[0].(final := Some(g));
    StepIsReview(t, s, pages[0], g);
    StepIsReview(t, s, page, g);
    ReviewEnds(t, a.state, g);
    ReviewEnds(t, a.state, a.answers);
    assert WithFinal(pages, 0, g)[0] == page;
  }

  /** Every binding still names one draft when the run comes to its review. */
  lemma {:induction false} ArrivalKept(t: Task, s: State, pages: seq<Page>, left: nat)
    requires Kept(t, s) && ArrivalFrom(t, s, pages, left).Some?
    ensures Kept(t, ArrivalFrom(t, s, pages, left).value.state)
    decreases left
  {
    hide PageStep, Kept, CompletePage, BindRows;
    var a := ArrivalFrom(t, s, pages, left).value;
    if a.index == 0 {
      var bound := BindRows(t, s, pages[0].offer).value;
      BindKeeps(t, s, pages[0].offer);
      CompleteKeeps(t, bound, pages[0]);
    } else {
      LaterArrives(t, s, pages, left);
      StepKeeps(t, s, pages[0]);
      ArrivalKept(t, PageStep(t, s, pages[0]).value.state, pages[1..], left - 1);
    }
  }

  // ----- when the certified revision covers what the run bound

  predicate Covers(values: seq<int>, revision: int) {
    forall v | v in values :: v <= revision
  }

  /** With these re-reads, every READY of the run is at a height or above it if and only if the floor is: the revision
      that certify_review is given is the only guard. */
  lemma RunFloorIff(t: Task, pages: seq<Page>, maxPages: nat, height: int)
    requires StartState(t).Ok? && ArrivalOf(t, pages, maxPages).Some?
    requires var a := ArrivalOf(t, pages, maxPages).value; Reviewable(t, a.state) && ReReads(t, a.state, a.answers)
    ensures var a := ArrivalOf(t, pages, maxPages).value;
            (forall g | SameReads(a.answers, g) && Certified(t, WithFinal(pages, a.index, g), maxPages).Some? ::
               Certified(t, WithFinal(pages, a.index, g), maxPages).value >= height)
            <==> Floor(t, a.state, a.answers) >= height
  {
    hide RunFrom, ArrivalFrom, CertifiedBy, ReReads, Reviewable, Floor, Kept;
    var a := ArrivalOf(t, pages, maxPages).value;
    StartKept(t);
    ArrivalKept(t, StartState(t).value, pages, maxPages);
    assert OneDraft(a.state) by { KeptIsOneDraft(t, a.state); }
    FloorIff(t, a.state, a.answers, height);
    forall g ensures Certified(t, WithFinal(pages, a.index, g), maxPages) == CertifiedBy(t, a.state, g) {
      ArrivalRuns(t, StartState(t).value, pages, maxPages, g);
    }
  }

  lemma KeptIsOneDraft(t: Task, s: State)
    requires Kept(t, s)
    ensures OneDraft(s)
  {
  }

  /** Every READY that these re-reads allow covers every attachment revision that the run ever bound if and only if the
      floor of the re-reads does. */
  lemma CoveredIff(t: Task, pages: seq<Page>, maxPages: nat)
    requires StartState(t).Ok? && ArrivalOf(t, pages, maxPages).Some?
    requires var a := ArrivalOf(t, pages, maxPages).value; Reviewable(t, a.state) && ReReads(t, a.state, a.answers)
    ensures var a := ArrivalOf(t, pages, maxPages).value;
            (forall g | SameReads(a.answers, g) && Certified(t, WithFinal(pages, a.index, g), maxPages).Some? ::
               Covers(Revisions(t, WithFinal(pages, a.index, g), maxPages),
                      Certified(t, WithFinal(pages, a.index, g), maxPages).value))
            <==> Covers(Revisions(t, pages, maxPages), Floor(t, a.state, a.answers))
  {
    hide RunFrom, ArrivalFrom, CertifiedBy, ReReads, Reviewable, Floor, RevisionsFrom, Certified;
    var a := ArrivalOf(t, pages, maxPages).value;
    var values, floor := Revisions(t, pages, maxPages), Floor(t, a.state, a.answers);
    forall g | SameReads(a.answers, g) ensures Revisions(t, WithFinal(pages, a.index, g), maxPages) == values {
      ArrivalRuns(t, StartState(t).value, pages, maxPages, g);
    }
    RunFloorIff(t, pages, maxPages, floor);
    forall v | v in values && v > floor
      ensures exists g :: SameReads(a.answers, g) && Certified(t, WithFinal(pages, a.index, g), maxPages).Some?
                          && Certified(t, WithFinal(pages, a.index, g), maxPages).value < v
    {
      RunFloorIff(t, pages, maxPages, v);
    }
  }

  // ----- runs whose bindings never fall

  /** No binding is below the one that it replaces. */
  predicate Rising(values: seq<int>) {
    forall i | 0 < i < |values| :: values[i - 1] <= values[i]
  }

  lemma {:induction false} LastIsHighest(values: seq<int>, i: nat)
    requires Rising(values) && i < |values|
    ensures values[i] <= values[|values| - 1]
    decreases |values| - i
  {
    if i + 1 < |values| {
      assert values[i + 1 - 1] <= values[i + 1];
      LastIsHighest(values, i + 1);
    }
  }

  lemma CompleteBinds(t: Task, s: State, page: Page)
    requires !page.form.Unobservable? && CompletePage(t, s, page).Ok?
    ensures s.attachment.Some? ==> CompletePage(t, s, page).value.attachment.Some?
  {
    hide FillChildren, Bindable, Reselects;
    FillBinds(t, s, page);
  }

  lemma FillBinds(t: Task, s: State, page: Page)
    requires !page.form.Unobservable? && FillPage(t, s, page).Ok?
    ensures FillPage(t, s, page).value.state.attachment == s.attachment
  {
    hide Bindable, Reselects;
    if page.form.Observation? {
      ChildrenBind(Filled(Extend(s, page.form.fields), page.form.fields, page.filled.value),
                   Selectors(page.form.fields), page.rounds, CHILD_ROUNDS);
    }
  }

  lemma {:induction false} ChildrenBind(f: Filled, known: set<string>, rounds: seq<Round>, left: nat)
    requires FillChildren(f, known, rounds, left).Ok?
    ensures FillChildren(f, known, rounds, left).value.state.attachment == f.state.attachment
    decreases left
  {
    hide Bindable, Supported, OpenFields;
    if left > 0 && f.ok {
      var added := Added(rounds[0].form.fields, known);
      if Supported(rounds[0].form) && added != [] {
        ChildrenBind(Filled(Extend(f.state, added), f.resolutions + added, rounds[0].filled.value),
                     known + Selectors(added), rounds[1..], left - 1);
      }
    }
  }

  /** The last binding of the run before its review is the re-read one, if anything was uploaded. */
  predicate EndsAt(values: seq<int>, s: State) {
    if s.attachment.Some? then values != [] && values[|values| - 1] == s.attachment.value.revision else values == []
  }

  lemma TurnEnds(t: Task, s: State, page: Page)
    requires PageStep(t, s, page).Ok? && PageStep(t, s, page).value.Turn? && ReviewedOn(t, s, page).None?
    ensures EndsAt(BoundRevision(s) + PageRevisions(t, s, page), PageStep(t, s, page).value.state)
  {
    hide EnterPage, CompletePage, FinalReview, DraftProved, CheckStructure, AdmitContracts, Reconcile;
    var bound := BindRows(t, s, page.offer).value;
    assert bound.attachment == s.attachment;
    if !(OnlyStarts(page) && page.started.value) { CompleteBinds(t, bound, page); }
  }

  lemma ArrivalEnds(t: Task, s: State, page: Page)
    requires ReviewedOn(t, s, page).Some? && ReReads(t, ReviewedOn(t, s, page).value, page.final.value)
    ensures EndsAt(BoundRevision(s) + PageRevisions(t, s, page),
                   Rebound(ReviewedOn(t, s, page).value, page.final.value))
  {
    hide EnterPage, CompletePage, CheckStructure, AdmitContracts, Reconcile, AllRead;
    var bound := BindRows(t, s, page.offer).value;
    assert bound.attachment == s.attachment;
    CompleteBinds(t, bound, page);
  }

  lemma {:induction false} RunEnds(t: Task, s: State, pages: seq<Page>, left: nat)
    requires ArrivalFrom(t, s, pages, left).Some?
    requires var a := ArrivalFrom(t, s, pages, left).value;
             ReReads(t, a.state, a.answers) && CertifiedBy(t, a.state, a.answers).Some?
    ensures var a := ArrivalFrom(t, s, pages, left).value;
            EndsAt(BoundRevision(s) + RevisionsFrom(t, s, pages, left), Rebound(a.state, a.answers))
    decreases left
  {
    hide PageStep, PageRevisions, ReReads, Rebound, CertifiedBy, ReviewedOn, BoundRevision, EndsAt, FinalReview;
    var a := ArrivalFrom(t, s, pages, left).value;
    var mine := PageRevisions(t, s, pages[0]);
    if a.index == 0 {
      ArrivalEnds(t, s, pages[0]);
      StepIsReview(t, s, pages[0], a.answers);
      ReviewEnds(t, a.state, a.answers);
      assert mine + [] == mine;
    } else {
      LaterArrives(t, s, pages, left);
      var next := PageStep(t, s, pages[0]).value.state;
      assert ReviewedOn(t, s, pages[0]).None?;
      TurnEnds(t, s, pages[0]);
      RunEnds(t, next, pages[1..], left - 1);
      var rest := RevisionsFrom(t, next, pages[1..], left - 1);
      EndsLater(BoundRevision(s) + mine, next, rest, Rebound(a.state, a.answers));
      assert BoundRevision(s) + (mine + rest) == (BoundRevision(s) + mine) + rest;
    }
  }

  lemma EndsLater(before: seq<int>, s: State, rest: seq<int>, end: State)
    requires EndsAt(before, s) && EndsAt(BoundRevision(s) + rest, end)
    ensures EndsAt(before + rest, end)
  {
  }

  /** A run that becomes READY came to a review of a reviewable state, with its re-reads. */
  lemma {:induction false} ReadyArrives(t: Task, s: State, pages: seq<Page>, left: nat)
    requires RunFrom(t, s, pages, left).Ok?
    ensures ArrivalFrom(t, s, pages, left).Some?
    ensures var a := ArrivalFrom(t, s, pages, left).value;
            && ReReads(t, a.state, a.answers) && Reviewable(t, a.state)
            && CertifiedBy(t, a.state, a.answers) == Some(RunFrom(t, s, pages, left).value.1.certificate.revision)
    decreases left
  {
    hide PageStep, ReviewedOn, FinalReview, ReReads, Reviewable, Floor;
    StepIsReview(t, s, pages[0], AnyAnswers());
    var move := PageStep(t, s, pages[0]).value;
    if ReviewedOn(t, s, pages[0]).Some? {
      var c, f := ReviewedOn(t, s, pages[0]).value, pages[0].final.value;
      ReviewEnds(t, c, f);
      CertifiedFromFloor(t, c, f);
      ReadyWasReviewable(t, c, f);
    } else {
      ReadyArrives(t, move.state, pages[1..], left - 1);
    }
  }

  function AnyAnswers(): FinalAnswers {
    FinalAnswers([], None, true, None, true, None, None, true)
  }

  /** If no binding of a READY run is below the one that it replaces, the floor of its re-reads covers them all, and so
      does the certificate. */
  lemma RisingIsCovered(t: Task, pages: seq<Page>, maxPages: nat)
    requires RunSpec(t, pages, maxPages).Ok? && Rising(Revisions(t, pages, maxPages))
    ensures ArrivalOf(t, pages, maxPages).Some?
    ensures var a := ArrivalOf(t, pages, maxPages).value;
            && ReReads(t, a.state, a.answers)
            && Covers(Revisions(t, pages, maxPages), Floor(t, a.state, a.answers))
            && Floor(t, a.state, a.answers) <= RunSpec(t, pages, maxPages).value.1.certificate.revision
  {
    hide RunFrom, RevisionsFrom, Rising, ArrivalFrom, ReReads, Floor, CertifiedBy, Reviewable, RowReads;
    ReadyArrives(t, StartState(t).value, pages, maxPages);
    RunEnds(t, StartState(t).value, pages, maxPages);
    hide StartState, BoundRevision;
    var a := ArrivalOf(t, pages, maxPages).value;
    CertifiedFromFloor(t, a.state, a.answers);
    var values := Revisions(t, pages, maxPages);
    forall v | v in values ensures v <= Floor(t, a.state, a.answers) {
      var i :| 0 <= i < |values| && values[i] == v;
      LastIsHighest(values, i);
      EndsBelowFloor(t, values, a.state, a.answers);
    }
  }

  lemma EndsBelowFloor(t: Task, values: seq<int>, s: State, f: FinalAnswers)
    requires ReReads(t, s, f) && values != [] && EndsAt(values, Rebound(s, f))
    ensures values[|values| - 1] <= Floor(t, s, f)
  {
    BelowFloor(t, s, f);
    hide Floor, RowReads;
  }
}
