/** ApplicationExecutor.run as a function of what the adapter answers. A run whose adapter stops answering raises. */
module ReadyRun {
  import opened Results
  import opened ReviewCertificate
  import opened RowContract
  import opened FillIdentity
  import opened OtpChallenge

  const COLLECTIONS := {"education_records", "projects", "work_records", "research_records"}
  const CHILD_ROUNDS := 4

  /** One proved upload: the draft that retained it and the lowest revision among the receipts. */
  datatype Attachment = Attachment(draft: Digest, revision: int)

  /** observed is the latest revision that the reconciler's journal holds after the reconciliation, if it holds any. */
  datatype RowBinding = RowBinding(draft: Digest, collection: string, desired: seq<DesiredRow>, observed: Option<int>)

  /** The end of one reconciliation. */
  datatype Receipt = Unproved | Reconciled(observed: Option<int>)

  /** What the run carries from page to page. */
  datatype State = State(fields: seq<Field>, unresolved: seq<Field>, attachment: Option<Attachment>,
                         slots: seq<string>, rows: seq<RowBinding>)

  datatype Manifest = NoManifest | BadManifest | Loaded(attachment: Attachment, slots: seq<string>)

  datatype Task = Task(
    target: string, profile: Profile, assets: map<string, Digest>, account: Option<Digest>, version: string,
    planAttachments: set<string>, live: bool, journal: bool, unscopedJournal: bool, prior: set<string>,
    manifest: Manifest, resumable: bool)

  /** structured_row_contract and the reconciliations, one receipt each. */
  datatype Offer = NoBuilder | OfferBlocked | OfferRaised | Offered(contracts: seq<Contract>, receipts: seq<Receipt>)

  /** Discovered fields carry their resolution. */
  datatype Form =
    | Discovered(fields: seq<Field>)
    | Observation(fields: seq<Field>, complete: bool, rows: bool, unsupported: bool, ambiguousFields: bool,
                  ambiguousRows: bool)
    | Unobservable

  /** One re-observation after a fill; filled is None when the write raises. */
  datatype Round = Round(form: Form, filled: Option<bool>)

  datatype Evidence = Evidence(verified: bool, serverReadback: bool, draft: Option<Digest>, revision: Option<int>)

  datatype FinalAnswers = FinalAnswers(
    revisions: seq<Option<int>>, retained: Option<Attachment>, verifier: bool, evidence: Option<Evidence>,
    covered: bool, first: Option<Snapshot>, second: Option<Snapshot>, profileUnchanged: bool)

  /** An adapter's answers on one page; None stands for an exception that leaves run. */
  datatype Page = Page(
    guard: bool, auth: Auth, otp: OtpAnswers, accountVerified: bool, offer: Offer, form: Form, authField: bool,
    started: Option<bool>, rowsCertified: bool, emptyFinal: Option<bool>, filled: Option<bool>, rounds: seq<Round>,
    uploaded: Option<Attachment>, manifestSaved: bool, valid: Option<bool>, consistent: bool,
    finalControl: Option<bool>, final: Option<FinalAnswers>, nextControl: Option<bool>, evidence: Option<Evidence>,
    journalRevision: int, advanced: Option<bool>)

  /** Everything that the run proved before READY. */
  datatype Proof = Proof(evidence: Option<Evidence>, revisions: seq<int>, expected: Expected,
                         certificate: Certificate, first: Snapshot, second: Snapshot)

  datatype Move = Turn(state: State) | Done(state: State, proof: Proof)

  /** The collections for which an earlier run left a scoped row journal. */
  function Prior(t: Task): set<string> {
    if t.journal then t.prior else {}
  }

  // ----- one page, step by step

  function EnterPage(t: Task, page: Page): Outcome<Halt> {
    if !page.guard then Fail(Raised)
    else
      var challenge :=
        match page.auth
        case NoAuth => Pass
        case OneTimeCode => ResolveOtp(page.otp).verdict
        case OtherAuth => Fail(Blocked(HumanHandling))
        case AuthLost => Fail(Raised);
      if challenge.Fail? then challenge
      else Need(!t.live || page.accountVerified, Blocked(AccountUnverified))
  }

  function Keys(rows: seq<RowBinding>): set<string> {
    set r | r in rows :: r.collection
  }

  function OfferedKeys(contracts: seq<Contract>): set<string> {
    set c | c in contracts :: c.collection
  }

  /** Everything that is checked before the first row is written. */
  predicate AdmitContracts(t: Task, s: State, contracts: seq<Contract>) {
    && contracts != []
    && (forall i, j | 0 <= i < j < |contracts| :: contracts[i].collection != contracts[j].collection)
    && Prior(t) <= Keys(s.rows) + OfferedKeys(contracts)
    && (forall c | c in contracts :: c.draft == contracts[0].draft && c.collection in COLLECTIONS && c.versioned
                                     && "" !in c.deletes)
    && (s.rows != [] ==> contracts[0].draft == s.rows[0].draft)
    && (s.attachment.Some? ==> contracts[0].draft == s.attachment.value.draft)
    && t.journal
    && (forall c | c in contracts :: ValidateContract(t.profile, c))
  }

  function BindingOf(c: Contract, observed: Option<int>): RowBinding {
    RowBinding(c.draft, c.collection, c.desired, observed)
  }

  /** The reconciliation loop: contracts[i..] are still to be reconciled. */
  function Reconcile(contracts: seq<Contract>, receipts: seq<Receipt>, i: nat, rows: seq<RowBinding>)
    : Result<seq<RowBinding>, Halt>
    requires i <= |contracts|
    decreases |contracts| - i
  {
    if i == |contracts| then Ok(rows)
    else if i >= |receipts| then Refused(Raised)
    else if receipts[i].Unproved? then Refused(Blocked(RowsUnverified))
    else Reconcile(contracts, receipts, i + 1, rows + [BindingOf(contracts[i], receipts[i].observed)])
  }

  function BindRows(t: Task, s: State, offer: Offer): Result<State, Halt> {
    match offer
    case NoBuilder => Ok(s)
    case OfferBlocked => Refused(Blocked(RowsUnverified))
    case OfferRaised => Refused(Raised)
    case Offered(contracts, receipts) =>
      if !AdmitContracts(t, s, contracts) then Refused(Blocked(RowsUnverified))
      else
        var rows :- Reconcile(contracts, receipts, 0, s.rows);
        Ok(s.(rows := rows))
  }

  function Identities(fields: seq<Field>): seq<Identity> {
    seq(|fields|, i requires 0 <= i < |fields| => Identity(fields[i].selector, fields[i].fieldId))
  }

  predicate Supported(form: Form) {
    form.Observation? && form.complete && !form.unsupported && !form.ambiguousFields && !form.ambiguousRows
  }

  /** FillPlan.bind */
  predicate Bindable(form: Form, actions: seq<Field>) {
    && Supported(form)
    && UniqueFillIdentity(Identities(form.fields)) && UniqueFillIdentity(Identities(actions))
    && (forall a | a in actions :: exists f | f in form.fields :: f.selector == a.selector)
  }

  predicate Open(f: Field) {
    f.status.Unresolved? || f.status.UserConfirmation?
  }

  function OpenFields(fields: seq<Field>): seq<Field> {
    if fields == [] then []
    else (if Open(fields[0]) then [fields[0]] else []) + OpenFields(fields[1..])
  }

  function Extend(s: State, added: seq<Field>): State {
    s.(fields := s.fields + added, unresolved := s.unresolved + OpenFields(added))
  }

  function Selectors(fields: seq<Field>): set<string> {
    set f | f in fields :: f.selector
  }

  function Added(fields: seq<Field>, known: set<string>): seq<Field> {
    if fields == [] then []
    else (if fields[0].selector !in known then [fields[0]] else []) + Added(fields[1..], known)
  }

  /** The page after its fills: every resolution of the page, and whether all writes were ok. */
  datatype Filled = Filled(state: State, resolutions: seq<Field>, ok: bool)

  /** The loop that binds the fields revealed by the fills, at most four times. */
  function FillChildren(f: Filled, known: set<string>, rounds: seq<Round>, left: nat): Result<Filled, Halt>
    decreases left
  {
    if left == 0 || !f.ok then Ok(f)
    else if rounds == [] || rounds[0].form.Discovered? then Refused(Raised)
    else if rounds[0].form.Unobservable? then Refused(Blocked(ObservationUnavailable))
    else
      var form := rounds[0].form;
      var added := Added(form.fields, known);
      if !Supported(form) || added == [] then Ok(f)
      else if !Bindable(form, added) then Refused(Blocked(FillPlanUnverified))
      else if rounds[0].filled.None? then Refused(Raised)
      else FillChildren(Filled(Extend(f.state, added), f.resolutions + added, rounds[0].filled.value),
                        known + Selectors(added), rounds[1..], left - 1)
  }

  predicate SelectsAsset(f: Field) {
    f.status.Resolved? && f.asset.Some? && f.asset.value in {"resume", "photo"}
  }

  function SelectedSlots(fields: seq<Field>): seq<string> {
    if fields == [] then []
    else (if SelectsAsset(fields[0]) then [fields[0].asset.value] else []) + SelectedSlots(fields[1..])
  }

  /** A recovered page may not select again a file whose upload is already bound. */
  predicate Reselects(s: State, fields: seq<Field>) {
    s.attachment.Some? && exists f | f in fields :: f.status.Resolved? && f.asset.Some? && f.asset.value in s.slots
  }

  function FillPage(t: Task, s: State, page: Page): Result<Filled, Halt>
    requires !page.form.Unobservable?
  {
    var fields := page.form.fields;
    if Reselects(s, fields) then Refused(Blocked(AttachmentUnverified))
    else if page.form.Observation? && !Bindable(page.form, fields) then Refused(Blocked(FillPlanUnverified))
    else if page.filled.None? then Refused(Raised)
    else
      var first := Filled(Extend(s, fields), fields, page.filled.value);
      var done :- if page.form.Observation?
                  then FillChildren(first, Selectors(fields), page.rounds, CHILD_ROUNDS) else Ok(first);
      if !done.ok then Refused(Blocked(FillFailed)) else Ok(done)
  }

  function ReadAttachments(t: Task, s: State, resolutions: seq<Field>, page: Page): Result<State, Halt> {
    var slots := SelectedSlots(resolutions);
    if slots == [] then Ok(s)
    else if page.uploaded.None? then Refused(Blocked(AttachmentUnverified))
    else
      var binding := page.uploaded.value;
      if (s.rows != [] && binding.draft != s.rows[0].draft)
         || (s.attachment.Some? && s.attachment.value.draft != binding.draft)
         || !page.manifestSaved
      then Refused(Blocked(AttachmentUnverified))
      else Ok(s.(attachment := Some(binding), slots := s.slots + slots))
  }

  predicate Blocking(f: Field) {
    f.status.UserConfirmation? || (f.required && f.status.Unresolved?)
  }

  function CheckPage(resolutions: seq<Field>, page: Page): Outcome<Halt> {
    if exists f | f in resolutions :: Blocking(f) then Fail(Blocked(UserInputRequired))
    else if page.valid.None? then Fail(Raised)
    else if !page.valid.value then Fail(Blocked(ValidationFailed))
    else Need(page.consistent, Blocked(ConsistencyFailed))
  }

  /** The persistence receipt names the bound draft, at no lower revision than what is bound to it. */
  predicate DraftProved(s: State, floor: int, e: Option<Evidence>) {
    && e.Some? && e.value.verified
    && (s.rows != [] ==> && e.value.serverReadback && e.value.draft == Some(s.rows[0].draft)
                         && e.value.revision.Some? && e.value.revision.value >= floor)
    && (s.attachment.Some? ==> && e.value.serverReadback && e.value.draft == Some(s.attachment.value.draft)
                               && e.value.revision.Some? && e.value.revision.value >= s.attachment.value.revision)
  }

  // ----- the final review

  /** Every row collection was read again; the reconciler refuses a revision below the latest that it observed. */
  predicate AllRead(revisions: seq<Option<int>>, rows: seq<RowBinding>) {
    && |revisions| == |rows|
    && forall i | 0 <= i < |rows| ::
         revisions[i].Some? && (rows[i].observed.Some? ==> revisions[i].value >= rows[i].observed.value)
  }

  function Values(revisions: seq<Option<int>>): seq<int>
    requires forall i | 0 <= i < |revisions| :: revisions[i].Some?
  {
    seq(|revisions|, i requires 0 <= i < |revisions| => revisions[i].value)
  }

  function Highest(values: seq<int>): (m: int)
    requires values != []
    ensures m in values && forall v | v in values :: v <= m
  {
    if |values| == 1 then values[0]
    else
      var rest := Highest(values[1..]);
      assert forall v | v in values :: v == values[0] || v in values[1..];
      if values[0] >= rest then values[0] else rest
  }

  function ExpectedRows(rows: seq<RowBinding>): Rows {
    if rows == [] then map[]
    else ExpectedRows(rows[..|rows| - 1])[rows[|rows| - 1].collection := DesiredMap(rows[|rows| - 1].desired)]
  }

  predicate SlotsKnown(t: Task, slots: seq<string>) {
    forall k | k in slots :: k in t.assets
  }

  function ExpectedAttachments(t: Task, slots: seq<string>): map<string, Digest>
    requires SlotsKnown(t, slots)
  {
    map k | k in slots :: t.assets[k]
  }

  function Projects(p: Profile): seq<Project> {
    var records := Collection(p, "projects");
    var excluded := if p.exclusions.Some? then p.exclusions.value else {};
    if records.None? then []
    else seq(|records.value|, i requires 0 <= i < |records.value| =>
               var id := records.value[i].id; Project(id, id.Some? && id.value in excluded))
  }

  /** The arguments of certify_review. */
  function ExpectationOf(t: Task, s: State, revisions: seq<int>): Expected
    requires SlotsKnown(t, s.slots)
  {
    Expected(if s.rows != [] then Some(s.rows[0].draft)
             else if s.attachment.Some? then Some(s.attachment.value.draft) else None,
             t.account, ExpectedRows(s.rows), ExpectedAttachments(t, s.slots),
             Highest(revisions + [if s.attachment.Some? then s.attachment.value.revision else 0]),
             t.version, Projects(t.profile))
  }

  function PlanOf(t: Task, s: State): Plan {
    Plan(t.target, s.fields, s.unresolved, t.planAttachments)
  }

  /** Before the review: the prior journals, the rows, the uploads and the draft receipt. */
  function ReadBack(t: Task, s: State, f: FinalAnswers): Result<(State, seq<int>), Halt> {
    if !(Prior(t) <= Keys(s.rows)) then Refused(Blocked(RowsUnverified))
    else if s.rows != [] && !AllRead(f.revisions, s.rows) then Refused(Blocked(RowsUnverified))
    else if s.attachment.Some? && (f.retained.None? || f.retained.value.draft != s.attachment.value.draft)
    then Refused(Blocked(AttachmentUnverified))
    else
      var revisions := if s.rows == [] then [] else Values(f.revisions);
      var s' := if s.attachment.Some? then s.(attachment := f.retained) else s;
      var floor := if revisions == [] then 0 else Highest(revisions);
      if (s'.attachment.Some? || s'.rows != []) && !f.verifier then Refused(Blocked(DraftUnverified))
      else if f.verifier && !DraftProved(s', floor, f.evidence) then Refused(Blocked(DraftUnverified))
      else Ok((s', revisions))
  }

  function Review(t: Task, s: State, revisions: seq<int>, f: FinalAnswers): Result<Proof, Halt> {
    if !f.covered then Refused(Blocked(ProjectCoverageUnproven))
    else if t.account.None? || !SlotsKnown(t, s.slots) then Refused(Blocked(ReviewFailed))
    else
      var e := ExpectationOf(t, s, revisions);
      var first := Certify(PlanOf(t, s), f.first, e);
      if first.Refused? then Refused(Blocked(ReviewFailed))
      else
        var second := Recheck(first.value, PlanOf(t, s), f.second, e);
        if second.Refused? || !f.profileUnchanged || f.first.None? || f.second.None?
        then Refused(Blocked(ReviewFailed))
        else Ok(Proof(if f.verifier then f.evidence else None, revisions, e, first.value, f.first.value,
                      f.second.value))
  }

  function FinalReview(t: Task, s: State, f: FinalAnswers): Result<Move, Halt> {
    var read := ReadBack(t, s, f);
    if read.Refused? then Refused(read.reason)
    else
      var proof :- Review(t, read.value.0, read.value.1, f);
      Ok(Done(read.value.0, proof))
  }

  function Navigate(s: State, page: Page): Result<Move, Halt> {
    if page.nextControl.None? then Refused(Raised)
    else if page.nextControl.value && !DraftProved(s, page.journalRevision, page.evidence)
    then Refused(Blocked(DraftUnverified))
    else if page.advanced.None? then Refused(Raised)
    else if page.advanced.value then Ok(Turn(s))
    else Refused(Blocked(NoControl))
  }

  /** A form that shows no field may only open the application. */
  predicate OnlyStarts(page: Page) {
    !page.form.Unobservable? && page.form.fields == [] && (page.form.Observation? ==> page.form.complete)
  }

  function CheckStructure(page: Page): Outcome<Halt>
    requires page.form.Observation?
  {
    if (page.form.rows && !page.rowsCertified) || !Supported(page.form) then Fail(Blocked(StructureUnsupported))
    else if page.form.fields != [] then Pass
    else if page.emptyFinal.None? then Fail(Raised)
    else Need(!page.emptyFinal.value, Blocked(StructureUnsupported))
  }

  /** From the first observation of a page to its last check. */
  function CompletePage(t: Task, s: State, page: Page): Result<State, Halt>
    requires !page.form.Unobservable?
  {
    var filled := FillPage(t, s, page);
    if filled.Refused? then Refused(filled.reason)
    else
      var attached :- ReadAttachments(t, filled.value.state, filled.value.resolutions, page);
      :- CheckPage(filled.value.resolutions, page);
      Ok(attached)
  }

  function PageStep(t: Task, s: State, page: Page): Result<Move, Halt> {
    if EnterPage(t, page).Fail? then Refused(EnterPage(t, page).reason)
    else
      var bound :- BindRows(t, s, page.offer);
      if page.form.Unobservable? then Refused(Blocked(ObservationUnavailable))
      else if page.authField then Refused(Blocked(AuthenticationField))
      else if OnlyStarts(page) && page.started.None? then Refused(Raised)
      else if OnlyStarts(page) && page.started.value then Ok(Turn(bound))
      else if page.form.Observation? && CheckStructure(page).Fail? then Refused(CheckStructure(page).reason)
      else
        var complete :- CompletePage(t, bound, page);
        if page.finalControl.None? then Refused(Raised)
        else if !page.finalControl.value then Navigate(complete, page)
        else if page.final.None? then Refused(Raised)
        else FinalReview(t, complete, page.final.value)
  }

  function StartState(t: Task): Result<State, Halt> {
    if t.journal && t.unscopedJournal then Refused(Blocked(RowsUnverified))
    else if t.manifest.BadManifest? then Refused(Blocked(ManifestUnverified))
    else if !t.resumable then Refused(Raised)
    else if t.manifest.Loaded? then Ok(State([], [], Some(t.manifest.attachment), t.manifest.slots, []))
    else Ok(State([], [], None, [], []))
  }

  function RunFrom(t: Task, s: State, pages: seq<Page>, left: nat): Result<(State, Proof), Halt>
    decreases left
  {
    if left == 0 then Refused(Blocked(PageLimit))
    else if pages == [] then Refused(Raised)
    else
      match PageStep(t, s, pages[0])
      case Refused(why) => Refused(why)
      case Ok(Done(s', proof)) => Ok((s', proof))
      case Ok(Turn(s')) => RunFrom(t, s', pages[1..], left - 1)
  }

  function RunSpec(t: Task, pages: seq<Page>, maxPages: nat): Result<(State, Proof), Halt> {
    var start := StartState(t);
    if start.Refused? then Refused(start.reason) else RunFrom(t, start.value, pages, maxPages)
  }
}
