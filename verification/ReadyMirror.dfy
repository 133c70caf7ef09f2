/** When some answers of the server make a state READY, and at which revision. */
module ReadyMirror {
  import opened Results
  import opened ReviewCertificate
  import opened RowContract
  import opened OtpChallenge
  import opened ReadyRun
  import opened ReadyTheorems

  /** What the run itself must have brought to the review: everything else is up to the server's answers. */
  predicate Reviewable(t: Task, s: State) {
    && Prior(t) <= Keys(s.rows) && t.account.Some? && t.version != "" && SlotsKnown(t, s.slots)
    && t.planAttachments <= (set k | k in s.slots)
    && s.unresolved == [] && (forall f | f in s.fields :: Settled(f.status))
    && forall id | id in RequiredProjects(Projects(t.profile)) ::
         id.Some? && "projects" in ExpectedRows(s.rows) && id.value in ExpectedRows(s.rows)["projects"]
  }

  // ----- the readback that mirrors the state

  lemma MapGrows(rest: map<string, RowDigest>, k: string, v: RowDigest)
    requires k !in rest
    ensures |rest[k := v]| == |rest| + 1 && rest[k := v].Keys == rest.Keys + {k}
  {
    assert rest[k := v].Keys == rest.Keys + {k};
    assert |rest[k := v]| == |rest[k := v].Keys| && |rest| == |rest.Keys|;
  }

  lemma OneMoreRow(rs: seq<RowRecord>, rest: map<string, RowDigest>, k: string, v: RowDigest)
    requires RowsMatch(rs, rest) && RowIds(rs) == rest.Keys && k !in rest
    ensures RowsMatch(rs + [RowRecord(k, v)], rest[k := v]) && RowIds(rs + [RowRecord(k, v)]) == rest.Keys + {k}
  {
    hide RowIds;
    MapGrows(rest, k, v);
    var longer := rs + [RowRecord(k, v)];
    assert longer[..|longer| - 1] == rs && longer[|longer| - 1] == RowRecord(k, v);
    RowIdsGrow(rs, RowRecord(k, v));
  }

  lemma RowIdsGrow(rs: seq<RowRecord>, r: RowRecord)
    ensures RowIds(rs + [r]) == RowIds(rs) + {r.recordId}
  {
  }

  lemma OneLess(m: map<string, RowDigest>, k: string)
    requires k in m
    ensures |m - {k}| < |m| && (m - {k})[k := m[k]] == m && (m - {k}).Keys + {k} == m.Keys
  {
    assert (m - {k}).Keys == m.Keys - {k} && |m - {k}| == |(m - {k}).Keys| && |m| == |m.Keys|;
  }

  /** One server row per record. */
  ghost function RowsFor(m: map<string, RowDigest>): (rs: seq<RowRecord>)
    ensures RowsMatch(rs, m) && RowIds(rs) == m.Keys
    decreases |m|
  {
    if m == map[] then []
    else
      var k :| k in m;
      OneLess(m, k);
      OneMoreRow(RowsFor(m - {k}), m - {k}, k, m[k]);
      RowsFor(m - {k}) + [RowRecord(k, m[k])]
  }

  function Inventory(fields: seq<Field>): seq<Observed> {
    seq(|fields|, i requires 0 <= i < |fields| =>
      Observed(i, fields[i].selector, fields[i].fieldId, fields[i].required, fields[i].value, fields[i].scope, true))
  }

  ghost function Mirror(t: Task, s: State, draft: Digest, revision: int): Snapshot
    requires SlotsKnown(t, s.slots)
  {
    var rows := ExpectedRows(s.rows);
    Snapshot(true, t.target, Some(draft), Some(revision), true, t.account, true, true, true, Some(0), Some(0), Some(0),
             Some("e"), Some("v"), Some(Inventory(ExpectedFields(s.fields))), Some(ExpectedAttachments(t, s.slots)),
             Some(map k | k in rows :: RowsFor(rows[k])))
  }

  lemma {:induction false} MirrorCompares(expected: seq<Field>, i: nat)
    requires i <= |expected|
    ensures CompareFields(expected, Inventory(expected), i).Pass?
    decreases |expected| - i
  {
    if i < |expected| { MirrorCompares(expected, i + 1); }
  }

  /** A server that mirrors the state is certified at its own revision. */
  lemma MirrorCertifies(t: Task, s: State, e: Expected, draft: Digest, revision: int)
    requires Reviewable(t, s) && revision >= 1 && revision >= e.minimumRevision
    requires e == Expected(e.draft, t.account, ExpectedRows(s.rows), ExpectedAttachments(t, s.slots), e.minimumRevision,
                           t.version, Projects(t.profile))
    requires e.draft.Some? ==> e.draft.value == draft
    ensures var c := Certify(PlanOf(t, s), Some(Mirror(t, s, draft, revision)), e);
            && c.Ok? && c.value.revision == revision && c.value.draft == draft
            && Recheck(c.value, PlanOf(t, s), Some(Mirror(t, s, draft, revision)), e) == c
  {
    var plan, m := PlanOf(t, s), Mirror(t, s, draft, revision);
    MirrorObserved(t, s, e, draft, revision);
    MirrorObserved(t, s, e.(draft := Some(draft), minimumRevision := revision), draft, revision);
    MirrorFields(t, s, draft, revision);
    MirrorCollections(t, s, e, draft, revision);
    MirrorCollections(t, s, e.(draft := Some(draft), minimumRevision := revision), draft, revision);
    hide CheckObservation, CheckFields, CheckCollections, RowTotal, ExpectedRows, Projects, ExpectedAttachments,
      ExpectedFields, Inventory, RowsFor;
  }

  lemma MirrorObserved(t: Task, s: State, e: Expected, draft: Digest, revision: int)
    requires SlotsKnown(t, s.slots) && t.account.Some? && e.account == t.account
    requires revision >= 1 && revision >= e.minimumRevision && (e.draft.Some? ==> e.draft.value == draft)
    ensures CheckObservation(PlanOf(t, s), Mirror(t, s, draft, revision), e).Pass?
  {
    hide ExpectedRows, ExpectedAttachments, ExpectedFields, Inventory, RowsFor;
  }

  lemma MirrorFields(t: Task, s: State, draft: Digest, revision: int)
    requires Reviewable(t, s)
    ensures CheckFields(PlanOf(t, s), Mirror(t, s, draft, revision)).Pass?
  {
    MirrorCompares(ExpectedFields(s.fields), 0);
    hide ExpectedRows, ExpectedAttachments, ExpectedFields, CompareFields, RowsFor, Projects;
  }

  /** The mirrored rows cover the required projects. */
  lemma MirrorCovers(t: Task, s: State, draft: Digest, revision: int)
    requires Reviewable(t, s)
    ensures ProjectsCovered(Projects(t.profile), Mirror(t, s, draft, revision).rows.value)
  {
    hide ExpectedRows, ExpectedFields, ExpectedAttachments, Inventory, Projects, RowMap, RequiredProjects, RowsMatch;
  }

  /** The mirrored rows are the expected ones. */
  lemma MirrorRows(t: Task, s: State, draft: Digest, revision: int, k: string)
    requires SlotsKnown(t, s.slots)
    ensures var rows, e := Mirror(t, s, draft, revision).rows.value, ExpectedRows(s.rows);
            rows.Keys == e.Keys && (k in e ==> RowsMatch(rows[k], e[k]))
  {
    hide ExpectedRows, ExpectedFields, ExpectedAttachments, Inventory, RowMap, RowsMatch;
  }

  lemma MirrorCollections(t: Task, s: State, e: Expected, draft: Digest, revision: int)
    requires Reviewable(t, s)
    requires e == Expected(e.draft, e.account, ExpectedRows(s.rows), ExpectedAttachments(t, s.slots), e.minimumRevision,
                           t.version, Projects(t.profile))
    ensures CheckCollections(PlanOf(t, s), Mirror(t, s, draft, revision), e).Pass?
  {
    hide ExpectedRows, ExpectedFields, Inventory, Projects, RowMap, ProjectsCovered, RowsMatch, RequiredProjects,
      RowIds;
    MirrorCovers(t, s, draft, revision);
    assert PlanOf(t, s).attachments <= e.attachments.Keys;
    forall k ensures Mirror(t, s, draft, revision).rows.value.Keys == e.rows.Keys
                  && (k in e.rows ==> RowsMatch(Mirror(t, s, draft, revision).rows.value[k], e.rows[k]))
    {
      MirrorRows(t, s, draft, revision, k);
    }
    hide Mirror, Reviewable;
    MirrorAttaches(t, s, draft, revision);
  }

  lemma MirrorAttaches(t: Task, s: State, draft: Digest, revision: int)
    requires SlotsKnown(t, s.slots)
    ensures Mirror(t, s, draft, revision).attachments == Some(ExpectedAttachments(t, s.slots))
    ensures Mirror(t, s, draft, revision).rows.Some?
  {
    hide ExpectedRows, ExpectedFields, ExpectedAttachments, Inventory;
  }

  // ----- the answers

  /** Everything bound was read again before the review: the rows, and the uploads on the same draft. */
  predicate ReReads(t: Task, s: State, f: FinalAnswers) {
    && Prior(t) <= Keys(s.rows) && (s.rows != [] ==> AllRead(f.revisions, s.rows))
    && (s.attachment.Some? ==> f.retained.Some? && f.retained.value.draft == s.attachment.value.draft)
  }

  /** The state with the attachment binding that the re-read leaves. */
  function Rebound(s: State, f: FinalAnswers): State {
    if s.attachment.Some? then s.(attachment := f.retained) else s
  }

  function RowReads(s: State, f: FinalAnswers): seq<int>
    requires s.rows != [] ==> AllRead(f.revisions, s.rows)
  {
    if s.rows == [] then [] else Values(f.revisions)
  }

  function AttachmentRead(s: State, f: FinalAnswers): int
    requires s.attachment.Some? ==> f.retained.Some?
  {
    if s.attachment.Some? then f.retained.value.revision else 0
  }

  /** The lowest revision that certify_review accepts after these re-reads. */
  function Floor(t: Task, s: State, f: FinalAnswers): (floor: int)
    requires ReReads(t, s, f)
  {
    Highest(RowReads(s, f) + [AttachmentRead(s, f), 1])
  }

  /** The revision at which the review succeeds, if it does. */
  function CertifiedBy(t: Task, s: State, f: FinalAnswers): Option<int> {
    match FinalReview(t, s, f)
    case Ok(Done(_, p)) => Some(p.certificate.revision)
    case _ => None
  }

  predicate SameReads(f: FinalAnswers, g: FinalAnswers) {
    f.revisions == g.revisions && f.retained == g.retained
  }

  function DraftOf(s: State): Digest {
    if s.rows != [] then s.rows[0].draft else if s.attachment.Some? then s.attachment.value.draft else "d"
  }

  /** The same re-reads with a server that mirrors the state at one revision. */
  ghost function Mirrored(t: Task, s: State, f: FinalAnswers, revision: int): FinalAnswers
    requires SlotsKnown(t, s.slots)
  {
    var m, draft := Mirror(t, s, DraftOf(s), revision), DraftOf(s);
    f.(verifier := true, evidence := Some(Evidence(true, true, Some(draft), Some(revision))), covered := true,
       first := Some(m), second := Some(m), profileUnchanged := true)
  }

  /** Whatever was read again, a reviewable state is READY for some answers at every revision from the floor on. */
  lemma ReReadIsReady(t: Task, s: State, f: FinalAnswers, revision: int)
    requires Reviewable(t, s) && OneDraft(s) && ReReads(t, s, f) && revision >= Floor(t, s, f)
    ensures SameReads(f, Mirrored(t, s, f, revision))
    ensures CertifiedBy(t, s, Mirrored(t, s, f, revision)) == Some(revision)
    ensures FinalReview(t, s, Mirrored(t, s, f, revision)).value.state == Rebound(s, f)
  {
    hide Review, ReadBack, Floor, Reviewable, OneDraft, ReReads, Mirrored;
    MirroredReadsBack(t, s, f, revision);
    MirroredReviews(t, s, f, revision);
    MirroredReads(t, s, f, revision);
  }

  lemma MirroredReads(t: Task, s: State, f: FinalAnswers, revision: int)
    requires Reviewable(t, s)
    ensures SameReads(f, Mirrored(t, s, f, revision))
  {
    hide Mirror;
  }

  /** A rebound attachment changes nothing that the server mirrors. */
  lemma ReboundIsReviewable(t: Task, s: State, f: FinalAnswers, draft: Digest, revision: int)
    requires Reviewable(t, s)
    ensures Reviewable(t, Rebound(s, f)) && Mirror(t, Rebound(s, f), draft, revision) == Mirror(t, s, draft, revision)
  {
    hide ExpectedRows, ExpectedAttachments, ExpectedFields, Inventory, Projects, RequiredProjects, RowsFor;
  }

  lemma MirroredReviews(t: Task, s: State, f: FinalAnswers, revision: int)
    requires Reviewable(t, s) && OneDraft(s) && ReReads(t, s, f) && revision >= Floor(t, s, f)
    ensures var r := Review(t, Rebound(s, f), RowReads(s, f), Mirrored(t, s, f, revision));
            r.Ok? && r.value.certificate.revision == revision
  {
    hide Certify, Recheck, Mirror, ExpectedRows, ExpectedAttachments, Projects, Floor, RequiredProjects;
    var s' := Rebound(s, f);
    BelowFloor(t, s, f);
    ReboundIsReviewable(t, s, f, DraftOf(s), revision);
    var e := ExpectationOf(t, s', RowReads(s, f));
    MirrorCertifies(t, s', e, DraftOf(s), revision);
  }

  lemma BelowFloor(t: Task, s: State, f: FinalAnswers)
    requires ReReads(t, s, f)
    ensures forall v | v in RowReads(s, f) :: v <= Floor(t, s, f)
    ensures AttachmentRead(s, f) <= Floor(t, s, f)
    ensures Highest(RowReads(s, f) + [AttachmentRead(s, f)]) <= Floor(t, s, f) && 1 <= Floor(t, s, f)
    ensures Floor(t, s, f) == Highest(RowReads(s, f) + [AttachmentRead(s, f)]) || Floor(t, s, f) == 1
  {
    hide RowReads, AttachmentRead;
    var again, floor := RowReads(s, f) + [AttachmentRead(s, f)], Floor(t, s, f);
    assert RowReads(s, f) + [AttachmentRead(s, f), 1] == again + [1] && floor == Highest(again + [1]);
    assert Highest(again) in again + [1] && (again + [1])[|again|] == 1 && 1 in again + [1];
    assert forall v | v in RowReads(s, f) :: v in again + [1];
    assert (again + [1])[|again| - 1] == AttachmentRead(s, f);
    assert AttachmentRead(s, f) in again + [1];
    assert floor in again || floor == 1;
  }

  lemma MirroredReadsBack(t: Task, s: State, f: FinalAnswers, revision: int)
    requires Reviewable(t, s) && OneDraft(s) && ReReads(t, s, f) && revision >= Floor(t, s, f)
    ensures ReadBack(t, s, Mirrored(t, s, f, revision)) == Ok((Rebound(s, f), RowReads(s, f)))
  {
    hide Mirror, ExpectedRows, ExpectedAttachments, Projects, Floor;
    BelowFloor(t, s, f);
    var g := Mirrored(t, s, f, revision);
    assert s.rows != [] ==> Highest(RowReads(s, f)) in RowReads(s, f);
    assert DraftProved(Rebound(s, f), if RowReads(s, f) == [] then 0 else Highest(RowReads(s, f)), g.evidence);
  }

  /** A certificate is never below the floor. */
  lemma CertifiedFromFloor(t: Task, s: State, f: FinalAnswers)
    requires CertifiedBy(t, s, f).Some?
    ensures ReReads(t, s, f) && Floor(t, s, f) <= CertifiedBy(t, s, f).value
    ensures FinalReview(t, s, f).value.state == Rebound(s, f)
  {
    hide DraftProved, Certify, Recheck, ExpectedRows, ExpectedAttachments, Projects, Floor;
    var (s', revisions) := ReadBack(t, s, f).value;
    assert s' == Rebound(s, f) && revisions == RowReads(s, f);
    var e := ExpectationOf(t, s', revisions);
    CertifiedCarries(PlanOf(t, s'), f.first, e);
    BelowFloor(t, s, f);
  }

  /** With these re-reads every certificate is at a height or above it if and only if the floor is. */
  lemma FloorIff(t: Task, s: State, f: FinalAnswers, height: int)
    requires Reviewable(t, s) && OneDraft(s) && ReReads(t, s, f)
    ensures (forall g | SameReads(f, g) && CertifiedBy(t, s, g).Some? :: CertifiedBy(t, s, g).value >= height)
            <==> Floor(t, s, f) >= height
  {
    hide CertifiedBy, Mirrored, Floor, OneDraft;
    var g := Mirrored(t, s, f, Floor(t, s, f));
    ReReadIsReady(t, s, f, Floor(t, s, f));
    forall g | SameReads(f, g) && CertifiedBy(t, s, g).Some? ensures CertifiedBy(t, s, g).value >= Floor(t, s, f) {
      CertifiedFromFloor(t, s, g);
      SameFloor(t, s, f, g);
    }
  }

  lemma SameFloor(t: Task, s: State, f: FinalAnswers, g: FinalAnswers)
    requires ReReads(t, s, f) && SameReads(f, g)
    ensures ReReads(t, s, g) && Floor(t, s, g) == Floor(t, s, f)
  {
  }

  // ----- every re-read at the same revision

  /** Every row collection re-read at one revision. */
  function ReadAt(n: nat, revision: int): seq<Option<int>> {
    seq(n, _ => Some(revision))
  }

  predicate ObservedUpTo(rows: seq<RowBinding>, revision: int) {
    forall r | r in rows && r.observed.Some? :: r.observed.value <= revision
  }

  ghost function MirrorAnswers(t: Task, s: State, revision: int): FinalAnswers
    requires SlotsKnown(t, s.slots)
  {
    var retained := if s.attachment.Some? then Some(Attachment(DraftOf(s), revision)) else None;
    Mirrored(t, s, FinalAnswers(ReadAt(|s.rows|, revision), retained, true, None, true, None, None, true), revision)
  }

  /** Every state that the run has made reviewable is READY for some answers, at any revision not below what the row
      reconcilers observed, whatever the revision at which an upload was bound before. */
  lemma ReviewableIsReady(t: Task, s: State, revision: int)
    requires Reviewable(t, s) && OneDraft(s) && revision >= 1 && ObservedUpTo(s.rows, revision)
    ensures var r := FinalReview(t, s, MirrorAnswers(t, s, revision));
            && r.Ok? && r.value.Done? && r.value.proof.certificate.revision == revision
            && r.value.state
               == s.(attachment := if s.attachment.Some? then Some(Attachment(DraftOf(s), revision)) else None)
  {
    var retained := if s.attachment.Some? then Some(Attachment(DraftOf(s), revision)) else None;
    var f := FinalAnswers(ReadAt(|s.rows|, revision), retained, true, None, true, None, None, true);
    assert forall i | 0 <= i < |s.rows| :: s.rows[i] in s.rows;
    assert ReReads(t, s, f);
    AllAt(RowReads(s, f) + [AttachmentRead(s, f), 1], revision);
    hide Reviewable, FinalReview, Mirrored, OneDraft;
    ReReadIsReady(t, s, f, revision);
  }

  lemma AllAt(values: seq<int>, revision: int)
    requires values != [] && forall v | v in values :: v <= revision
    ensures Highest(values) <= revision
  {
  }

  /** Conversely, only a reviewable state becomes READY: this is all that the run can contribute. */
  lemma ReadyWasReviewable(t: Task, s: State, f: FinalAnswers)
    requires FinalReview(t, s, f).Ok?
    ensures Reviewable(t, s)
  {
    hide DraftProved, CompareFields, Recheck, Projects, ExpectedRows, ExpectedFields, ExpectedAttachments;
    var s' := ReadBack(t, s, f).value.0;
    var revisions := ReadBack(t, s, f).value.1;
    var e := ExpectationOf(t, s', revisions);
    assert Certify(PlanOf(t, s'), f.first, e).Ok?;
    assert CheckFields(PlanOf(t, s'), f.first.value).Pass? && CheckCollections(PlanOf(t, s'), f.first.value, e).Pass?;
    CoveredByExpected(f.first.value, e);
    assert ExpectedAttachments(t, s.slots).Keys == (set k | k in s.slots) by { SlotKeys(t, s.slots); }
  }

  lemma SlotKeys(t: Task, slots: seq<string>)
    requires SlotsKnown(t, slots)
    ensures ExpectedAttachments(t, slots).Keys == (set k | k in slots)
  {
  }

  lemma CoveredByExpected(s: Snapshot, e: Expected)
    requires s.rows.Some? && s.rows.value.Keys == e.rows.Keys && ProjectsCovered(e.projects, s.rows.value)
    requires forall k | k in e.rows :: RowsMatch(s.rows.value[k], e.rows[k])
    ensures forall id | id in RequiredProjects(e.projects) ::
              id.Some? && "projects" in e.rows && id.value in e.rows["projects"]
  {
    if "projects" in e.rows { RowMapSize(s.rows.value["projects"]); }
  }
}
