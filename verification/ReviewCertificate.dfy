/** certify_review and recheck_review: the read-only evidence behind READY. */
module ReviewCertificate {
  import opened Results

  /** Digests are injective, so a digest is modelled by what it digests. */
  type Digest = string

  /** The digest of one record's values. */
  type RowDigest = map<string, string>

  datatype Status = Resolved | KeepExisting | UserConfirmation | Unresolved

  predicate Settled(s: Status) {
    s.Resolved? || s.KeepExisting?
  }

  datatype Field = Field(fieldId: string, selector: string, asset: Option<string>, status: Status,
                         required: bool, value: string, scope: Option<string>)

  datatype Plan = Plan(target: string, fields: seq<Field>, unresolved: seq<Field>, attachments: set<string>)

  /** One field of the server inventory. */
  datatype Observed = Observed(index: int, selector: string, fieldId: string, required: bool, value: string,
                               scope: Option<string>, defaultConfirmed: bool)

  datatype RowRecord = RowRecord(recordId: string, valuesDigest: RowDigest)

  /** A server readback; None stands for a missing or ill-typed entry. */
  datatype Snapshot = Snapshot(
    serverReadback: bool, target: string, draft: Option<Digest>, revision: Option<int>,
    accountVerified: bool, account: Option<Digest>,
    completePages: bool, completeRequired: bool, saveVerified: bool,
    validationErrors: Option<int>, hiddenRequired: Option<int>, unverifiedDefaults: Option<int>,
    epoch: Option<string>, driverVersion: Option<string>,
    fields: Option<seq<Observed>>, attachments: Option<map<string, Digest>>,
    rows: Option<map<string, seq<RowRecord>>>)

  datatype Project = Project(id: Option<string>, excluded: bool)

  type Rows = map<string, map<string, RowDigest>>

  datatype Expected = Expected(
    draft: Option<Digest>, account: Option<Digest>, rows: Rows, attachments: map<string, Digest>,
    minimumRevision: int, profileVersion: string, projects: seq<Project>)

  /** plan_binding_digest binds exactly these. */
  datatype Binding = Binding(target: string, fields: seq<Field>, rows: Rows, attachments: map<string, Digest>)

  datatype Certificate = Certificate(
    target: string, draft: Digest, revision: int, epoch: string, driverVersion: string, profileVersion: string,
    binding: Binding, fieldCount: nat, attachmentCount: nat, rowCount: nat)

  datatype Unverified =
    | ReadbackUnavailable | TargetOrDraft | Account | Inventory | Observer | UnresolvedFields
    | FieldInventory | FieldDiffers | UnconfirmedDefault | Attachments | RowInventory | RowValues
    | ProjectRows | ProfileVersion | DependenciesChanged

  // ----- fields

  predicate IsExpectedField(f: Field) {
    Settled(f.status) && f.asset.None?
  }

  function ExpectedFields(fields: seq<Field>): seq<Field> {
    if fields == [] then []
    else (if IsExpectedField(fields[0]) then [fields[0]] else []) + ExpectedFields(fields[1..])
  }

  predicate FieldMatches(f: Field, o: Observed, index: int) {
    && o.index == index
    && (f.scope.Some? ==> o.scope == f.scope)
    && o.selector == f.selector && o.fieldId == f.fieldId && o.required == f.required && o.value == f.value
  }

  predicate DefaultConfirmed(f: Field, o: Observed) {
    f.status.KeepExisting? ==> o.defaultConfirmed
  }

  /** The comparison loop over the zipped inventories. */
  function CompareFields(expected: seq<Field>, actual: seq<Observed>, i: nat): Outcome<Unverified>
    requires |expected| == |actual| && i <= |expected|
    decreases |expected| - i
  {
    if i == |expected| then Pass
    else if !FieldMatches(expected[i], actual[i], i) then Fail(FieldDiffers)
    else if !DefaultConfirmed(expected[i], actual[i]) then Fail(UnconfirmedDefault)
    else CompareFields(expected, actual, i + 1)
  }

  // ----- rows

  /** The records as a map, in which a later record overwrites an earlier one. */
  function RowMap(records: seq<RowRecord>): map<string, RowDigest> {
    if records == [] then map[]
    else RowMap(records[..|records| - 1])[records[|records| - 1].recordId := records[|records| - 1].valuesDigest]
  }

  predicate RowsMatch(actual: seq<RowRecord>, records: map<string, RowDigest>) {
    |actual| == |records| && RowMap(actual) == records
  }

  function RowIds(records: seq<RowRecord>): set<string> {
    set r | r in records :: r.recordId
  }

  function RequiredProjects(projects: seq<Project>): set<Option<string>> {
    set p | p in projects && !p.excluded :: p.id
  }

  predicate ProjectsCovered(projects: seq<Project>, rows: map<string, seq<RowRecord>>) {
    var ids := if "projects" in rows then RowIds(rows["projects"]) else {};
    forall id | id in RequiredProjects(projects) :: id.Some? && id.value in ids
  }

  function RowTotal(rows: map<string, seq<RowRecord>>): nat {
    |set k, i | k in rows && 0 <= i < |rows[k]| :: (k, i)|
  }

  // ----- certification

  predicate IdentityOk(plan: Plan, s: Snapshot, e: Expected) {
    && s.target == plan.target && s.draft.Some? && (e.draft.Some? ==> s.draft == e.draft)
    && s.revision.Some? && s.revision.value >= (if e.minimumRevision > 1 then e.minimumRevision else 1)
  }

  predicate InventoryComplete(s: Snapshot) {
    && s.completePages && s.completeRequired && s.saveVerified
    && s.validationErrors == Some(0) && s.hiddenRequired == Some(0) && s.unverifiedDefaults == Some(0)
  }

  function CheckObservation(plan: Plan, s: Snapshot, e: Expected): Outcome<Unverified> {
    if !s.serverReadback then Fail(ReadbackUnavailable)
    else if !IdentityOk(plan, s, e) then Fail(TargetOrDraft)
    else if !(s.accountVerified && s.account.Some? && e.account.Some? && s.account == e.account) then Fail(Account)
    else if !InventoryComplete(s) then Fail(Inventory)
    else Need(s.epoch.Some? && s.epoch.value != "" && s.driverVersion.Some?, Observer)
  }

  function CheckFields(plan: Plan, s: Snapshot): Outcome<Unverified> {
    var expected := ExpectedFields(plan.fields);
    if plan.unresolved != [] || !(forall f | f in plan.fields :: Settled(f.status)) then Fail(UnresolvedFields)
    else if s.fields.None? || |s.fields.value| != |expected| then Fail(FieldInventory)
    else CompareFields(expected, s.fields.value, 0)
  }

  function CheckCollections(plan: Plan, s: Snapshot, e: Expected): Outcome<Unverified> {
    if !(plan.attachments <= e.attachments.Keys && s.attachments == Some(e.attachments)) then Fail(Attachments)
    else if s.rows.None? || s.rows.value.Keys != e.rows.Keys then Fail(RowInventory)
    else if !(forall k | k in e.rows :: RowsMatch(s.rows.value[k], e.rows[k])) then Fail(RowValues)
    else if !ProjectsCovered(e.projects, s.rows.value) then Fail(ProjectRows)
    else Need(e.profileVersion != "", ProfileVersion)
  }

  /** certify_review */
  function Certify(plan: Plan, snapshot: Option<Snapshot>, e: Expected): Result<Certificate, Unverified> {
    if snapshot.None? then Refused(ReadbackUnavailable)
    else
      var s := snapshot.value;
      :- CheckObservation(plan, s, e);
      :- CheckFields(plan, s);
      :- CheckCollections(plan, s, e);
      Ok(Certificate(plan.target, s.draft.value, s.revision.value, s.epoch.value, s.driverVersion.value,
                     e.profileVersion,
                     Binding(plan.target, plan.fields, e.rows, e.attachments),
                     |s.fields.value|, |s.attachments.value|, RowTotal(s.rows.value)))
  }

  /** recheck_review */
  function Recheck(c: Certificate, plan: Plan, snapshot: Option<Snapshot>, e: Expected)
    : Result<Certificate, Unverified>
  {
    var now := Certify(plan, snapshot, e.(draft := Some(c.draft), minimumRevision := c.revision));
    if now.Refused? then now
    else
      var n := now.value;
      if n.target != c.target || n.revision != c.revision || n.epoch != c.epoch || n.driverVersion != c.driverVersion
         || n.profileVersion != c.profileVersion || n.binding != c.binding || n.fieldCount != c.fieldCount
         || n.attachmentCount != c.attachmentCount || n.rowCount != c.rowCount
      then Refused(DependenciesChanged)
      else now
  }

  // ----- what acceptance means

  /** The map of a list has one entry per distinct record, and the ids of the list. */
  lemma {:induction false} RowMapSize(records: seq<RowRecord>)
    ensures RowMap(records).Keys == RowIds(records) && |RowMap(records)| <= |records|
  {
    if records != [] {
      var init, last := records[..|records| - 1], records[|records| - 1];
      RowMapSize(init);
      assert records == init + [last];
      assert RowMap(records).Keys == RowMap(init).Keys + {last.recordId};
    }
  }

  /** When no entry was overwritten, the last record is new and the others were not overwritten either. */
  lemma LastRowIsNew(records: seq<RowRecord>)
    requires records != [] && |RowMap(records)| == |records|
    ensures var init, last := records[..|records| - 1], records[|records| - 1];
            && |RowMap(init)| == |init| && last.recordId !in RowMap(init)
            && RowMap(records) == RowMap(init)[last.recordId := last.valuesDigest]
  {
    var init, last := records[..|records| - 1], records[|records| - 1];
    RowMapSize(init);
    var m := RowMap(init);
    assert |RowMap(records).Keys| == |records| && |m.Keys| <= |init|;
    assert last.recordId in m ==> RowMap(records).Keys == m.Keys;
    assert last.recordId !in m ==> RowMap(records).Keys == m.Keys + {last.recordId};
  }

  lemma {:induction false} RowMapHas(records: seq<RowRecord>, id: string) returns (i: nat)
    requires id in RowMap(records)
    ensures i < |records| && records[i] == RowRecord(id, RowMap(records)[id])
  {
    i := |records| - 1;
    if records[i].recordId != id { i := RowMapHas(records[..i], id); }
  }

  lemma {:induction false} RowsDistinct(records: seq<RowRecord>, i: nat, j: nat)
    requires |RowMap(records)| == |records| && i < j < |records|
    ensures records[i].recordId != records[j].recordId
  {
    LastRowIsNew(records);
    var init := records[..|records| - 1];
    if j < |init| {
      RowsDistinct(init, i, j);
    } else {
      RowMapSize(init);
      assert init[i] in init && init[i].recordId in RowIds(init);
    }
  }

  /** Length and map equality together exclude duplicates: the server rows are a bijection with the records. */
  lemma RowsAreBijection(records: seq<RowRecord>, expected: map<string, RowDigest>)
    requires RowsMatch(records, expected)
    ensures forall i, j | 0 <= i < j < |records| :: records[i].recordId != records[j].recordId
    ensures forall i | 0 <= i < |records| ::
              records[i].recordId in expected && expected[records[i].recordId] == records[i].valuesDigest
    ensures forall id | id in expected :: exists i | 0 <= i < |records| :: records[i] == RowRecord(id, expected[id])
  {
    assert |RowMap(records)| == |records|;
    hide RowMap;
    forall i, j | 0 <= i < j < |records| ensures records[i].recordId != records[j].recordId {
      RowsDistinct(records, i, j);
    }
    forall id | id in expected ensures exists i | 0 <= i < |records| :: records[i] == RowRecord(id, expected[id]) {
      var i := RowMapHas(records, id);
    }
    forall i | 0 <= i < |records|
      ensures records[i].recordId in expected && expected[records[i].recordId] == records[i].valuesDigest
    {
      RowMapSize(records);
      assert records[i] in records && records[i].recordId in RowIds(records);
      var k := RowMapHas(records, records[i].recordId);
      assert k == i;
    }
  }

  lemma {:induction false} FieldsAgree(expected: seq<Field>, actual: seq<Observed>, i: nat)
    requires |expected| == |actual| && i <= |expected| && CompareFields(expected, actual, i).Pass?
    ensures forall k | i <= k < |expected| ::
              FieldMatches(expected[k], actual[k], k) && DefaultConfirmed(expected[k], actual[k])
    decreases |expected| - i
  {
    if i < |expected| { FieldsAgree(expected, actual, i + 1); }
  }

  /** A certified snapshot carries exactly the planned values, the expected attachments, and one server row per
      expected record, covering every project that the user did not exclude. */
  predicate Carries(s: Snapshot, plan: Plan, e: Expected) {
    && s.target == plan.target
    && s.fields.Some? && |s.fields.value| == |ExpectedFields(plan.fields)|
    && (forall k | 0 <= k < |s.fields.value| :: FieldMatches(ExpectedFields(plan.fields)[k], s.fields.value[k], k))
    && s.attachments == Some(e.attachments)
    && s.rows.Some? && s.rows.value.Keys == e.rows.Keys
    && (forall k | k in e.rows :: RowsMatch(s.rows.value[k], e.rows[k]))
    && ProjectsCovered(e.projects, s.rows.value)
  }

  lemma CertifiedCarries(plan: Plan, snapshot: Option<Snapshot>, e: Expected)
    requires Certify(plan, snapshot, e).Ok?
    ensures snapshot.Some? && Carries(snapshot.value, plan, e)
    ensures plan.unresolved == [] && forall f | f in plan.fields :: Settled(f.status)
    ensures var s, c := snapshot.value, Certify(plan, snapshot, e).value;
            && s.draft == Some(c.draft) && s.revision == Some(c.revision) && s.epoch == Some(c.epoch)
            && (e.draft.Some? ==> c.draft == e.draft.value)
            && c.revision >= e.minimumRevision && c.revision >= 1
            && e.account.Some? && s.account == e.account
  {
    FieldsAgree(ExpectedFields(plan.fields), snapshot.value.fields.value, 0);
  }

  /** Every expected project that is not excluded has its own server row with the canonical values. */
  lemma ProjectHasRow(plan: Plan, snapshot: Option<Snapshot>, e: Expected, id: string) returns (i: nat)
    requires Certify(plan, snapshot, e).Ok? && Project(Some(id), false) in e.projects
    ensures snapshot.Some? && snapshot.value.rows.Some? && "projects" in e.rows
            && "projects" in snapshot.value.rows.value
    ensures var rows := snapshot.value.rows.value["projects"];
            && i < |rows| && id in e.rows["projects"] && rows[i] == RowRecord(id, e.rows["projects"][id])
  {
    CertifiedCarries(plan, snapshot, e);
    var rows := snapshot.value.rows.value;
    assert Some(id) in RequiredProjects(e.projects);
    assert "projects" in rows;
    RowsAreBijection(rows["projects"], e.rows["projects"]);
    var r: RowRecord :| r in rows["projects"] && r.recordId == id;
    i :| 0 <= i < |rows["projects"]| && rows["projects"][i] == r;
  }

  /** Two readbacks hold the same draft: values, attachments, rows, revision and document. */
  predicate SameDraft(a: Snapshot, b: Snapshot) {
    && a.target == b.target && a.draft == b.draft && a.revision == b.revision && a.epoch == b.epoch
    && a.driverVersion == b.driverVersion
    && a.fields.Some? && b.fields.Some? && |a.fields.value| == |b.fields.value|
    && (forall k | 0 <= k < |a.fields.value| ::
          var x, y := a.fields.value[k], b.fields.value[k];
          x.index == y.index && x.selector == y.selector && x.fieldId == y.fieldId
          && x.required == y.required && x.value == y.value)
    && a.attachments == b.attachments
    && a.rows.Some? && b.rows.Some? && a.rows.value.Keys == b.rows.value.Keys
    && (forall k | k in a.rows.value :: RowMap(a.rows.value[k]) == RowMap(b.rows.value[k])
                                        && |a.rows.value[k]| == |b.rows.value[k]|)
  }

  /** When the recheck accepts, whatever plan and expectations it was given, nothing has moved. */
  lemma RecheckSeesSameDraft(plan: Plan, first: Option<Snapshot>, e: Expected,
                             later: Plan, second: Option<Snapshot>, f: Expected)
    requires Certify(plan, first, e).Ok? && Recheck(Certify(plan, first, e).value, later, second, f).Ok?
    ensures first.Some? && second.Some? && SameDraft(first.value, second.value)
    ensures later.fields == plan.fields && f.rows == e.rows && f.attachments == e.attachments
  {
    var c := Certify(plan, first, e).value;
    var g := f.(draft := Some(c.draft), minimumRevision := c.revision);
    CertifiedCarries(plan, first, e);
    CertifiedCarries(later, second, g);
    RecheckBinds(c, later, second, f);
    var a, b := first.value, second.value;
    forall k | 0 <= k < |a.fields.value|
      ensures var x, y := a.fields.value[k], b.fields.value[k];
              x.index == y.index && x.selector == y.selector && x.fieldId == y.fieldId
              && x.required == y.required && x.value == y.value
    {
      assert FieldMatches(ExpectedFields(plan.fields)[k], a.fields.value[k], k);
      assert FieldMatches(ExpectedFields(plan.fields)[k], b.fields.value[k], k);
    }
  }

  lemma RecheckBinds(c: Certificate, later: Plan, second: Option<Snapshot>, f: Expected)
    requires Recheck(c, later, second, f).Ok?
    ensures Certify(later, second, f.(draft := Some(c.draft), minimumRevision := c.revision))
            == Recheck(c, later, second, f)
    ensures var n := Recheck(c, later, second, f).value;
            && n.target == c.target && n.revision == c.revision && n.epoch == c.epoch
            && n.driverVersion == c.driverVersion && n.binding == c.binding && n.profileVersion == c.profileVersion
            && n.binding == Binding(later.target, later.fields, f.rows, f.attachments)
  {
    hide CheckObservation, CheckFields, CheckCollections;
  }
}
